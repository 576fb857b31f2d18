/**
 * Image references (`[host[:port]/]path[:tag|@digest]`) as the versioner
 * handles them: `split` cuts a reference into a name and a suffix that keeps
 * its `:` or `@`, and `mutateImage` merges an override into a reference.
 * References are strings of characters where Go works on UTF-8 bytes.
 * Positions differ once a multi-byte character comes first, but the three
 * delimiters are single ASCII bytes, so both find the same delimiter
 * occurrence and `split` returns the same two strings.
 */
module ImageRef {

  /** The override for one container: the `Image` record of the versions table. */
  datatype Image = Image(name: string, tag: string, digest: string)

  /** The versions table of one environment: container name to override. */
  type Versions = map<string, Image>

  // ---------------------------------------------------------------------
  // Go's strings.Index and strings.LastIndex for a one-character needle

  /** Position of the first `c` in `s`, or -1 when there is none. */
  function IndexOf(s: string, c: char): (r: int)
    ensures -1 <= r < |s|
    ensures r == -1 <==> forall j :: 0 <= j < |s| ==> s[j] != c
    ensures 0 <= r ==> s[r] == c && forall j :: 0 <= j < r ==> s[j] != c
  {
    if |s| == 0 then -1
    else if s[0] == c then 0
    else
      var r := IndexOf(s[1..], c);
      assert forall j :: 1 <= j < |s| ==> s[j] == s[1..][j - 1];
      if r < 0 then -1 else r + 1
  }

  /** Position of the last `c` in `s`, or -1 when there is none. */
  function LastIndexOf(s: string, c: char): (r: int)
    ensures -1 <= r < |s|
    ensures r == -1 <==> forall j :: 0 <= j < |s| ==> s[j] != c
    ensures 0 <= r ==> s[r] == c && forall j :: r < j < |s| ==> s[j] != c
  {
    if |s| == 0 then -1
    else if s[|s| - 1] == c then |s| - 1
    else LastIndexOf(s[..|s| - 1], c)
  }

  // ---------------------------------------------------------------------
  // split

  /**
   * The colon `split` may cut at (`ic` in the source), or -1. Without a `/`
   * it is the last colon anywhere; with one, only colons after the first `/`
   * count, so that a registry port is never taken for a tag.
   */
  function TagColonIndex(s: string): (r: int)
    ensures -1 <= r < |s|
    ensures 0 <= r ==> s[r] == ':' && forall j :: r < j < |s| ==> s[j] != ':'
    ensures 0 <= r && IndexOf(s, '/') >= 0 ==> IndexOf(s, '/') < r
    ensures IndexOf(s, '/') < 0 && r < 0 ==> forall j :: 0 <= j < |s| ==> s[j] != ':'
  {
    var slash := IndexOf(s, '/');
    if slash < 0 then LastIndexOf(s, ':')
    else
      var lastIc := LastIndexOf(s[slash..], ':');
      if lastIc > 0 then slash + lastIc else -1
  }

  /**
   * Cuts a reference into its name and its tag-or-digest suffix. The suffix
   * keeps its delimiter; a qualifying colon is preferred over `@`.
   */
  function Split(s: string): (r: (string, string))
    ensures r.0 + r.1 == s
    ensures r.1 == [] || r.1[0] == ':' || r.1[0] == '@'
  {
    var ic := TagColonIndex(s);
    var ia := LastIndexOf(s, '@');
    if ic < 0 && ia < 0 then (s, "")
    else
      var i := if ic < 0 then ia else ic;
      (s[..i], s[i..])
  }

  // ---------------------------------------------------------------------
  // An independent description of where `split` cuts

  ghost predicate SlashBefore(s: string, p: int)
  {
    exists j :: 0 <= j < p && j < |s| && s[j] == '/'
  }

  /** `p` is a colon that may delimit a tag: no `/` at all, or a `/` before it. */
  ghost predicate TagColon(s: string, p: int)
  {
    0 <= p < |s| && s[p] == ':' && (SlashBefore(s, |s|) ==> SlashBefore(s, p))
  }

  /**
   * `p` is where the name ends: at the last tag colon if there is one, else
   * at the last `@` if there is one, else at the end of the string.
   */
  ghost predicate CutPoint(s: string, p: int)
  {
    if exists q :: TagColon(s, q) then
      TagColon(s, p) && forall q :: p < q ==> !TagColon(s, q)
    else if exists q :: 0 <= q < |s| && s[q] == '@' then
      0 <= p < |s| && s[p] == '@' && forall q :: p < q < |s| ==> s[q] != '@'
    else
      p == |s|
  }

  /** `TagColonIndex` finds the last tag colon, or reports that there is none. */
  lemma {:induction false} TagColonIndexIsLastTagColon(s: string)
    ensures var ic := TagColonIndex(s);
      (ic < 0 <==> forall q :: !TagColon(s, q)) &&
      (0 <= ic ==> TagColon(s, ic) && forall q :: ic < q ==> !TagColon(s, q))
  {
    var slash := IndexOf(s, '/');
    var ic := TagColonIndex(s);
    if slash < 0 {
      assert forall q :: !SlashBefore(s, q);
      assert forall q :: TagColon(s, q) <==> 0 <= q < |s| && s[q] == ':';
    } else {
      assert SlashBefore(s, |s|);
      forall q | 0 <= q < |s| ensures SlashBefore(s, q) <==> slash < q {
        if slash < q {
          assert s[slash] == '/';
        }
        if SlashBefore(s, q) {
          var j :| 0 <= j < q && j < |s| && s[j] == '/';
        }
      }
      var t := s[slash..];
      var lastIc := LastIndexOf(t, ':');
      assert forall q :: slash <= q < |s| ==> s[q] == t[q - slash];
      assert t[0] == '/';
      if lastIc > 0 {
        assert ic == slash + lastIc;
        assert TagColon(s, ic);
      } else {
        assert forall q :: slash < q < |s| ==> s[q] != ':';
      }
    }
  }

  /** `split` cuts exactly at the cut point described by `CutPoint`. */
  lemma {:induction false} SplitAtCutPoint(s: string)
    ensures CutPoint(s, |Split(s).0|)
  {
    TagColonIndexIsLastTagColon(s);
    var ic := TagColonIndex(s);
    var ia := LastIndexOf(s, '@');
    if 0 <= ic {
      assert |Split(s).0| == ic;
    } else if 0 <= ia {
      assert |Split(s).0| == ia;
      assert forall q :: !TagColon(s, q);
    } else {
      assert Split(s) == (s, "");
    }
  }

  /** There is only one cut point. */
  lemma CutPointUnique(s: string, p: int, p': int)
    requires CutPoint(s, p) && CutPoint(s, p')
    ensures p == p'
  {
    if exists q :: TagColon(s, q) {
      assert !(p < p') && !(p' < p);
    } else if exists q :: 0 <= q < |s| && s[q] == '@' {
      assert !(p < p') && !(p' < p);
    }
  }

  /** `split` returns the text before the cut point and the text from it on. */
  lemma SplitIsCutAt(s: string, p: int)
    requires CutPoint(s, p)
    ensures 0 <= p <= |s| && Split(s) == (s[..p], s[p..])
  {
    SplitAtCutPoint(s);
    CutPointUnique(s, p, |Split(s).0|);
  }

  /** The suffix is empty exactly when there is neither a tag colon nor an `@`. */
  lemma {:induction false} SplitWhole(s: string)
    ensures Split(s) == (s, "") <==>
      (forall q :: !TagColon(s, q)) && forall q :: 0 <= q < |s| ==> s[q] != '@'
  {
    SplitAtCutPoint(s);
    if Split(s) == (s, "") {
      assert CutPoint(s, |s|);
    }
  }

  /** A colon before the first `/` (a registry port) is never where `split` cuts. */
  lemma {:induction false} PortColonNeverCut(s: string, p: int)
    requires 0 <= p < |s| && s[p] == ':'
    requires exists j :: p < j < |s| && s[j] == '/'
    requires forall j :: 0 <= j < p ==> s[j] != '/'
    ensures |Split(s).0| != p
  {
    SplitAtCutPoint(s);
    var j :| p < j < |s| && s[j] == '/';
    assert SlashBefore(s, |s|);
    assert !TagColon(s, p);
  }

  /** A tag colon, when there is one, wins over every `@`. */
  lemma {:induction false} ColonBeatsAt(s: string, p: int)
    requires TagColon(s, p)
    ensures Split(s).1 != [] && Split(s).1[0] == ':'
    ensures |Split(s).0| >= p
  {
    SplitAtCutPoint(s);
    var c := |Split(s).0|;
    assert TagColon(s, c);
    assert s[c..][0] == s[c];
  }

  /** Reading `LastIndexOf` off a string whose tail after `p` lacks `c`. */
  lemma LastIndexOfAt(s: string, c: char, p: int)
    requires 0 <= p < |s| && s[p] == c && c !in s[p + 1..]
    ensures LastIndexOf(s, c) == p
  {
    assert forall j :: p < j < |s| ==> s[j] == s[p + 1..][j - p - 1];
  }

  /** Reading `IndexOf` off a string whose head before `p` lacks `c`. */
  lemma IndexOfAt(s: string, c: char, p: int)
    requires 0 <= p < |s| && s[p] == c && c !in s[..p]
    ensures IndexOf(s, c) == p
  {
    assert forall j :: 0 <= j < p ==> s[j] == s[..p][j];
  }

  /** Neither search finds a character the string does not hold. */
  lemma IndexOfAbsent(s: string, c: char)
    requires c !in s
    ensures IndexOf(s, c) == -1 && LastIndexOf(s, c) == -1
  {
    assert forall j :: 0 <= j < |s| ==> s[j] in s;
  }

  /** Without a `/`, `split` cuts at the last colon. */
  lemma SplitAtLastColon(s: string, p: int)
    requires '/' !in s
    requires 0 <= p < |s| && s[p] == ':' && ':' !in s[p + 1..]
    ensures Split(s) == (s[..p], s[p..])
  {
    IndexOfAbsent(s, '/');
    LastIndexOfAt(s, ':', p);
  }

  /** With a `/` at `slash` and none before it, `split` cuts at the last colon after it. */
  lemma SplitAfterSlash(s: string, slash: int, p: int)
    requires 0 <= slash < p < |s| && s[slash] == '/' && '/' !in s[..slash]
    requires s[p] == ':' && ':' !in s[p + 1..]
    ensures Split(s) == (s[..p], s[p..])
  {
    IndexOfAt(s, '/', slash);
    var t := s[slash..];
    assert t[p - slash + 1..] == s[p + 1..];
    LastIndexOfAt(t, ':', p - slash);
  }

  /** A string without any of the delimiters is left whole. */
  lemma SplitPlain(s: string)
    requires '/' !in s && ':' !in s && '@' !in s
    ensures Split(s) == (s, "")
  {
    IndexOfAbsent(s, '/');
    IndexOfAbsent(s, ':');
    IndexOfAbsent(s, '@');
  }

  // The examples below take the reference as a parameter pinned by their
  // requires, which keeps the solver from unfolding the searches on a literal.

  /** With a first `/` at `slash`, no colon after it and no `@`, `split` leaves the reference whole. */
  lemma SplitNoTagAfterSlash(s: string, slash: int)
    requires 0 <= slash < |s| && s[slash] == '/' && '/' !in s[..slash]
    requires ':' !in s[slash..] && '@' !in s
    ensures Split(s) == (s, "")
  {
    IndexOfAt(s, '/', slash);
    IndexOfAbsent(s[slash..], ':');
    IndexOfAbsent(s, '@');
  }

  /** A registry port alone is not a tag. */
  lemma SplitPortOnlyExample(s: string)
    requires s == "host:5000/app"
    ensures Split(s) == (s, "")
  {
    assert s[9] == '/' && '/' !in s[..9] by {
      assert s[..9] == "host:5000";
    }
    assert ':' !in s[9..] by {
      assert s[9..] == "/app";
    }
    SplitNoTagAfterSlash(s, 9);
  }

  /** With a port and a tag, the cut is at the tag's colon. */
  lemma SplitPortAndTagExample(s: string)
    requires s == "host:5000/app:1.0"
    ensures Split(s) == ("host:5000/app", ":1.0")
  {
    assert s[..9] == "host:5000" && s[14..] == "1.0";
    SplitAfterSlash(s, 9, 13);
    assert s[..13] == "host:5000/app" && s[13..] == ":1.0";
  }

  /** A digest written with its algorithm is cut at the algorithm's colon, not at `@`. */
  lemma SplitDigestExample(s: string)
    requires s == "repo@sha256:abc"
    ensures Split(s) == ("repo@sha256", ":abc")
  {
    assert s[12..] == "abc";
    SplitAtLastColon(s, 11);
    assert s[..11] == "repo@sha256" && s[11..] == ":abc";
  }

  // ---------------------------------------------------------------------
  // mutateImage

  /** Merges an override into an image reference; a digest beats a tag. */
  function MutateImage(original: string, image: Image): (r: string)
    ensures image.digest != "" ==>
      r == (if image.name != "" then image.name else Split(original).0) + "@" + image.digest
    ensures image.digest == "" && image.tag != "" ==>
      r == (if image.name != "" then image.name else Split(original).0) + ":" + image.tag
  {
    var (name0, tag0) := Split(original);
    var name := if image.name != "" then image.name else name0;
    var tag1 := if image.tag != "" then ":" + image.tag else tag0;
    var tag := if image.digest != "" then "@" + image.digest else tag1;
    name + tag
  }

  /** An override with every field empty leaves the reference as it was. */
  lemma EmptyOverrideIsIdentity(original: string)
    ensures MutateImage(original, Image("", "", "")) == original
  {
  }

  /** Without a name override the original name is kept; without tag and digest, the original suffix. */
  lemma MutateImageKeeps(original: string, image: Image)
    ensures image.name == "" ==> Split(original).0 <= MutateImage(original, image)
    ensures image.tag == "" && image.digest == "" ==>
      MutateImage(original, image) == (if image.name != "" then image.name else Split(original).0) + Split(original).1
  {
  }

  /** None of the three delimiters occurs in `s`. */
  predicate Plain(s: string)
  {
    forall j :: 0 <= j < |s| ==> s[j] != ':' && s[j] != '@' && s[j] != '/'
  }

  /** Appending a delimiter other than `/` and a word without `/` adds no `/`. */
  lemma {:induction false} SlashesOnlyInName(name: string, d: char, w: string)
    requires d != '/' && '/' !in w
    ensures var s := name + [d] + w;
      && (forall p :: SlashBefore(s, p) <==> SlashBefore(name, p))
      && (SlashBefore(s, |s|) <==> SlashBefore(name, |name|))
  {
    var s := name + [d] + w;
    var n := |name|;
    assert forall j :: 0 <= j < n ==> s[j] == name[j];
    assert forall j :: n < j < |s| ==> s[j] == w[j - n - 1] && w[j - n - 1] in w;
    forall p | SlashBefore(s, p) ensures SlashBefore(name, p) {
      var j :| 0 <= j < p && j < |s| && s[j] == '/';
      assert j < n;
    }
    forall p | SlashBefore(name, p) ensures SlashBefore(s, p) {
      var j :| 0 <= j < p && j < |name| && name[j] == '/';
      assert s[j] == '/';
    }
    if SlashBefore(name, |s|) {
      var j :| 0 <= j < |s| && j < |name| && name[j] == '/';
      assert SlashBefore(name, |name|);
    }
    if SlashBefore(name, |name|) {
      var j :| 0 <= j < |name| && name[j] == '/';
      assert SlashBefore(name, |s|);
    }
  }

  /** Whatever the name, an appended `:` followed by a word without `:` or `/` is where `split` cuts. */
  lemma {:induction false} SplitAtAppendedColon(name: string, w: string)
    requires ':' !in w && '/' !in w
    ensures Split(name + [':'] + w) == (name, [':'] + w)
  {
    var s := name + [':'] + w;
    var n := |name|;
    assert CutPoint(s, n) by {
      assert s[n] == ':';
      assert forall q :: n < q < |s| ==> s[q] != ':' by {
        assert forall j :: n < j < |s| ==> s[j] == w[j - n - 1] && w[j - n - 1] in w;
      }
      SlashesOnlyInName(name, ':', w);
      assert TagColon(s, n);
    }
    assert s[..n] == name && s[n..] == [':'] + w;
    SplitIsCutAt(s, n);
  }

  /** A name without a tag colon, followed by `@` and a plain word, is cut at that `@`. */
  lemma {:induction false} SplitAtAppendedAt(name: string, w: string)
    requires forall q :: !TagColon(name, q)
    requires Plain(w)
    ensures Split(name + ['@'] + w) == (name, ['@'] + w)
  {
    var s := name + ['@'] + w;
    var n := |name|;
    assert forall j :: 0 <= j < n ==> s[j] == name[j];
    assert s[n] == '@';
    assert forall j :: n < j < |s| ==> s[j] == w[j - n - 1];
    assert '/' !in w by {
      assert forall j :: 0 <= j < |w| ==> w[j] != '/';
    }
    SlashesOnlyInName(name, '@', w);
    assert forall q :: 0 <= q < n ==> !TagColon(s, q) by {
      assert forall q :: 0 <= q < n && TagColon(s, q) ==> TagColon(name, q);
    }
    assert forall q :: !TagColon(s, q);
    assert forall q :: n < q < |s| ==> s[q] != '@';
    assert CutPoint(s, n);
    SplitIsCutAt(s, n);
    assert s[..n] == name && s[n..] == ['@'] + w;
  }

  /**
   * With a name set, the result does not depend on the original reference,
   * so applying the override a second time changes nothing.
   */
  lemma MutateImageIdempotent(original: string, image: Image)
    requires image.name != ""
    requires image.tag != "" || image.digest != ""
    ensures MutateImage(MutateImage(original, image), image) == MutateImage(original, image)
  {
  }

  /** A tag override alone is stable under a second application when the tag holds no `:` or `/`. */
  lemma {:induction false} TagOverrideIdempotent(original: string, image: Image)
    requires image.name == "" && image.digest == "" && image.tag != ""
    requires ':' !in image.tag && '/' !in image.tag
    ensures MutateImage(MutateImage(original, image), image) == MutateImage(original, image)
  {
    var name0 := Split(original).0;
    assert MutateImage(original, image) == name0 + [':'] + image.tag;
    SplitAtAppendedColon(name0, image.tag);
  }

  /**
   * A digest override without a name, with a digest holding no delimiter, is
   * stable under a second application exactly when the original name has no
   * tag colon: otherwise that colon becomes the cut the second time.
   */
  lemma {:induction false} DigestOverrideIdempotent(original: string, image: Image)
    requires image.name == "" && image.digest != ""
    requires Plain(image.digest)
    ensures MutateImage(MutateImage(original, image), image) == MutateImage(original, image) <==>
      forall q :: !TagColon(Split(original).0, q)
  {
    var name0, d := Split(original).0, image.digest;
    var m := MutateImage(original, image);
    var n := |name0|;
    assert m == name0 + ['@'] + d;
    if forall q :: !TagColon(name0, q) {
      SplitAtAppendedAt(name0, d);
    } else {
      var q :| TagColon(name0, q);
      assert forall j :: 0 <= j < n ==> m[j] == name0[j];
      assert forall j :: n < j < |m| ==> m[j] == d[j - n - 1];
      assert '/' !in d by {
        assert forall j :: 0 <= j < |d| ==> d[j] != '/';
      }
      SlashesOnlyInName(name0, '@', d);
      assert TagColon(m, q);
      SplitAtCutPoint(m);
      var p := |Split(m).0|;
      assert TagColon(m, p);
      assert p < n;
      assert |MutateImage(m, image)| == p + 1 + |d| < |m|;
    }
  }

  /** Without a name, a reference whose name keeps a colon loses part of its name to a second digest override. */
  lemma DigestAfterTagColonExample(original: string, image: Image)
    requires original == "a:b:c" && image == Image("", "", "d")
    ensures MutateImage(original, image) == "a:b@d"
    ensures MutateImage(MutateImage(original, image), image) == "a@d"
  {
    DigestAfterTagColonFirst(original, image);
    DigestAfterTagColonSecond(MutateImage(original, image), image);
  }

  lemma DigestAfterTagColonFirst(original: string, image: Image)
    requires original == "a:b:c" && image == Image("", "", "d")
    ensures MutateImage(original, image) == "a:b@d"
  {
    assert Split(original) == ("a:b", ":c") by {
      assert original[4..] == "c";
      SplitAtLastColon(original, 3);
      assert original[..3] == "a:b" && original[3..] == ":c";
    }
  }

  lemma DigestAfterTagColonSecond(m: string, image: Image)
    requires m == "a:b@d" && image == Image("", "", "d")
    ensures MutateImage(m, image) == "a@d"
  {
    assert Split(m) == ("a", ":b@d") by {
      assert m[2..] == "b@d";
      SplitAtLastColon(m, 1);
      assert m[..1] == "a" && m[1..] == ":b@d";
    }
  }

  /**
   * A digest holding a colon and no `/`, as `algorithm:hex` digests do, is
   * never stable under a second application without a name: the digest's
   * own last colon becomes the cut, and part of it is kept in the name.
   */
  lemma {:induction false} ColonDigestNeverStable(original: string, image: Image)
    requires image.name == "" && ':' in image.digest && '/' !in image.digest
    ensures MutateImage(MutateImage(original, image), image) != MutateImage(original, image)
  {
    var name0, d := Split(original).0, image.digest;
    var m := MutateImage(original, image);
    var n := |name0|;
    assert m == name0 + ['@'] + d;
    var c := LastIndexOf(d, ':');
    var p := n + 1 + c;
    assert m[p] == ':';
    assert forall q :: p < q < |m| ==> m[q] == d[q - n - 1];
    SlashesOnlyInName(name0, '@', d);
    assert TagColon(m, p) by {
      if SlashBefore(m, |m|) {
        var j :| 0 <= j < n && name0[j] == '/';
        assert m[j] == '/';
      }
    }
    assert CutPoint(m, p);
    SplitIsCutAt(m, p);
    assert |MutateImage(m, image)| == p + 1 + |d| > |m|;
  }

  /** The colon digest `sha256:ab` on `foo`: the second application keeps `sha256` in the name. */
  lemma DigestWithAlgorithmNotIdempotent(original: string, image: Image)
    requires original == "foo" && image == Image("", "", "sha256:ab")
    ensures MutateImage(original, image) == "foo@sha256:ab"
    ensures MutateImage(MutateImage(original, image), image) == "foo@sha256@sha256:ab"
  {
    DigestOnPlainName(original, image);
    DigestOnDigestReference(MutateImage(original, image), image);
  }

  lemma DigestOnPlainName(original: string, image: Image)
    requires original == "foo" && image == Image("", "", "sha256:ab")
    ensures MutateImage(original, image) == "foo@sha256:ab"
  {
    assert Split(original) == (original, "") by {
      SplitPlain(original);
    }
  }

  lemma DigestOnDigestReference(s: string, image: Image)
    requires s == "foo@sha256:ab" && image == Image("", "", "sha256:ab")
    ensures MutateImage(s, image) == "foo@sha256@sha256:ab"
  {
    SplitDigestReference(s);
    assert "foo@sha256" + "@" + "sha256:ab" == "foo@sha256@sha256:ab";
  }

  lemma SplitDigestReference(s: string)
    requires s == "foo@sha256:ab"
    ensures Split(s) == ("foo@sha256", ":ab")
  {
    assert '/' !in s && s[10] == ':' by {
      assert s[..10] == "foo@sha256";
    }
    assert ':' !in s[11..] by {
      assert s[11..] == "ab";
    }
    SplitAtLastColon(s, 10);
    assert s[..10] == "foo@sha256" && s[10..] == ":ab";
  }

  /**
   * The digest merge exercised by the versioner's tests: the tag is dropped.
   * The tests use a 64-digit hex digest; this holds for any non-empty one.
   */
  lemma MutateDigestExample(original: string, image: Image)
    requires original == "foo:bar" && image.name == "" && image.tag == "" && image.digest != ""
    ensures MutateImage(original, image) == "foo@" + image.digest
  {
    assert original[4..] == "bar";
    SplitAtLastColon(original, 3);
    assert original[..3] == "foo";
  }

  /** The name-and-tag merge exercised by the versioner's tests. */
  lemma MutateNameAndTagExample(original: string, image: Image)
    requires original == "elasticsearch" && image == Image("magna/carta", "2", "")
    ensures MutateImage(original, image) == "magna/carta:2"
  {
  }
}
