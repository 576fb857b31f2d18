/**
 * What the rewrite promises: which entries of a container list change and
 * how, where the search stops descending, that nothing but `image` strings
 * ever changes, and that an empty versions table changes nothing.
 */
module RewriterProps {
  import opened Tree
  import opened ImageRef
  import opened Rewriter

  // ---------------------------------------------------------------------
  // Container lists

  /** An entry whose image is rewritten: a mapping with a string `image` and a string `name` that has an override. */
  predicate Matched(versions: Versions, e: Value)
  {
    && e.Obj?
    && "image" in e.fields && e.fields["image"].Str?
    && "name" in e.fields && e.fields["name"].Str?
    && e.fields["name"].s in versions
  }

  /** A matched entry with its image merged with the override for its name. */
  function Retagged(versions: Versions, e: Value): Value
    requires Matched(versions, e)
  {
    var f := e.fields;
    Obj(f["image" := Str(MutateImage(f["image"].s, versions[f["name"].s]))])
  }

  /** An entry the loop gets through without a failed type assertion. */
  predicate WellFormedEntry(e: Value)
  {
    && e.Obj?
    && ("image" in e.fields ==>
          e.fields["image"].Str? && ("name" in e.fields ==> e.fields["name"].Str?))
  }

  /** The panic a malformed entry causes: the first of the three assertions that fails. */
  function EntryPanic(e: Value): Failure
    requires !WellFormedEntry(e)
  {
    if !e.Obj? then EntryNotMap(e)
    else if !e.fields["image"].Str? then ImageNotString(e.fields["image"])
    else NameNotString(e.fields["name"])
  }

  /** The entry as the rewrite leaves it. */
  function Expected(versions: Versions, e: Value): Value
  {
    if Matched(versions, e) then Retagged(versions, e) else e
  }

  /**
   * The entries are rewritten exactly when each is well formed; then the list
   * keeps its length and order, matched entries get the merged image and
   * every other entry is left as it was.
   */
  lemma {:induction false} EntriesRewriteSpec(versions: Versions, items: seq<Value>)
    ensures EntriesRewrite(versions, items).Ok? <==> forall i | 0 <= i < |items| :: WellFormedEntry(items[i])
    ensures EntriesRewrite(versions, items).Ok? ==>
      var out := EntriesRewrite(versions, items).value;
      |out| == |items| && forall i | 0 <= i < |items| :: out[i] == Expected(versions, items[i])
  {
    if items != [] {
      EntriesRewriteSpec(versions, items[1..]);
      var e := items[0];
      assert forall j | 1 <= j < |items| :: items[j] == items[1..][j - 1];
      if EntryRewrite(versions, e).Ok? {
        assert WellFormedEntry(e) && EntryRewrite(versions, e).value == Expected(versions, e);
        if EntriesRewrite(versions, items[1..]).Ok? {
          var out := EntriesRewrite(versions, items).value;
          assert out == [Expected(versions, e)] + EntriesRewrite(versions, items[1..]).value;
        }
      } else {
        assert !WellFormedEntry(e);
      }
    }
  }

  /** A failed rewrite of the entries is the panic of the first malformed entry. */
  lemma {:induction false} EntriesRewriteFailure(versions: Versions, items: seq<Value>)
    ensures EntriesRewrite(versions, items).Err? ==>
      exists i :: 0 <= i < |items| && !WellFormedEntry(items[i]) &&
        (forall j | 0 <= j < i :: WellFormedEntry(items[j])) &&
        EntriesRewrite(versions, items).error == EntryPanic(items[i])
  {
    if items != [] {
      EntriesRewriteFailure(versions, items[1..]);
      var e := items[0];
      if EntryRewrite(versions, e).Ok? {
        assert WellFormedEntry(e);
        if EntriesRewrite(versions, items[1..]).Err? {
          var i :| 0 <= i < |items[1..]| && !WellFormedEntry(items[1..][i]) &&
            (forall j | 0 <= j < i :: WellFormedEntry(items[1..][j])) &&
            EntriesRewrite(versions, items[1..]).error == EntryPanic(items[1..][i]);
          assert forall j | 1 <= j < i + 1 :: items[j] == items[1..][j - 1];
          assert !WellFormedEntry(items[i + 1]);
        }
      } else {
        assert !WellFormedEntry(e) && EntriesRewrite(versions, items).error == EntryPanic(e);
      }
    }
  }

  /**
   * `updateContainers` fails with an error exactly on a value that is not a
   * list; on a list it succeeds exactly when every entry is well formed, and
   * then changes only the images of matched entries.
   */
  lemma ContainersRewriteSpec(versions: Versions, v: Value)
    ensures ContainersRewrite(versions, v).Err? && !IsPanic(ContainersRewrite(versions, v).error) <==> !v.List?
    ensures !v.List? ==> ContainersRewrite(versions, v) == Err(NotAList(v))
    ensures ContainersRewrite(versions, v).Ok? <==> v.List? && forall i | 0 <= i < |v.items| :: WellFormedEntry(v.items[i])
    ensures ContainersRewrite(versions, v).Ok? ==>
      var out := ContainersRewrite(versions, v).value;
      out.List? && |out.items| == |v.items| &&
      forall i | 0 <= i < |v.items| :: out.items[i] == Expected(versions, v.items[i])
  {
    if v.List? {
      EntriesRewriteSpec(versions, v.items);
      EntriesRewriteFailure(versions, v.items);
    }
  }

  /** A table that names none of the listed containers leaves a well-formed list unchanged. */
  lemma IrrelevantTable(versions: Versions, v: Value)
    requires v.List?
    requires forall i | 0 <= i < |v.items| :: WellFormedEntry(v.items[i]) && !Matched(versions, v.items[i])
    ensures ContainersRewrite(versions, v) == Ok(v)
  {
    ContainersRewriteSpec(versions, v);
    assert ContainersRewrite(versions, v).value.items == v.items;
  }

  /** A container entry with just an image and a name. */
  function Entry(image: string, name: string): Value
  {
    Obj(map["image" := Str(image), "name" := Str(name)])
  }

  /**
   * The staging environment of the versioner's staging test. The test's
   * digest is a 64-digit hex string; the lemmas below hold for any
   * non-empty digest, that one included.
   */
  function StagingVersions(digest: string): Versions
  {
    map["magna-carta" := Image("magna/carta", "2", ""), "the-container" := Image("", "", digest)]
  }

  /** The staging test's container list, before the rewrite. */
  function StagingContainers(): Value
  {
    List([Entry("elasticsearch", "magna-carta"), Entry("foo:bar", "the-container"), Entry("baz", "xyz")])
  }

  /** The staging test's container list, as the test expects it after the rewrite. */
  function StagingRewritten(digest: string): Value
  {
    List([Entry("magna/carta:2", "magna-carta"), Entry("foo@" + digest, "the-container"), Entry("baz", "xyz")])
  }

  /**
   * The container list of the versioner's staging test: a name-and-tag
   * override, a digest override that drops the old tag, and an entry the
   * table does not name.
   */
  lemma StagingListExample(digest: string)
    requires digest != ""
    ensures ContainersRewrite(StagingVersions(digest), StagingContainers()) == Ok(StagingRewritten(digest))
  {
    var versions := StagingVersions(digest);
    StagingMagnaCarta(digest);
    StagingTheContainer(digest);
    StagingUnlisted(digest);
    ListOfThree(versions, Entry("elasticsearch", "magna-carta"), Entry("foo:bar", "the-container"), Entry("baz", "xyz"),
      Entry("magna/carta:2", "magna-carta"), Entry("foo@" + digest, "the-container"), Entry("baz", "xyz"));
  }

  /** The staging test's first entry takes the new name and tag. */
  lemma StagingMagnaCarta(digest: string)
    ensures WellFormedEntry(Entry("elasticsearch", "magna-carta"))
    ensures Expected(StagingVersions(digest), Entry("elasticsearch", "magna-carta")) == Entry("magna/carta:2", "magna-carta")
  {
    var versions := StagingVersions(digest);
    assert versions["magna-carta"] == Image("magna/carta", "2", "");
    MutateNameAndTagExample("elasticsearch", versions["magna-carta"]);
    RetagEntry(versions, "elasticsearch", "magna-carta", "magna/carta:2");
  }

  /** The staging test's second entry takes the digest in place of its tag. */
  lemma StagingTheContainer(digest: string)
    requires digest != ""
    ensures WellFormedEntry(Entry("foo:bar", "the-container"))
    ensures Expected(StagingVersions(digest), Entry("foo:bar", "the-container")) == Entry("foo@" + digest, "the-container")
  {
    var versions := StagingVersions(digest);
    assert versions["the-container"] == Image("", "", digest);
    MutateDigestExample("foo:bar", versions["the-container"]);
    RetagEntry(versions, "foo:bar", "the-container", "foo@" + digest);
  }

  /** The staging test's third entry is not in the table and stays. */
  lemma StagingUnlisted(digest: string)
    ensures WellFormedEntry(Entry("baz", "xyz"))
    ensures Expected(StagingVersions(digest), Entry("baz", "xyz")) == Entry("baz", "xyz")
  {
    var versions := StagingVersions(digest);
    assert "xyz" !in versions;
    RetagEntry(versions, "baz", "xyz", "baz");
  }

  /** The staging test's Deployment, with `containers` as its container list. */
  function Deployment(containers: Value): map<string, Value>
  {
    map[
      "apiVersion" := Str("apps/v1"),
      "kind" := Str("Deployment"),
      "metadata" := Obj(map["name" := Str("nginx")]),
      "spec" := Obj(DeploymentSpec(containers))
    ]
  }

  /** The Deployment's `spec`: a pod template whose pod spec holds `containers`. */
  function DeploymentSpec(containers: Value): map<string, Value>
  {
    map["template" := Obj(map["spec" := Obj(map["containers" := containers])])]
  }

  /**
   * The staging test end to end: `findAndReplaceImage` on the whole
   * Deployment searches down to the pod spec and rewrites its container
   * list; everything else stays as it was.
   */
  lemma StagingDeploymentExample(digest: string)
    requires digest != ""
    ensures ObjectRewrite(StagingVersions(digest), Deployment(StagingContainers())) ==
      Ok(Deployment(StagingRewritten(digest)))
  {
    StagingListExample(digest);
    DeploymentRewrite(StagingVersions(digest), StagingContainers(), StagingRewritten(digest));
  }

  /** A Deployment is rewritten exactly where its container list is. */
  lemma DeploymentRewrite(versions: Versions, before: Value, after: Value)
    requires ContainersRewrite(versions, before) == Ok(after)
    ensures ObjectRewrite(versions, Deployment(before)) == Ok(Deployment(after))
  {
    DeploymentSpecRewrite(versions, before, after);
    var metadata := map["name" := Str("nginx")];
    assert ChildRewrite(versions, Str("nginx")) == Ok(Str("nginx"));
    SearchedTo(versions, metadata, metadata);
    var obj, out := Deployment(before), Deployment(after);
    DeploymentKeys(before, after);
    forall k | k in obj ensures ChildRewrite(versions, obj[k]) == Ok(out[k]) {
      if k == "spec" {
        assert ChildRewrite(versions, Obj(DeploymentSpec(before))) == Ok(Obj(DeploymentSpec(after)));
      } else if k == "metadata" {
        assert ChildRewrite(versions, Obj(metadata)) == Ok(Obj(metadata));
      }
    }
    SearchedTo(versions, obj, out);
  }

  lemma DeploymentKeys(before: Value, after: Value)
    ensures !HasContainerField(Deployment(before))
    ensures Deployment(before).Keys == Deployment(after).Keys
  {
    var obj, out := Deployment(before), Deployment(after);
    assert "containers" !in obj && "initContainers" !in obj;
    assert forall k :: k in obj <==> k in out;
  }

  /** The Deployment's `spec` is rewritten exactly where its container list is. */
  lemma DeploymentSpecRewrite(versions: Versions, before: Value, after: Value)
    requires ContainersRewrite(versions, before) == Ok(after)
    ensures ObjectRewrite(versions, DeploymentSpec(before)) == Ok(DeploymentSpec(after))
  {
    ContainersOnly(versions, before, after);
    var pod, pod' := map["containers" := before], map["containers" := after];
    NestedOnce(versions, "spec", pod, pod');
    NestedOnce(versions, "template", map["spec" := Obj(pod)], map["spec" := Obj(pod')]);
  }

  /** A mapping without container fields whose values each search to `out`'s value searches to `out`. */
  lemma SearchedTo(versions: Versions, obj: map<string, Value>, out: map<string, Value>)
    requires !HasContainerField(obj) && out.Keys == obj.Keys
    requires forall k | k in obj :: ChildRewrite(versions, obj[k]) == Ok(out[k])
    ensures ObjectRewrite(versions, obj) == Ok(out)
  {
    SearchEveryValue(versions, obj);
    SearchCollects(versions, obj, out);
  }

  /** A mapping with one field that is not a container field, holding a mapping, is searched through that mapping. */
  lemma NestedOnce(versions: Versions, key: string, inner: map<string, Value>, inner': map<string, Value>)
    requires key !in ContainerFields
    requires ObjectRewrite(versions, inner) == Ok(inner')
    ensures ObjectRewrite(versions, map[key := Obj(inner)]) == Ok(map[key := Obj(inner')])
  {
    SearchedTo(versions, map[key := Obj(inner)], map[key := Obj(inner')]);
  }

  /** A mapping holding just a container list is that list rewritten. */
  lemma ContainersOnly(versions: Versions, before: Value, after: Value)
    requires ContainersRewrite(versions, before) == Ok(after)
    ensures ObjectRewrite(versions, map["containers" := before]) == Ok(map["containers" := after])
  {
    var obj := map["containers" := before];
    ContainerFieldsOnly(versions, obj);
    assert "initContainers" !in obj;
    var m := ObjectRewrite(versions, obj).value;
    assert m.Keys == {"containers"} && m["containers"] == after;
    assert m == map["containers" := after];
  }

  lemma ListOfThree(versions: Versions, e0: Value, e1: Value, e2: Value, r0: Value, r1: Value, r2: Value)
    requires WellFormedEntry(e0) && Expected(versions, e0) == r0
    requires WellFormedEntry(e1) && Expected(versions, e1) == r1
    requires WellFormedEntry(e2) && Expected(versions, e2) == r2
    ensures ContainersRewrite(versions, List([e0, e1, e2])) == Ok(List([r0, r1, r2]))
  {
    var v := List([e0, e1, e2]);
    ContainersRewriteSpec(versions, v);
    assert ContainersRewrite(versions, v).value.items == [r0, r1, r2];
  }

  /** An entry with a string image and name: the merged image if the name has an override, else unchanged. */
  lemma RetagEntry(versions: Versions, image: string, name: string, result: string)
    requires result == if name in versions then MutateImage(image, versions[name]) else image
    ensures WellFormedEntry(Entry(image, name)) && Expected(versions, Entry(image, name)) == Entry(result, name)
  {
    var e := Entry(image, name);
    assert e.fields["image"] == Str(image) && e.fields["name"] == Str(name);
    assert e.fields["image" := Str(result)] == Entry(result, name).fields;
  }

  /** The irrelevant-table test: the table names other containers, so the list is unchanged. */
  lemma IrrelevantListExample(versions: Versions, v: Value)
    requires versions == map["foo" := Image("foo/bar", "baz", ""), "the-container" := Image("", "new-v1", "")]
    requires v == List([Entry("elasticsearch", "elasticsearch")])
    ensures ContainersRewrite(versions, v) == Ok(v)
  {
    IrrelevantTable(versions, v);
  }

  // ---------------------------------------------------------------------
  // Where the search goes

  /**
   * A mapping with `containers` or `initContainers` has only those fields
   * rewritten, `containers` first, and nothing below it is searched.
   */
  lemma ContainerFieldsOnly(versions: Versions, obj: map<string, Value>)
    requires HasContainerField(obj)
    ensures var r := ObjectRewrite(versions, obj);
      r.Ok? <==> forall p | p in obj && p in ContainerFields :: ContainersRewrite(versions, obj[p]).Ok?
    ensures var r := ObjectRewrite(versions, obj);
      r.Ok? ==>
        && r.value.Keys == obj.Keys
        && (forall k | k in obj && k !in ContainerFields :: r.value[k] == obj[k])
        && (forall p | p in obj && p in ContainerFields :: ContainersRewrite(versions, obj[p]) == Ok(r.value[p]))
    ensures var r := ObjectRewrite(versions, obj);
      r.Err? ==>
        if "containers" in obj && ContainersRewrite(versions, obj["containers"]).Err?
        then r.error == {ContainersRewrite(versions, obj["containers"]).error}
        else r.error == {ContainersRewrite(versions, obj["initContainers"]).error}
  {
    var c, ic := "containers", "initContainers";
    assert ContainerFields[..|ContainerFields| - 1] == [c] && [c][..0] == [];
    assert forall p :: p in ContainerFields <==> p == c || p == ic;
    if c in obj && ContainersRewrite(versions, obj[c]).Err? {
      assert FieldsRewrite(versions, obj, [c]) == Err(ContainersRewrite(versions, obj[c]).error);
    } else {
      var m1 := if c in obj then obj[c := ContainersRewrite(versions, obj[c]).value] else obj;
      assert FieldsRewrite(versions, obj, [c]) == Ok(m1);
      if ic in obj {
        assert m1[ic] == obj[ic];
        if ContainersRewrite(versions, obj[ic]).Ok? {
          assert ObjectRewrite(versions, obj) == Ok(m1[ic := ContainersRewrite(versions, obj[ic]).value]);
        }
      } else {
        assert ObjectRewrite(versions, obj) == Ok(m1);
      }
    }
  }

  /**
   * A mapping without them is searched: every value is searched on its own,
   * the keys stay, a failure of any value may be the one reported, and
   * nothing else can be.
   */
  lemma SearchEveryValue(versions: Versions, obj: map<string, Value>)
    requires !HasContainerField(obj)
    ensures ObjectRewrite(versions, obj) == SearchRewrite(versions, obj)
    ensures SearchRewrite(versions, obj).Ok? <==> forall k | k in obj :: ChildRewrite(versions, obj[k]).Ok?
    ensures SearchRewrite(versions, obj).Ok? ==>
      var m := SearchRewrite(versions, obj).value;
      m.Keys == obj.Keys && forall k | k in obj :: ChildRewrite(versions, obj[k]) == Ok(m[k])
    ensures forall k, f | k in obj && ChildRewrite(versions, obj[k]).Err? && f in ChildRewrite(versions, obj[k]).error ::
      SearchRewrite(versions, obj).Err? && f in SearchRewrite(versions, obj).error
    ensures SearchRewrite(versions, obj).Err? ==>
      forall f | f in SearchRewrite(versions, obj).error ::
        exists k :: k in obj && ChildRewrite(versions, obj[k]).Err? && f in ChildRewrite(versions, obj[k]).error
  {
    assert ContainerFields[..|ContainerFields| - 1] == ["containers"] && ["containers"][..0] == [];
    assert FieldsRewrite(versions, obj, ["containers"]) == Ok(obj);
    assert FieldsRewrite(versions, obj, ContainerFields) == Ok(obj);
    forall k, f | k in obj && ChildRewrite(versions, obj[k]).Err? && f in ChildRewrite(versions, obj[k]).error
      ensures SearchRewrite(versions, obj).Err? && f in SearchRewrite(versions, obj).error
    {
      SearchReports(versions, obj, k, f);
    }
  }

  /** One step of a searched list: the first item's outcome, then the rest's. */
  lemma ItemsRewriteStep(versions: Versions, items: seq<Value>, i: nat)
    requires i < |items|
    ensures ItemsRewrite(versions, items, i).Ok? <==>
      (items[i].Obj? ==> ObjectRewrite(versions, items[i].fields).Ok?) && ItemsRewrite(versions, items, i + 1).Ok?
    ensures ItemsRewrite(versions, items, i).Ok? ==>
      ItemsRewrite(versions, items, i).value ==
        [if items[i].Obj? then Obj(ObjectRewrite(versions, items[i].fields).value) else items[i]] +
        ItemsRewrite(versions, items, i + 1).value
  {
  }

  /** A searched list succeeds exactly when every mapping item's search does. */
  lemma {:induction false} ItemsRewriteSpec(versions: Versions, items: seq<Value>, i: nat)
    requires i <= |items|
    ensures ItemsRewrite(versions, items, i).Ok? <==>
      forall j | i <= j < |items| && items[j].Obj? :: ObjectRewrite(versions, items[j].fields).Ok?
    decreases |items| - i
  {
    if i < |items| {
      ItemsRewriteSpec(versions, items, i + 1);
      ItemsRewriteStep(versions, items, i);
    }
  }

  /**
   * In a successfully searched list, every mapping item is rewritten as a
   * mapping and every other item (scalars, nested lists) is kept, in order.
   */
  lemma {:induction false} ItemsRewriteValues(versions: Versions, items: seq<Value>, i: nat)
    requires i <= |items|
    ensures ItemsRewrite(versions, items, i).Ok? ==>
      var out := ItemsRewrite(versions, items, i).value;
      |out| == |items| - i &&
      forall j | i <= j < |items| ::
        if items[j].Obj? then
          ObjectRewrite(versions, items[j].fields).Ok? && out[j - i] == Obj(ObjectRewrite(versions, items[j].fields).value)
        else out[j - i] == items[j]
    decreases |items| - i
  {
    if i < |items| {
      ItemsRewriteValues(versions, items, i + 1);
      ItemsRewriteStep(versions, items, i);
      var r, rest := ItemsRewrite(versions, items, i), ItemsRewrite(versions, items, i + 1);
      if r.Ok? {
        assert forall k | 1 <= k < |r.value| :: r.value[k] == rest.value[k - 1];
      }
    }
  }

  /** A failed search of a list reports the failures of its first mapping item that fails. */
  lemma {:induction false} ItemsRewriteFailure(versions: Versions, items: seq<Value>, i: nat)
    requires i <= |items|
    ensures ItemsRewrite(versions, items, i).Err? ==>
      exists j :: i <= j < |items| && items[j].Obj? &&
        ObjectRewrite(versions, items[j].fields).Err? &&
        ObjectRewrite(versions, items[j].fields).error == ItemsRewrite(versions, items, i).error &&
        forall l | i <= l < j && items[l].Obj? :: ObjectRewrite(versions, items[l].fields).Ok?
    decreases |items| - i
  {
    if i < |items| {
      ItemsRewriteFailure(versions, items, i + 1);
      var r, rest := ItemsRewrite(versions, items, i), ItemsRewrite(versions, items, i + 1);
      var x := items[i];
      if x.Obj? && ObjectRewrite(versions, x.fields).Err? {
        assert r == Err(ObjectRewrite(versions, x.fields).error);
      } else if rest.Err? {
        assert r == Err(rest.error);
      }
    }
  }

  // ---------------------------------------------------------------------
  // Nothing but images changes

  /**
   * `b` is `a` with at most the strings under `image` keys replaced by other
   * strings: same shape, same keys, same list lengths, same scalars.
   */
  ghost predicate SameButImages(a: Value, b: Value)
    decreases a
  {
    match a
    case Obj(f) =>
      && b.Obj? && b.fields.Keys == f.Keys
      && forall k | k in f ::
           if k == "image" then SameButImages(f[k], b.fields[k]) || (f[k].Str? && b.fields[k].Str?)
           else SameButImages(f[k], b.fields[k])
    case List(xs) =>
      b.List? && |b.items| == |xs| && forall i | 0 <= i < |xs| :: SameButImages(xs[i], b.items[i])
    case _ => b == a
  }

  lemma {:induction false} SameButImagesRefl(a: Value)
    ensures SameButImages(a, a)
    decreases a
  {
    match a
    case Obj(f) =>
      forall k | k in f ensures SameButImages(f[k], f[k]) {
        SameButImagesRefl(f[k]);
      }
    case List(xs) =>
      forall i | 0 <= i < |xs| ensures SameButImages(xs[i], xs[i]) {
        SameButImagesRefl(xs[i]);
      }
    case _ =>
  }

  lemma ContainersSameButImages(versions: Versions, v: Value)
    requires ContainersRewrite(versions, v).Ok?
    ensures SameButImages(v, ContainersRewrite(versions, v).value)
  {
    ContainersRewriteSpec(versions, v);
    var out := ContainersRewrite(versions, v).value;
    forall i | 0 <= i < |v.items| ensures SameButImages(v.items[i], out.items[i]) {
      var e := v.items[i];
      SameButImagesRefl(e);
      if Matched(versions, e) {
        forall k | k in e.fields ensures SameButImages(e.fields[k], e.fields[k]) {
          SameButImagesRefl(e.fields[k]);
        }
      }
    }
  }

  /** A successful `findAndReplaceImage` changes nothing but strings under `image` keys. */
  lemma {:induction false} ObjectSameButImages(versions: Versions, obj: map<string, Value>)
    requires ObjectRewrite(versions, obj).Ok?
    ensures SameButImages(Obj(obj), Obj(ObjectRewrite(versions, obj).value))
    decreases Obj(obj), 2, 0
  {
    var m := ObjectRewrite(versions, obj).value;
    if HasContainerField(obj) {
      ContainerFieldsOnly(versions, obj);
      forall k | k in obj ensures SameButImages(obj[k], m[k]) {
        if k in ContainerFields {
          ContainersSameButImages(versions, obj[k]);
        } else {
          SameButImagesRefl(obj[k]);
        }
      }
    } else {
      SearchEveryValue(versions, obj);
      forall k | k in obj ensures SameButImages(obj[k], m[k]) {
        ChildSameButImages(versions, obj[k]);
      }
    }
  }

  lemma {:induction false} ChildSameButImages(versions: Versions, v: Value)
    requires ChildRewrite(versions, v).Ok?
    ensures SameButImages(v, ChildRewrite(versions, v).value)
    decreases v, 3, 0
  {
    match v
    case Obj(m) =>
      ObjectSameButImages(versions, m);
      assert ChildRewrite(versions, v) == Ok(Obj(ObjectRewrite(versions, m).value)) by {
        assert ObjectRewrite(versions, m).Ok?;
      }
    case List(items) =>
      ItemsSameButImages(versions, items, 0);
      var out := ItemsRewrite(versions, items, 0).value;
      assert ChildRewrite(versions, v) == Ok(List(out)) by {
        assert ItemsRewrite(versions, items, 0).Ok?;
      }
      assert forall i | 0 <= i < |items| :: SameButImages(items[i], out[i]) by {
        forall i | 0 <= i < |items| ensures SameButImages(items[i], out[i]) {
          assert out[i - 0] == out[i];
        }
      }
    case _ =>
  }

  lemma {:induction false} ItemsSameButImages(versions: Versions, items: seq<Value>, i: nat)
    requires i <= |items|
    requires ItemsRewrite(versions, items, i).Ok?
    ensures var out := ItemsRewrite(versions, items, i).value;
      |out| == |items| - i && forall j | i <= j < |items| :: SameButImages(items[j], out[j - i])
    decreases List(items), 2, |items| - i
  {
    if i < |items| {
      ItemsSameButImages(versions, items, i + 1);
      match items[i]
      case Obj(m) =>
        ObjectSameButImages(versions, m);
      case _ =>
        SameButImagesRefl(items[i]);
    }
  }

  // ---------------------------------------------------------------------
  // An empty table

  lemma {:induction false} EmptyTableObject(obj: map<string, Value>)
    requires ObjectRewrite(map[], obj).Ok?
    ensures ObjectRewrite(map[], obj).value == obj
    decreases Obj(obj), 2, 0
  {
    var m := ObjectRewrite(map[], obj).value;
    if HasContainerField(obj) {
      ContainerFieldsOnly(map[], obj);
      forall p | p in obj && p in ContainerFields ensures m[p] == obj[p] {
        ContainersRewriteSpec(map[], obj[p]);
        IrrelevantTable(map[], obj[p]);
      }
    } else {
      SearchEveryValue(map[], obj);
      forall k | k in obj ensures m[k] == obj[k] {
        EmptyTableChild(obj[k]);
      }
    }
  }

  lemma {:induction false} EmptyTableChild(v: Value)
    requires ChildRewrite(map[], v).Ok?
    ensures ChildRewrite(map[], v).value == v
    decreases v, 3, 0
  {
    match v
    case Obj(m) =>
      EmptyTableObject(m);
    case List(items) =>
      EmptyTableItems(items, 0);
    case _ =>
  }

  lemma {:induction false} EmptyTableItems(items: seq<Value>, i: nat)
    requires i <= |items|
    requires ItemsRewrite(map[], items, i).Ok?
    ensures ItemsRewrite(map[], items, i).value == items[i..]
    decreases List(items), 2, |items| - i
  {
    if i < |items| {
      EmptyTableItems(items, i + 1);
      match items[i]
      case Obj(m) =>
        EmptyTableObject(m);
      case _ =>
    }
  }
}
