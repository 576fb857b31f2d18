/**
 * The versioner's search for container lists and the rewrite of their
 * `image` fields (`findAndReplaceImage`, `findContainers` and
 * `updateContainers` in Versioner.go).
 *
 * The Go code changes the decoded maps in place; here every step returns the
 * rewritten value instead. The functions state what a successful search
 * produces; the methods follow the Go loops and are proved against them.
 */
module Rewriter {
  import opened Tree
  import opened ImageRef

  /** Why a rewrite stops. Only `NotAList` is an error the Go code returns; the others are panics of its unchecked type assertions. */
  datatype Failure =
    | NotAList(found: Value)
    | EntryNotMap(found: Value)
    | ImageNotString(found: Value)
    | NameNotString(found: Value)

  predicate IsPanic(f: Failure)
  {
    !f.NotAList?
  }

  /** The fields that hold container lists, in the order they are looked at. */
  const ContainerFields: seq<string> := ["containers", "initContainers"]

  // ---------------------------------------------------------------------
  // updateContainers

  /** One container entry after the rewrite, or the panic it causes. */
  function EntryRewrite(versions: Versions, e: Value): (r: Result<Value, Failure>)
    ensures r.Err? ==> IsPanic(r.error)
    ensures r.Ok? ==> e.Obj? && r.value.Obj? && r.value.fields.Keys == e.fields.Keys
    ensures r.Ok? ==> forall k | k in e.fields && k != "image" :: r.value.fields[k] == e.fields[k]
    ensures r.Ok? && r.value != e ==> "name" in e.fields && e.fields["name"].Str? && e.fields["name"].s in versions
  {
    match e
    case Obj(f) =>
      if "image" !in f then Ok(e)
      else if !f["image"].Str? then Err(ImageNotString(f["image"]))
      else if "name" !in f then Ok(e)
      else if !f["name"].Str? then Err(NameNotString(f["name"]))
      else if f["name"].s !in versions then Ok(e)
      else Ok(Obj(f["image" := Str(MutateImage(f["image"].s, versions[f["name"].s]))]))
    case _ => Err(EntryNotMap(e))
  }

  /** The entries after the rewrite, or the failure of the first entry that fails. */
  function EntriesRewrite(versions: Versions, items: seq<Value>): (r: Result<seq<Value>, Failure>)
    ensures r.Ok? ==> |r.value| == |items|
    ensures r.Err? ==> IsPanic(r.error)
  {
    if items == [] then Ok([])
    else
      match EntryRewrite(versions, items[0])
      case Err(f) => Err(f)
      case Ok(e) =>
        match EntriesRewrite(versions, items[1..])
        case Err(f) => Err(f)
        case Ok(rest) => Ok([e] + rest)
  }

  /** A `containers` value after the rewrite; anything but a list is an error. */
  function ContainersRewrite(versions: Versions, v: Value): (r: Result<Value, Failure>)
    ensures r.Err? ==> (IsPanic(r.error) <==> v.List?)
    ensures r.Ok? ==> v.List? && r.value.List? && |r.value.items| == |v.items|
  {
    if !v.List? then Err(NotAList(v))
    else
      match EntriesRewrite(versions, v.items)
      case Err(f) => Err(f)
      case Ok(items) => Ok(List(items))
  }

  // ---------------------------------------------------------------------
  // findAndReplaceImage and findContainers
  //
  // Go visits the keys of a map in no fixed order, so when several parts of
  // a mapping fail, any of their failures may be the one reported. The
  // functions below therefore fail with the set of failures that some order
  // of visiting can report.

  /** The container lists named in `paths`, rewritten one after the other. */
  function FieldsRewrite(versions: Versions, obj: map<string, Value>, paths: seq<string>): (r: Result<map<string, Value>, Failure>)
    ensures r.Ok? ==> r.value.Keys == obj.Keys
    ensures r.Ok? ==> forall k | k in obj && k !in paths :: r.value[k] == obj[k]
  {
    if paths == [] then Ok(obj)
    else
      match FieldsRewrite(versions, obj, paths[..|paths| - 1])
      case Err(f) => Err(f)
      case Ok(m) =>
        var path := paths[|paths| - 1];
        if path !in m then Ok(m)
        else
          match ContainersRewrite(versions, m[path])
          case Err(f) => Err(f)
          case Ok(c) => Ok(m[path := c])
  }

  /** Does the mapping hold a container list itself? */
  predicate HasContainerField(obj: map<string, Value>)
  {
    "containers" in obj || "initContainers" in obj
  }

  /** A mapping after `findAndReplaceImage`: its own container lists, or else everything below it. */
  function ObjectRewrite(versions: Versions, obj: map<string, Value>): (r: Result<map<string, Value>, set<Failure>>)
    ensures r.Ok? ==> r.value.Keys == obj.Keys
    ensures r.Err? ==> r.error != {}
    decreases Obj(obj), 2, 0
  {
    match FieldsRewrite(versions, obj, ContainerFields)
    case Err(f) => Err({f})
    case Ok(m) =>
      if HasContainerField(obj) then Ok(m) else SearchRewrite(versions, obj)
  }

  /** A mapping after `findContainers`: each of its values searched in turn. */
  function SearchRewrite(versions: Versions, obj: map<string, Value>): (r: Result<map<string, Value>, set<Failure>>)
    ensures r.Ok? ==> r.value.Keys == obj.Keys
    ensures r.Err? ==> r.error != {}
    decreases Obj(obj), 1, 0
  {
    if forall k | k in obj :: ChildRewrite(versions, obj[k]).Ok? then
      Ok(map k | k in obj :: ChildRewrite(versions, obj[k]).value)
    else
      assert exists k, f :: k in obj && ChildRewrite(versions, obj[k]).Err? && f in ChildRewrite(versions, obj[k]).error by {
        var k :| k in obj && !ChildRewrite(versions, obj[k]).Ok?;
        var f :| f in ChildRewrite(versions, obj[k]).error;
      }
      Err(set k, f | k in obj && ChildRewrite(versions, obj[k]).Err? && f in ChildRewrite(versions, obj[k]).error :: f)
  }

  /** One value of a searched mapping: mappings and lists are searched, scalars kept. */
  function ChildRewrite(versions: Versions, v: Value): (r: Result<Value, set<Failure>>)
    ensures r.Ok? ==>
      if v.Obj? then r.value.Obj? && r.value.fields.Keys == v.fields.Keys
      else if v.List? then r.value.List? && |r.value.items| == |v.items|
      else r.value == v
    ensures r.Err? ==> r.error != {}
    decreases v, 3, 0
  {
    match v
    case Obj(m) =>
      (match ObjectRewrite(versions, m)
       case Err(fs) => Err(fs)
       case Ok(m') => Ok(Obj(m')))
    case List(items) =>
      (match ItemsRewrite(versions, items, 0)
       case Err(fs) => Err(fs)
       case Ok(items') => Ok(List(items')))
    case _ => Ok(v)
  }

  /** The items of a searched list from position `i` on: mappings are searched in order, anything else kept. */
  function ItemsRewrite(versions: Versions, items: seq<Value>, i: nat): (r: Result<seq<Value>, set<Failure>>)
    requires i <= |items|
    ensures r.Ok? ==> |r.value| == |items| - i
    ensures r.Err? ==> r.error != {}
    decreases List(items), 2, |items| - i
  {
    if i == |items| then Ok([])
    else
      var head :=
        match items[i]
        case Obj(m) =>
          (match ObjectRewrite(versions, m)
           case Err(fs) => Err(fs)
           case Ok(m') => Ok(Obj(m')))
        case _ => Ok(items[i]);
      match head
      case Err(fs) => Err(fs)
      case Ok(x) =>
        match ItemsRewrite(versions, items, i + 1)
        case Err(fs) => Err(fs)
        case Ok(rest) => Ok([x] + rest)
  }

  // ---------------------------------------------------------------------
  // The Go loops

  /** A method's single outcome is one the function allows: the same tree, or one of the possible failures. */
  predicate Agrees<T(==)>(r: Result<T, Failure>, spec: Result<T, set<Failure>>)
  {
    match r
    case Ok(v) => spec == Ok(v)
    case Err(f) => spec.Err? && f in spec.error
  }

  /** `done` followed by whatever `rest` produces. */
  function Prefixed<T, E>(done: seq<T>, rest: Result<seq<T>, E>): Result<seq<T>, E>
  {
    match rest
    case Ok(xs) => Ok(done + xs)
    case Err(e) => Err(e)
  }

  lemma PrefixedNothing<T, E>(r: Result<seq<T>, E>)
    ensures Prefixed([], r) == r
  {
    if r.Ok? {
      assert [] + r.value == r.value;
    }
  }

  lemma PrefixedStep<T, E>(done: seq<T>, x: T, r: Result<seq<T>, E>)
    ensures Prefixed(done, Prefixed([x], r)) == Prefixed(done + [x], r)
  {
    if r.Ok? {
      assert done + ([x] + r.value) == done + [x] + r.value;
    }
  }

  /** The loop of `updateContainers` takes one more entry that its rewrite accepts. */
  lemma EntriesRewriteNext(versions: Versions, items: seq<Value>, c: nat, out: seq<Value>, e: Value)
    requires c < |items| && EntryRewrite(versions, items[c]) == Ok(e)
    requires EntriesRewrite(versions, items) == Prefixed(out, EntriesRewrite(versions, items[c..]))
    ensures EntriesRewrite(versions, items) == Prefixed(out + [e], EntriesRewrite(versions, items[c + 1..]))
  {
    assert items[c..][0] == items[c] && items[c..][1..] == items[c + 1..];
    assert EntriesRewrite(versions, items[c..]) == Prefixed([e], EntriesRewrite(versions, items[c + 1..]));
    PrefixedStep(out, e, EntriesRewrite(versions, items[c + 1..]));
  }

  /** The loop of `updateContainers` stops at an entry its rewrite rejects. */
  lemma EntriesRewriteStop(versions: Versions, items: seq<Value>, c: nat, out: seq<Value>, f: Failure)
    requires c < |items| && EntryRewrite(versions, items[c]) == Err(f)
    requires EntriesRewrite(versions, items) == Prefixed(out, EntriesRewrite(versions, items[c..]))
    ensures EntriesRewrite(versions, items) == Err(f)
  {
    assert items[c..][0] == items[c];
  }

  /** `updateContainers`: rewrites the image of every entry whose name has an override. */
  method UpdateContainers(versions: Versions, v: Value) returns (r: Result<Value, Failure>)
    ensures r == ContainersRewrite(versions, v)
  {
    if !v.List? {
      return Err(NotAList(v));
    }
    var containers := v.items;
    var out: seq<Value> := [];
    var c := 0;
    assert containers[c..] == containers;
    PrefixedNothing(EntriesRewrite(versions, containers));
    while c < |containers|
      invariant 0 <= c <= |containers|
      invariant EntriesRewrite(versions, containers) == Prefixed(out, EntriesRewrite(versions, containers[c..]))
    {
      var entry := containers[c];
      if !entry.Obj? {
        EntriesRewriteStop(versions, containers, c, out, EntryNotMap(entry));
        return Err(EntryNotMap(entry));
      }
      var container := entry.fields;
      var next := entry;
      if "image" in container {
        if !container["image"].Str? {
          EntriesRewriteStop(versions, containers, c, out, ImageNotString(container["image"]));
          return Err(ImageNotString(container["image"]));
        }
        var imageName := container["image"].s;
        if "name" in container {
          if !container["name"].Str? {
            EntriesRewriteStop(versions, containers, c, out, NameNotString(container["name"]));
            return Err(NameNotString(container["name"]));
          }
          var name := container["name"].s;
          if name in versions {
            var newImage := MutateImage(imageName, versions[name]);
            next := Obj(container["image" := Str(newImage)]);
          }
        }
      }
      assert EntryRewrite(versions, entry) == Ok(next);
      EntriesRewriteNext(versions, containers, c, out, next);
      out := out + [next];
      c := c + 1;
    }
    assert containers[c..] == [] && out + [] == out;
    return Ok(List(out));
  }

  /** `findAndReplaceImage`: rewrites the mapping's own container lists, or searches below it when it has none. */
  method FindAndReplaceImage(versions: Versions, obj: map<string, Value>) returns (r: Result<map<string, Value>, Failure>)
    ensures Agrees(r, ObjectRewrite(versions, obj))
    decreases Obj(obj), 2, 0
  {
    var paths := ContainerFields;
    var updated := false;
    var cur := obj;
    for n := 0 to |paths|
      invariant FieldsRewrite(versions, obj, paths[..n]) == Ok(cur)
      invariant updated <==> exists j :: 0 <= j < n && paths[j] in obj
    {
      assert paths[..n + 1][..n] == paths[..n];
      assert paths[..2][..1] == paths[..1] && paths[..2] == paths;
      var path := paths[n];
      if path !in cur {
        continue;
      }
      var containers := UpdateContainers(versions, cur[path]);
      if containers.Err? {
        assert FieldsRewrite(versions, obj, paths[..n + 1]) == Err(containers.error);
        assert FieldsRewrite(versions, obj, ContainerFields) == Err(containers.error);
        return Err(containers.error);
      }
      cur := cur[path := containers.value];
      updated := true;
    }
    assert paths[..|paths|] == ContainerFields;
    if !updated {
      r := FindContainers(versions, obj);
      return;
    }
    return Ok(cur);
  }

  /** `findContainers`: searches every mapping below `obj`, and every mapping inside a list below it. */
  method FindContainers(versions: Versions, obj: map<string, Value>) returns (r: Result<map<string, Value>, Failure>)
    ensures Agrees(r, SearchRewrite(versions, obj))
    decreases Obj(obj), 1, 0
  {
    var todo := obj.Keys;
    var done: map<string, Value> := map[];
    while todo != {}
      invariant todo <= obj.Keys
      invariant done.Keys == obj.Keys - todo
      invariant forall k | k in done :: ChildRewrite(versions, obj[k]) == Ok(done[k])
      decreases todo
    {
      var key :| key in todo;
      todo := todo - {key};
      match obj[key]
      case Obj(m) =>
        var res := FindAndReplaceImage(versions, m);
        if res.Err? {
          assert ChildRewrite(versions, obj[key]).Err? && res.error in ChildRewrite(versions, obj[key]).error;
          SearchReports(versions, obj, key, res.error);
          return Err(res.error);
        }
        done := done[key := Obj(res.value)];
      case List(items) =>
        var res := FindInList(versions, items);
        if res.Err? {
          assert ChildRewrite(versions, obj[key]).Err? && res.error in ChildRewrite(versions, obj[key]).error;
          SearchReports(versions, obj, key, res.error);
          return Err(res.error);
        }
        done := done[key := List(res.value)];
      case _ =>
        done := done[key := obj[key]];
    }
    SearchCollects(versions, obj, done);
    return Ok(done);
  }

  /** A failure of one value is a failure the search of the mapping may report. */
  lemma SearchReports(versions: Versions, obj: map<string, Value>, k: string, f: Failure)
    requires k in obj && ChildRewrite(versions, obj[k]).Err? && f in ChildRewrite(versions, obj[k]).error
    ensures SearchRewrite(versions, obj).Err? && f in SearchRewrite(versions, obj).error
  {
    assert !ChildRewrite(versions, obj[k]).Ok?;
  }

  /** Values searched one by one, all successfully, make up the searched mapping. */
  lemma SearchCollects(versions: Versions, obj: map<string, Value>, done: map<string, Value>)
    requires done.Keys == obj.Keys
    requires forall k | k in done :: ChildRewrite(versions, obj[k]) == Ok(done[k])
    ensures SearchRewrite(versions, obj) == Ok(done)
  {
    assert forall k | k in obj :: ChildRewrite(versions, obj[k]).Ok?;
    assert done == map k | k in obj :: ChildRewrite(versions, obj[k]).value;
  }

  /** The list case of `findContainers`: each mapping item is searched in order; other items are passed over. */
  method FindInList(versions: Versions, items: seq<Value>) returns (r: Result<seq<Value>, Failure>)
    ensures Agrees(r, ItemsRewrite(versions, items, 0))
    decreases List(items), 3, 0
  {
    var out: seq<Value> := [];
    PrefixedNothing(ItemsRewrite(versions, items, 0));
    for i := 0 to |items|
      invariant ItemsRewrite(versions, items, 0) == Prefixed(out, ItemsRewrite(versions, items, i))
    {
      var item := items[i];
      if item.Obj? {
        var res := FindAndReplaceImage(versions, item.fields);
        if res.Err? {
          return Err(res.error);
        }
        item := Obj(res.value);
      }
      PrefixedStep(out, item, ItemsRewrite(versions, items, i + 1));
      out := out + [item];
    }
    assert out + [] == out;
    return Ok(out);
  }
}
