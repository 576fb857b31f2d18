/**
 * The transformer's entry point (`Transform` in Versioner.go): every
 * resource of the build is rewritten in turn, and the first failure stops
 * the build, except that an error (not a panic) from a
 * `CustomResourceDefinition` is ignored.
 */
module Transform {
  import opened Tree
  import opened ImageRef
  import opened Rewriter

  /** A resource of the build: its kind and its decoded document. */
  datatype Resource = Resource(kind: string, tree: map<string, Value>)

  /** The one kind whose errors the build ignores. */
  const CrdKind: string := "CustomResourceDefinition"

  /**
   * `after` is what the pass leaves of `before`: the rewritten document, or,
   * for a custom resource definition whose rewrite returned an error, the
   * document as it was.
   */
  predicate Passed(versions: Versions, before: Resource, after: Resource)
  {
    && after.kind == before.kind
    && match ObjectRewrite(versions, before.tree)
       case Ok(m) => after.tree == m
       case Err(fs) =>
         && before.kind == CrdKind
         && after.tree == before.tree
         && exists f :: f in fs && !IsPanic(f)
  }

  /** Does the pass get through `res`: its rewrite succeeds, or may end in an error that is ignored? */
  predicate Passable(versions: Versions, res: Resource)
  {
    var r := ObjectRewrite(versions, res.tree);
    r.Ok? || (res.kind == CrdKind && exists f :: f in r.error && !IsPanic(f))
  }

  /** Can the pass stop at `res` with `f`: a possible failure that is a panic, or an error of another kind of resource? */
  predicate StopsAt(versions: Versions, res: Resource, f: Failure)
  {
    var r := ObjectRewrite(versions, res.tree);
    r.Err? && f in r.error && (IsPanic(f) || res.kind != CrdKind)
  }

  /** `Transform`: rewrites each resource in order and returns the first failure that is not ignored. */
  method Transform(versions: Versions, resources: seq<Resource>) returns (r: Result<seq<Resource>, Failure>)
    ensures r.Ok? ==>
      && |r.value| == |resources|
      && forall i | 0 <= i < |resources| :: Passed(versions, resources[i], r.value[i])
    ensures r.Err? ==>
      exists i :: 0 <= i < |resources| && StopsAt(versions, resources[i], r.error) &&
        forall j | 0 <= j < i :: Passable(versions, resources[j])
    ensures (forall i | 0 <= i < |resources| :: ObjectRewrite(versions, resources[i].tree).Ok?) ==> r.Ok?
    ensures (exists i :: 0 <= i < |resources| && resources[i].kind != CrdKind &&
               ObjectRewrite(versions, resources[i].tree).Err?) ==> r.Err?
  {
    var out: seq<Resource> := [];
    for n := 0 to |resources|
      invariant |out| == n
      invariant forall i | 0 <= i < n :: Passed(versions, resources[i], out[i])
    {
      var res := resources[n];
      var tree := FindAndReplaceImage(versions, res.tree);
      var next := res;
      if tree.Ok? {
        next := Resource(res.kind, tree.value);
      } else if IsPanic(tree.error) || res.kind != CrdKind {
        forall j | 0 <= j < n ensures Passable(versions, resources[j]) {
          assert Passed(versions, resources[j], out[j]);
        }
        assert StopsAt(versions, resources[n], tree.error);
        return Err(tree.error);
      }
      assert Passed(versions, res, next);
      out := out + [next];
    }
    return Ok(out);
  }
}
