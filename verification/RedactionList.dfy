/** The list of redacted attributes: one entry for each attribute that was removed. */
module RedactionList {
  import opened Base
  import opened JsValues
  import opened References
  import opened ContextFilter

  /** The clone of `id`, an object at depth `n` of `path` nested in `branch`, gets as far as the
      attribute at the end of `path`: no attribute before it is redacted or leads back. */
  ghost predicate Reached(h: Heap, refs: seq<AttributeReference>, id: ObjectId, n: nat, branch: set<ObjectId>, path: seq<string>)
    requires WellFormed(h) && id in h
    decreases |path| - n
  {
    && n < |path| && path[n] in h[id].props
    && (n + 1 == |path| ||
        var v := h[id].props[path[n]];
        && FirstMatch(refs, path[..n + 1]).None?
        && v.Ref? && v.id !in branch
        && Reached(h, refs, v.id, n + 1, branch + {v.id}, path))
  }

  predicate NamedBy(refs: seq<AttributeReference>, path: seq<string>, name: string) {
    FirstMatch(refs, path).Some? && FirstMatch(refs, path).value.redactionName == name
  }

  /** The paths the walk redacts under `name`, below the value at `ptr`. */
  ghost function Hits(h: Heap, refs: seq<AttributeReference>, v: Value, ptr: seq<string>, branch: set<ObjectId>, name: string): set<seq<string>>
    requires WellFormed(h) && (v.Ref? ==> v.id in h)
    decreases h.Keys - branch, 0
  {
    match FirstMatch(refs, ptr)
    case Some(ref) => if ref.redactionName == name then {ptr} else {}
    case None =>
      if v.Ref? && v.id !in branch then HitsBelow(h, refs, v.id, h[v.id].keys, ptr, branch + {v.id}, name) else {}
  }

  ghost function HitsBelow(h: Heap, refs: seq<AttributeReference>, id: ObjectId, keys: seq<string>,
                           ptr: seq<string>, branch: set<ObjectId>, name: string): set<seq<string>>
    requires WellFormed(h) && id in h && forall k <- keys :: k in h[id].props
    decreases h.Keys - branch, 1 + |keys|
  {
    if |keys| == 0 then {}
    else Hits(h, refs, h[id].props[keys[0]], ptr + [keys[0]], branch, name)
         + HitsBelow(h, refs, id, keys[1..], ptr, branch, name)
  }

  predicate Below(ptr: seq<string>, path: seq<string>, keys: seq<string>) {
    |ptr| < |path| && ptr <= path && path[|ptr|] in keys
  }

  lemma {:induction false} HitsCount(h: Heap, refs: seq<AttributeReference>, v: Value, ptr: seq<string>, branch: set<ObjectId>, name: string)
    requires WellFormed(h) && (v.Ref? ==> v.id in h)
    ensures Walk(h, refs, v, ptr, branch).excluded[name] == |Hits(h, refs, v, ptr, branch, name)|
    ensures forall p <- Hits(h, refs, v, ptr, branch, name) :: ptr <= p
    decreases h.Keys - branch, 0
  {
    if FirstMatch(refs, ptr).None? && v.Ref? && v.id !in branch {
      HitsBelowCount(h, refs, v.id, h[v.id].keys, ptr, branch + {v.id}, name);
    }
  }

  lemma {:induction false} HitsBelowCount(h: Heap, refs: seq<AttributeReference>, id: ObjectId, keys: seq<string>,
                                          ptr: seq<string>, branch: set<ObjectId>, name: string)
    requires WellFormed(h) && id in h && (forall k <- keys :: k in h[id].props) && Distinct(keys)
    ensures WalkFields(h, refs, id, keys, ptr, branch).excluded[name] == |HitsBelow(h, refs, id, keys, ptr, branch, name)|
    ensures forall p <- HitsBelow(h, refs, id, keys, ptr, branch, name) :: Below(ptr, p, keys)
    decreases h.Keys - branch, 1 + |keys|
  {
    if |keys| > 0 {
      var k := keys[0];
      HitsCount(h, refs, h[id].props[k], ptr + [k], branch, name);
      HitsBelowCount(h, refs, id, keys[1..], ptr, branch, name);
      var first := Hits(h, refs, h[id].props[k], ptr + [k], branch, name);
      var rest := HitsBelow(h, refs, id, keys[1..], ptr, branch, name);
      forall p | p in first
        ensures Below(ptr, p, keys) && p[|ptr|] == k
      {
        assert (ptr + [k])[|ptr|] == k;
      }
      assert forall p <- rest :: p[|ptr|] in keys[1..];
      assert first !! rest;
    }
  }

  lemma {:induction false} HitsIff(h: Heap, refs: seq<AttributeReference>, v: Value, ptr: seq<string>, branch: set<ObjectId>,
                                   name: string, path: seq<string>)
    requires WellFormed(h) && (v.Ref? ==> v.id in h)
    requires ptr <= path
    ensures path in Hits(h, refs, v, ptr, branch, name) <==>
            NamedBy(refs, path, name) &&
            (path == ptr || (FirstMatch(refs, ptr).None? && v.Ref? && v.id !in branch
                             && Reached(h, refs, v.id, |ptr|, branch + {v.id}, path)))
    decreases h.Keys - branch, 0
  {
    if FirstMatch(refs, ptr).None? && v.Ref? && v.id !in branch {
      HitsBelowIff(h, refs, v.id, h[v.id].keys, ptr, branch + {v.id}, name, path);
      HitsBelowCount(h, refs, v.id, h[v.id].keys, ptr, branch + {v.id}, name);
    }
  }

  lemma {:induction false} HitsBelowIff(h: Heap, refs: seq<AttributeReference>, id: ObjectId, keys: seq<string>,
                                        ptr: seq<string>, branch: set<ObjectId>, name: string, path: seq<string>)
    requires WellFormed(h) && id in h && (forall k <- keys :: k in h[id].props) && Distinct(keys)
    requires ptr <= path
    ensures path in HitsBelow(h, refs, id, keys, ptr, branch, name) <==>
            Below(ptr, path, keys) && NamedBy(refs, path, name) && Reached(h, refs, id, |ptr|, branch, path)
    decreases h.Keys - branch, 1 + |keys|
  {
    if |keys| > 0 {
      var k := keys[0];
      var v := h[id].props[k];
      HitsBelowIff(h, refs, id, keys[1..], ptr, branch, name, path);
      HitsCount(h, refs, v, ptr + [k], branch, name);
      assert (ptr + [k])[|ptr|] == k;
      if Below(ptr, path, keys) && path[|ptr|] == k {
        assert path[..|ptr| + 1] == ptr + [k];
        assert k !in keys[1..];
        HitsIff(h, refs, v, ptr + [k], branch, name, path);
        assert |path| == |ptr| + 1 ==> path == ptr + [k];
      }
    }
  }

  /** The paths that are removed under `name` from the clone of `target`. */
  ghost function Removed(h: Heap, refs: seq<AttributeReference>, target: ObjectId, name: string): set<seq<string>>
    requires WellFormed(h) && target in h
  {
    HitsBelow(h, refs, target, h[target].keys, [], {target}, name)
  }

  /** Each name is listed as often as there are attributes it removes: a path is among them
      exactly when the clone reaches it and its first matching reference has that name. */
  lemma EachRemovalIsListed(h: Heap, refs: seq<AttributeReference>, target: ObjectId, name: string)
    requires WellFormed(h) && target in h
    ensures WalkContext(h, refs, target).excluded[name] == |Removed(h, refs, target, name)|
    ensures forall path :: path in Removed(h, refs, target, name) <==>
              Reached(h, refs, target, 0, {target}, path) && NamedBy(refs, path, name)
  {
    HitsBelowCount(h, refs, target, h[target].keys, [], {target}, name);
    forall path
      ensures path in Removed(h, refs, target, name) <==>
              Reached(h, refs, target, 0, {target}, path) && NamedBy(refs, path, name)
    {
      HitsBelowIff(h, refs, target, h[target].keys, [], {target}, name, path);
    }
  }
}
