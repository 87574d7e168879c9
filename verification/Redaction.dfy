/** What redaction means for the reader of a filtered context: agreement between
    `cloneWithRedactions` and `AttributeReference.get`. */
module Redaction {
  import opened Base
  import opened JsValues
  import opened References
  import opened ContextFilter

  /** `AttributeReference.get`; `Undefined` stands for every way of not finding a value. */
  method Get(h: Heap, reference: AttributeReference, target: Value) returns (found: Value)
    requires WellFormed(h) && (target.Ref? ==> target.id in h)
    ensures found == if !reference.isValid then Undefined else
                       match HeapGet(h, target, reference.components)
                       case None => Undefined
                       case Some(v) => v
  {
    if !reference.isValid {
      return Undefined;
    }
    var current := target;
    var index := 0;
    while index < |reference.components|
      invariant 0 <= index <= |reference.components| && (current.Ref? ==> current.id in h)
      invariant HeapGet(h, target, reference.components) == HeapGet(h, current, reference.components[index..])
    {
      var component := reference.components[index];
      assert reference.components[index..][1..] == reference.components[index + 1..];
      if current.Ref? && component in h[current.id].props {
        current := h[current.id].props[component];
      } else {
        return Undefined;
      }
      index := index + 1;
    }
    return current;
  }

  // ----- Redacted paths are gone -----

  /** Some attribute on `path` below `ptr` is redacted. */
  predicate Redacts(refs: seq<AttributeReference>, ptr: seq<string>, path: seq<string>)
    decreases |path|
  {
    |path| > 0 && (FirstMatch(refs, ptr + [path[0]]).Some? || Redacts(refs, ptr + [path[0]], path[1..]))
  }

  predicate Between(ptr: seq<string>, components: seq<string>, path: seq<string>) {
    |ptr| < |components| && components <= ptr + path
  }

  lemma {:induction false} RedactsIff(refs: seq<AttributeReference>, ptr: seq<string>, path: seq<string>)
    ensures Redacts(refs, ptr, path) <==> exists r <- refs :: Between(ptr, r.components, path)
    decreases |path|
  {
    if |path| > 0 {
      var ptr' := ptr + [path[0]];
      RedactsIff(refs, ptr', path[1..]);
      assert ptr' + path[1..] == ptr + path;
      forall r | r in refs
        ensures Between(ptr, r.components, path) <==> r.components == ptr' || Between(ptr', r.components, path[1..])
      {
        if Between(ptr, r.components, path) && |r.components| == |ptr'| {
          assert r.components == (ptr + path)[..|ptr'|] == ptr';
        }
        if r.components == ptr' {
          assert ptr' == (ptr + path)[..|ptr'|];
        }
      }
    }
  }

  /** Nothing is found in the clone below a redacted attribute, on any heap. */
  lemma {:induction false} RedactedIsGone(h: Heap, refs: seq<AttributeReference>, id: ObjectId, ptr: seq<string>,
                                          branch: set<ObjectId>, path: seq<string>)
    requires WellFormed(h) && id in h && Redacts(refs, ptr, path)
    ensures TreeGet(Node(WalkFields(h, refs, id, h[id].keys, ptr, branch).fields), path) == None
    decreases |path|
  {
    var k := path[0];
    var fields := WalkFields(h, refs, id, h[id].keys, ptr, branch).fields;
    WalkFieldsContent(h, refs, id, h[id].keys, ptr, branch);
    if k in fields {
      var v := h[id].props[k];
      if v.Ref? {
        RedactedIsGone(h, refs, v.id, ptr + [k], branch + {v.id}, path[1..]);
      }
    }
  }

  /** Looking up a reference in the clone finds nothing when the reference, or one it
      extends, is private. */
  lemma PrivateReferenceIsUndefined(h: Heap, refs: seq<AttributeReference>, target: ObjectId,
                                    asked: AttributeReference, r: AttributeReference)
    requires WellFormed(h) && target in h
    requires r in refs && |r.components| > 0 && r.components <= asked.components
    ensures TreeGet(Node(WalkContext(h, refs, target).fields), asked.components) == None
  {
    var path := asked.components;
    assert [] + path == path;
    assert Between([], r.components, path);
    RedactsIff(refs, [], path);
    RedactedIsGone(h, refs, target, [], {target}, path);
  }

  // ----- Other paths are kept, unless they run into a cycle -----

  /** The copy of an object nested in the objects of `branch`, itself among them. */
  ghost function Copy(h: Heap, refs: seq<AttributeReference>, id: ObjectId, ptr: seq<string>, branch: set<ObjectId>): Tree
    requires WellFormed(h) && id in h
  {
    Node(WalkFields(h, refs, id, h[id].keys, ptr, branch).fields)
  }

  /** The path enters an object it is already inside of. */
  predicate Repeats(h: Heap, id: ObjectId, branch: set<ObjectId>, path: seq<string>)
    decreases |path|
  {
    && |path| > 0 && id in h && path[0] in h[id].props && h[id].props[path[0]].Ref?
    && var next := h[id].props[path[0]].id;
      next in branch || Repeats(h, next, branch + {next}, path[1..])
  }

  /** One attribute of a walked object: left out, or what the walk of its value says. */
  lemma FieldOf(h: Heap, refs: seq<AttributeReference>, id: ObjectId, ptr: seq<string>, branch: set<ObjectId>, k: string)
    requires WellFormed(h) && id in h
    ensures var fields := Copy(h, refs, id, ptr, branch).fields;
      if k !in h[id].props || FirstMatch(refs, ptr + [k]).Some? then k !in fields
      else
        var v := h[id].props[k];
        if !v.Ref? then k in fields && fields[k] == Leaf(v)
        else if v.id in branch then k !in fields
        else k in fields && fields[k] == Copy(h, refs, v.id, ptr + [k], branch + {v.id})
  {
    WalkFieldsContent(h, refs, id, h[id].keys, ptr, branch);
  }

  /** Both lookups take one component at a time. */
  lemma LookupStep(h: Heap, id: ObjectId, fields: map<string, Tree>, path: seq<string>)
    requires WellFormed(h) && id in h && |path| > 0
    ensures HeapGet(h, Ref(id), path) == if path[0] in h[id].props then HeapGet(h, h[id].props[path[0]], path[1..]) else None
    ensures TreeGet(Node(fields), path) == if path[0] in fields then TreeGet(fields[path[0]], path[1..]) else None
  {
  }

  lemma LeafGet(h: Heap, v: Value, path: seq<string>)
    requires !v.Ref?
    ensures HeapGet(h, v, path) == (if path == [] then Some(v) else None)
    ensures TreeGet(Leaf(v), path) == (if path == [] then Some(Leaf(v)) else None)
  {
  }

  /** The clone has what is found at a path exactly when the path is not redacted and never
      enters an object it is inside of; and it has nothing else. */
  lemma {:induction false} KeptIff(h: Heap, refs: seq<AttributeReference>, id: ObjectId, ptr: seq<string>, branch: set<ObjectId>,
                                   path: seq<string>)
    requires WellFormed(h) && id in h
    ensures TreeGet(Copy(h, refs, id, ptr, branch), path).Some? <==>
              HeapGet(h, Ref(id), path).Some? && !Redacts(refs, ptr, path) && !Repeats(h, id, branch, path)
    decreases |path|
  {
    if |path| > 0 {
      var k := path[0];
      FieldOf(h, refs, id, ptr, branch, k);
      LookupStep(h, id, Copy(h, refs, id, ptr, branch).fields, path);
      if k in h[id].props {
        var v := h[id].props[k];
        if v.Ref? {
          KeptIff(h, refs, v.id, ptr + [k], branch + {v.id}, path[1..]);
        } else {
          LeafGet(h, v, path[1..]);
          assert path[1..] == [] ==> !Redacts(refs, ptr + [k], path[1..]);
        }
      }
    }
  }

  predicate Extends(refs: seq<AttributeReference>, ptr: seq<string>) {
    exists r <- refs :: ptr <= r.components
  }

  lemma ExtendsShorter(refs: seq<AttributeReference>, ptr: seq<string>, k: string)
    requires !Extends(refs, ptr)
    ensures !Extends(refs, ptr + [k]) && FirstMatch(refs, ptr + [k]).None?
  {
    assert forall r <- refs :: ptr + [k] <= r.components ==> ptr <= r.components;
  }

  ghost predicate NeverRepeats(h: Heap, id: ObjectId, branch: set<ObjectId>, path: seq<string>) {
    forall q :: !Repeats(h, id, branch, path + q)
  }

  lemma NeverRepeatsBelow(h: Heap, id: ObjectId, branch: set<ObjectId>, path: seq<string>)
    requires |path| > 0 && id in h && path[0] in h[id].props && h[id].props[path[0]].Ref?
    ensures var next := h[id].props[path[0]].id;
      NeverRepeats(h, id, branch, path) <==> next !in branch && NeverRepeats(h, next, branch + {next}, path[1..])
  {
    var next := h[id].props[path[0]].id;
    forall q ensures Repeats(h, id, branch, path + q) <==> next in branch || Repeats(h, next, branch + {next}, path[1..] + q) {
      assert (path + q)[0] == path[0] && (path + q)[1..] == path[1..] + q;
    }
    if next !in branch && !NeverRepeats(h, next, branch + {next}, path[1..]) {
      var q :| Repeats(h, next, branch + {next}, path[1..] + q);
      assert Repeats(h, id, branch, path + q);
    }
    if next in branch { assert Repeats(h, id, branch, path + []); }
  }

  /** Where no reference reaches and nothing repeats, the copy is structurally equal to the
      original. */
  lemma {:induction false} CopyUnfolds(h: Heap, refs: seq<AttributeReference>, id: ObjectId, ptr: seq<string>, branch: set<ObjectId>)
    requires WellFormed(h) && id in h && id in branch
    requires !Extends(refs, ptr) && NeverRepeats(h, id, branch, [])
    ensures Unfolds(h, Ref(id), Copy(h, refs, id, ptr, branch))
    decreases h.Keys - branch
  {
    var fields := Copy(h, refs, id, ptr, branch).fields;
    forall k ensures k in h[id].props <==> k in fields
      ensures k in h[id].props ==> Unfolds(h, h[id].props[k], fields[k])
    {
      FieldOf(h, refs, id, ptr, branch, k);
      ExtendsShorter(refs, ptr, k);
      if k in h[id].props && h[id].props[k].Ref? {
        var next := h[id].props[k].id;
        StartsNowhere(h, id, branch, k);
        NeverRepeatsBelow(h, id, branch, [k]);
        assert [k][1..] == [];
        CopyUnfolds(h, refs, next, ptr + [k], branch + {next});
      }
    }
  }

  lemma StartsNowhere(h: Heap, id: ObjectId, branch: set<ObjectId>, k: string)
    requires NeverRepeats(h, id, branch, [])
    ensures NeverRepeats(h, id, branch, [k])
  {
    forall q ensures !Repeats(h, id, branch, [k] + q) {
      assert [] + ([k] + q) == [k] + q;
    }
  }

  lemma {:induction false} UnfoldsGet(h: Heap, v: Value, t: Tree, path: seq<string>)
    requires Unfolds(h, v, t) && HeapGet(h, v, path).Some?
    ensures TreeGet(t, path).Some?
    decreases |path|
  {
    if |path| > 0 {
      UnfoldsGet(h, h[v.id].props[path[0]], t.fields[path[0]], path[1..]);
    }
  }

  /** A path that repeats has a beginning that leads to the repeated object. */
  lemma {:induction false} RepeatIsFound(h: Heap, id: ObjectId, branch: set<ObjectId>, path: seq<string>) returns (start: seq<string>)
    requires WellFormed(h) && id in h && Repeats(h, id, branch, path)
    ensures HeapGet(h, Ref(id), start).Some? && Repeats(h, id, branch, start)
    decreases |path|
  {
    var k := path[0];
    var next := h[id].props[k].id;
    if next in branch {
      start := [k];
      assert HeapGet(h, Ref(id), [k]) == HeapGet(h, h[id].props[k], [k][1..]);
    } else {
      var rest := RepeatIsFound(h, next, branch + {next}, path[1..]);
      start := [k] + rest;
      assert start[1..] == rest;
      assert HeapGet(h, Ref(id), start) == HeapGet(h, h[id].props[k], rest);
    }
  }

  /** The copy of an object that no reference reaches into is structurally equal to it exactly when
      no path from it repeats. */
  lemma UnfoldsIff(h: Heap, refs: seq<AttributeReference>, id: ObjectId, ptr: seq<string>, branch: set<ObjectId>)
    requires WellFormed(h) && id in h && id in branch && !Extends(refs, ptr)
    ensures Unfolds(h, Ref(id), Copy(h, refs, id, ptr, branch)) <==> NeverRepeats(h, id, branch, [])
  {
    if NeverRepeats(h, id, branch, []) {
      CopyUnfolds(h, refs, id, ptr, branch);
    } else {
      var q :| Repeats(h, id, branch, [] + q);
      var start := RepeatIsFound(h, id, branch, [] + q);
      KeptIff(h, refs, id, ptr, branch, start);
      if Unfolds(h, Ref(id), Copy(h, refs, id, ptr, branch)) {
        UnfoldsGet(h, Ref(id), Copy(h, refs, id, ptr, branch), start);
      }
    }
  }

  /** The two lookups agree: both find nothing, or the clone holds a structural copy. */
  ghost predicate Agree(h: Heap, v: Option<Value>, t: Option<Tree>) {
    match v
    case None => t.None?
    case Some(w) => t.Some? && Unfolds(h, w, t.value)
  }

  /** On a path that is not redacted and that no reference extends, the lookups agree exactly
      when nothing is found or no path through what is found repeats. */
  lemma {:induction false} AgreeIff(h: Heap, refs: seq<AttributeReference>, id: ObjectId, ptr: seq<string>, branch: set<ObjectId>,
                                    path: seq<string>)
    requires WellFormed(h) && id in h && |path| > 0
    requires !Redacts(refs, ptr, path) && !Extends(refs, ptr + path)
    ensures Agree(h, HeapGet(h, Ref(id), path), TreeGet(Copy(h, refs, id, ptr, branch), path)) <==>
              (HeapGet(h, Ref(id), path).Some? ==> NeverRepeats(h, id, branch, path))
    decreases |path|
  {
    var k := path[0];
    FieldOf(h, refs, id, ptr, branch, k);
    LookupStep(h, id, Copy(h, refs, id, ptr, branch).fields, path);
    if k in h[id].props {
      var v := h[id].props[k];
      if !v.Ref? {
        LeafGet(h, v, path[1..]);
        assert forall q :: !Repeats(h, id, branch, path + q) by { LeafNeverRepeats(h, id, branch, path); }
      } else {
        NeverRepeatsBelow(h, id, branch, path);
        if v.id !in branch {
          AgreeBelow(h, refs, v.id, ptr, k, branch + {v.id}, path);
        }
      }
    }
  }

  lemma LeafNeverRepeats(h: Heap, id: ObjectId, branch: set<ObjectId>, path: seq<string>)
    requires |path| > 0 && id in h && path[0] in h[id].props && !h[id].props[path[0]].Ref?
    ensures NeverRepeats(h, id, branch, path)
  {
    forall q ensures !Repeats(h, id, branch, path + q) {
      assert (path + q)[0] == path[0];
    }
  }

  lemma AgreeBelow(h: Heap, refs: seq<AttributeReference>, next: ObjectId, ptr: seq<string>, k: string, branch: set<ObjectId>,
                   path: seq<string>)
    requires WellFormed(h) && next in h && next in branch && |path| > 0 && path[0] == k
    requires !Redacts(refs, ptr, path) && !Extends(refs, ptr + path)
    ensures Agree(h, HeapGet(h, Ref(next), path[1..]), TreeGet(Copy(h, refs, next, ptr + [k], branch), path[1..])) <==>
              (HeapGet(h, Ref(next), path[1..]).Some? ==> NeverRepeats(h, next, branch, path[1..]))
    decreases |path|, 0
  {
    assert (ptr + [k]) + path[1..] == ptr + path;
    if |path| == 1 {
      assert path == [k] && path[1..] == [];
      UnfoldsIff(h, refs, next, ptr + [k], branch);
    } else {
      AgreeIff(h, refs, next, ptr + [k], branch, path[1..]);
    }
  }

  /** A reference that no private reference is a prefix or an extension of finds the same in the
      clone as in the original exactly when it finds nothing, or no path through what it finds
      enters an object it is inside of. Cycles elsewhere do not matter. */
  lemma OtherReferencesAgree(h: Heap, refs: seq<AttributeReference>, target: ObjectId, asked: AttributeReference)
    requires WellFormed(h) && target in h && |asked.components| > 0
    requires forall r <- refs :: |r.components| > 0 ==>
               !(r.components <= asked.components) && !(asked.components <= r.components)
    ensures Agree(h, HeapGet(h, Ref(target), asked.components),
                  TreeGet(Node(WalkContext(h, refs, target).fields), asked.components)) <==>
              (HeapGet(h, Ref(target), asked.components).Some? ==> NeverRepeats(h, target, {target}, asked.components))
  {
    var path := asked.components;
    assert [] + path == path;
    RedactsIff(refs, [], path);
    assert forall r <- refs :: !Between([], r.components, path) && !(path <= r.components);
    AgreeIff(h, refs, target, [], {target}, path);
  }

  /** Object references lead to objects of lower rank, so there are no cycles. */
  ghost predicate Acyclic(h: Heap, rank: map<ObjectId, nat>) {
    forall id <- h :: id in rank &&
      forall k <- h[id].props :: h[id].props[k].Ref? ==> h[id].props[k].id in rank && rank[h[id].props[k].id] < rank[id]
  }

  /** In particular the lookups agree on contexts without cycles. */
  lemma {:induction false} AcyclicNeverRepeats(h: Heap, rank: map<ObjectId, nat>, id: ObjectId, branch: set<ObjectId>, path: seq<string>)
    requires WellFormed(h) && Acyclic(h, rank) && id in h && forall b <- branch :: b in rank && rank[b] >= rank[id]
    ensures !Repeats(h, id, branch, path)
    decreases |path|
  {
    if |path| > 0 && path[0] in h[id].props && h[id].props[path[0]].Ref? {
      var next := h[id].props[path[0]].id;
      AcyclicNeverRepeats(h, rank, next, branch + {next}, path[1..]);
    }
  }

  /** The smallest cycle: an attribute that leads back to its object is dropped. */
  lemma CycleIsDropped()
    ensures var h: Heap := map[0 := Object(["self"], map["self" := Ref(0)])];
            && WellFormed(h)
            && HeapGet(h, Ref(0), ["self"]) == Some(Ref(0))
            && TreeGet(Node(WalkContext(h, [], 0).fields), ["self"]) == None
  {
    var h: Heap := map[0 := Object(["self"], map["self" := Ref(0)])];
    assert WellFormed(h);
    KeptIff(h, [], 0, [], {0}, ["self"]);
  }

  // ----- The clone as the code holds it -----

  /** Own-property lookup along a path, in the objects of the clone. */
  function NodesGet(nodes: Nodes, slot: Slot, path: seq<string>): Option<Slot>
    decreases |path|
  {
    if |path| == 0 then Some(slot)
    else if slot.Child? && slot.id < |nodes| && path[0] in nodes[slot.id] then NodesGet(nodes, nodes[slot.id][path[0]], path[1..])
    else None
  }

  lemma {:induction false} FitsGet(nodes: Nodes, slot: Slot, t: Tree, path: seq<string>)
    requires Fits(nodes, map[], slot, t)
    ensures NodesGet(nodes, slot, path).Some? <==> TreeGet(t, path).Some?
    ensures TreeGet(t, path).Some? ==> Fits(nodes, map[], NodesGet(nodes, slot, path).value, TreeGet(t, path).value)
    decreases |path|
  {
    if |path| > 0 && t.Node? && path[0] in t.fields {
      FitsGet(nodes, nodes[slot.id][path[0]], t.fields[path[0]], path[1..]);
    }
  }

  /** `get` on the clone. */
  method GetInClone(nodes: Nodes, reference: AttributeReference) returns (found: Option<Slot>)
    ensures found == if reference.isValid then NodesGet(nodes, Child(0), reference.components) else None
  {
    if !reference.isValid {
      return None;
    }
    var current := Child(0);
    var index := 0;
    while index < |reference.components|
      invariant 0 <= index <= |reference.components|
      invariant NodesGet(nodes, Child(0), reference.components) == NodesGet(nodes, current, reference.components[index..])
    {
      var component := reference.components[index];
      assert reference.components[index..][1..] == reference.components[index + 1..];
      if current.Child? && current.id < |nodes| && component in nodes[current.id] {
        current := nodes[current.id][component];
      } else {
        return None;
      }
      index := index + 1;
    }
    return Some(current);
  }

  /** Looking up a path in the clone that `cloneWithRedactions` returns: it is found exactly when
      the original has it, no private reference is a prefix of it and it does not repeat; and
      what is found is a structural copy when no private reference extends the path and no path
      through it repeats. */
  lemma CloneLookup(h: Heap, refs: seq<AttributeReference>, target: ObjectId, nodes: Nodes, path: seq<string>)
    requires WellFormed(h) && target in h && |path| > 0
    requires Fits(nodes, map[], Child(0), Node(WalkContext(h, refs, target).fields))
    ensures NodesGet(nodes, Child(0), path).Some? <==>
              && HeapGet(h, Ref(target), path).Some?
              && (forall r <- refs :: |r.components| > 0 ==> !(r.components <= path))
              && !Repeats(h, target, {target}, path)
    ensures NodesGet(nodes, Child(0), path).Some? && !Extends(refs, path) && NeverRepeats(h, target, {target}, path) ==>
              exists t :: Unfolds(h, HeapGet(h, Ref(target), path).value, t) && Fits(nodes, map[], NodesGet(nodes, Child(0), path).value, t)
  {
    assert [] + path == path;
    RedactsIff(refs, [], path);
    assert forall r <- refs :: Between([], r.components, path) <==> |r.components| > 0 && r.components <= path;
    KeptIff(h, refs, target, [], {target}, path);
    FitsGet(nodes, Child(0), Node(WalkContext(h, refs, target).fields), path);
    if NodesGet(nodes, Child(0), path).Some? && !Extends(refs, path) && NeverRepeats(h, target, {target}, path) {
      AgreeIff(h, refs, target, [], {target}, path);
    }
  }
}
