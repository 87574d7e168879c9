/** Redaction of private attributes (ContextFilter.ts). */
module ContextFilter {
  import opened Base
  import opened JsValues
  import opened References
  import opened Sorting

  // ----- The specification: a recursive walk -----

  /** `references.find((ref) => compare(ref, ptr))`. */
  function FirstMatch(refs: seq<AttributeReference>, ptr: seq<string>): (r: Option<AttributeReference>)
    ensures r.Some? ==> r.value in refs && r.value.components == ptr
    ensures r.None? ==> forall x <- refs :: x.components != ptr
  {
    if |refs| == 0 then None
    else if refs[0].components == ptr then Some(refs[0])
    else FirstMatch(refs[1..], ptr)
  }

  /** It is the first reference of the list that is equal. */
  lemma {:induction false} FirstMatchIsFirst(refs: seq<AttributeReference>, ptr: seq<string>, i: nat)
    requires i < |refs| && refs[i].components == ptr && forall j :: 0 <= j < i ==> refs[j].components != ptr
    ensures FirstMatch(refs, ptr) == Some(refs[i])
  {
    if i > 0 {
      assert refs[0].components != ptr;
      FirstMatchIsFirst(refs[1..], ptr, i - 1);
    }
  }

  /** What a walk below one attribute finds: its copy, unless it is dropped; the names of
      what was redacted; and how many attributes were looked at. */
  datatype Walked = Walked(tree: Option<Tree>, excluded: multiset<string>, visits: nat)

  datatype WalkedFields = WalkedFields(fields: map<string, Tree>, excluded: multiset<string>, visits: nat)

  /** Walks the value at `ptr`; `branch` holds the objects it is nested in. */
  ghost function Walk(h: Heap, refs: seq<AttributeReference>, v: Value, ptr: seq<string>, branch: set<ObjectId>): Walked
    requires WellFormed(h) && (v.Ref? ==> v.id in h)
    decreases h.Keys - branch, 0
  {
    match FirstMatch(refs, ptr)
    case Some(ref) => Walked(None, multiset{ref.redactionName}, 1)
    case None =>
      if v.Ref? then
        if v.id in branch then Walked(None, multiset{}, 1)
        else
          var w := WalkFields(h, refs, v.id, h[v.id].keys, ptr, branch + {v.id});
          Walked(Some(Node(w.fields)), w.excluded, 1 + w.visits)
      else Walked(Some(Leaf(v)), multiset{}, 1)
  }

  /** Walks the attributes `keys` of an object. */
  ghost function WalkFields(h: Heap, refs: seq<AttributeReference>, id: ObjectId, keys: seq<string>,
                            ptr: seq<string>, branch: set<ObjectId>): WalkedFields
    requires WellFormed(h) && id in h && forall k <- keys :: k in h[id].props
    decreases h.Keys - branch, 1 + |keys|
  {
    if |keys| == 0 then WalkedFields(map[], multiset{}, 0)
    else
      var k := keys[0];
      var first := Walk(h, refs, h[id].props[k], ptr + [k], branch);
      var rest := WalkFields(h, refs, id, keys[1..], ptr, branch);
      WalkedFields(
        if first.tree.Some? then rest.fields[k := first.tree.value] else rest.fields,
        first.excluded + rest.excluded,
        first.visits + rest.visits)
  }

  ghost function WalkContext(h: Heap, refs: seq<AttributeReference>, target: ObjectId): WalkedFields
    requires WellFormed(h) && target in h
  {
    WalkFields(h, refs, target, h[target].keys, [], {target})
  }

  // ----- The loop -----

  /** An entry of the explicit stack: the attribute `key` of the object `source`, to be copied
      to the object `parent` of the clone. */
  datatype Item = Item(key: string, ptr: seq<string>, source: ObjectId, parent: nat, visited: set<ObjectId>)

  /** A property of a cloned object: a value taken over as it is, or another cloned object. */
  datatype Slot = Copied(value: Value) | Child(id: nat)

  /** The objects the clone is made of, by allocation order; the clone itself is the first. */
  type Nodes = seq<map<string, Slot>>

  predicate GoodItem(h: Heap, it: Item) {
    it.source in h && it.key in h[it.source].props
  }

  ghost function Outcome(h: Heap, refs: seq<AttributeReference>, it: Item): Walked
    requires WellFormed(h) && GoodItem(h, it)
  {
    Walk(h, refs, h[it.source].props[it.key], it.ptr, it.visited)
  }

  /** The entries pushed for an object: one for each of `keys`, in order. */
  function Children(keys: seq<string>, ptr: seq<string>, source: ObjectId, parent: nat, visited: set<ObjectId>): (items: seq<Item>)
    ensures |items| == |keys|
    ensures forall i :: 0 <= i < |keys| ==> items[i] == Item(keys[i], ptr + [keys[i]], source, parent, visited)
  {
    seq(|keys|, i requires 0 <= i < |keys| => Item(keys[i], ptr + [keys[i]], source, parent, visited))
  }

  ghost function StackExcluded(h: Heap, refs: seq<AttributeReference>, stack: seq<Item>): multiset<string>
    requires WellFormed(h) && forall it <- stack :: GoodItem(h, it)
  {
    if |stack| == 0 then multiset{}
    else StackExcluded(h, refs, stack[..|stack| - 1]) + Outcome(h, refs, stack[|stack| - 1]).excluded
  }

  ghost function StackVisits(h: Heap, refs: seq<AttributeReference>, stack: seq<Item>): nat
    requires WellFormed(h) && forall it <- stack :: GoodItem(h, it)
  {
    if |stack| == 0 then 0
    else StackVisits(h, refs, stack[..|stack| - 1]) + Outcome(h, refs, stack[|stack| - 1]).visits
  }

  /** What the entries still on the stack will put where: the copy for property `key` of node
      `parent`, or nothing. */
  type Promises = map<(nat, string), Option<Tree>>

  /** The slot holds, or will hold once the promises are kept, the tree `t`. */
  ghost predicate Fits(nodes: Nodes, promises: Promises, slot: Slot, t: Tree)
    decreases t
  {
    match t
    case Leaf(v) => slot == Copied(v)
    case Node(m) =>
      && slot.Child? && slot.id < |nodes|
      && (forall k :: k in m <==> k in nodes[slot.id] || Promised(promises, slot.id, k))
      && (forall k <- m :: k in nodes[slot.id] ==> Fits(nodes, promises, nodes[slot.id][k], m[k]))
      && (forall k <- m :: k !in nodes[slot.id] ==> Promised(promises, slot.id, k) && promises[(slot.id, k)].value == m[k])
  }

  predicate Promised(promises: Promises, id: nat, k: string) {
    (id, k) in promises && promises[(id, k)].Some?
  }

  /** The promise for property `key` of node `parent` is kept, by `slot` or by leaving the
      property out; nothing else changes. */
  lemma {:induction false} KeepPromise(
      nodes: Nodes, promises: Promises, nodes': Nodes, promises': Promises,
      parent: nat, key: string, slot: Slot, t: Tree)
    requires parent < |nodes| <= |nodes'| && (parent, key) in promises && key !in nodes[parent]
    requires forall i :: 0 <= i < |nodes| && i != parent ==> nodes'[i] == nodes[i]
    requires forall i: nat, k :: i < |nodes| && (i, k) != (parent, key) ==>
               (Promised(promises', i, k) <==> Promised(promises, i, k))
               && (Promised(promises, i, k) ==> promises'[(i, k)] == promises[(i, k)])
    requires !Promised(promises', parent, key)
    requires match promises[(parent, key)]
             case None => nodes'[parent] == nodes[parent]
             case Some(u) => key in nodes'[parent] && nodes'[parent] == nodes[parent][key := nodes'[parent][key]]
                             && Fits(nodes', promises', nodes'[parent][key], u)
    requires Fits(nodes, promises, slot, t)
    ensures Fits(nodes', promises', slot, t)
    decreases t
  {
    if t.Node? {
      forall k | k in t.fields && k in nodes[slot.id]
        ensures Fits(nodes', promises', nodes[slot.id][k], t.fields[k])
      {
        KeepPromise(nodes, promises, nodes', promises', parent, key, nodes[slot.id][k], t.fields[k]);
      }
    }
  }

  ghost function PromisesOf(h: Heap, refs: seq<AttributeReference>, stack: seq<Item>): Promises
    requires WellFormed(h) && forall it <- stack :: GoodItem(h, it)
  {
    if |stack| == 0 then map[]
    else
      var top := stack[|stack| - 1];
      PromisesOf(h, refs, stack[..|stack| - 1])[(top.parent, top.key) := Outcome(h, refs, top).tree]
  }

  predicate DistinctTargets(stack: seq<Item>) {
    forall i, j :: 0 <= i < j < |stack| ==>
      stack[i].parent != stack[j].parent || stack[i].key != stack[j].key
  }

  lemma {:induction false} PromisesOfContent(h: Heap, refs: seq<AttributeReference>, stack: seq<Item>)
    requires WellFormed(h) && (forall it <- stack :: GoodItem(h, it)) && DistinctTargets(stack)
    ensures forall it <- stack :: (it.parent, it.key) in PromisesOf(h, refs, stack)
                                  && PromisesOf(h, refs, stack)[(it.parent, it.key)] == Outcome(h, refs, it).tree
    ensures forall pk <- PromisesOf(h, refs, stack) :: exists it <- stack :: pk == (it.parent, it.key)
  {
    if |stack| > 0 {
      var init := stack[..|stack| - 1];
      PromisesOfContent(h, refs, init);
      assert stack == init + [stack[|stack| - 1]];
    }
  }

  /** The state of the loop: every pending property has its own place, which is still free,
      and the clone with the promises kept is the tree of the walk. */
  ghost predicate Consistent(h: Heap, refs: seq<AttributeReference>, stack: seq<Item>, nodes: Nodes, t: Tree)
    requires WellFormed(h)
  {
    && |nodes| > 0
    && (forall it <- stack :: GoodItem(h, it) && it.parent < |nodes| && it.key !in nodes[it.parent])
    && DistinctTargets(stack)
    && Fits(nodes, PromisesOf(h, refs, stack), Child(0), t)
  }

  lemma PushedTargets(h: Heap, rest: seq<Item>, it: Item, pushed: seq<Item>, nodes: Nodes)
    requires forall p <- rest + [it] :: GoodItem(h, p) && p.parent < |nodes|
    requires forall p <- pushed :: GoodItem(h, p) && |nodes| <= p.parent
    requires DistinctTargets(rest + [it]) && DistinctTargets(pushed)
    ensures forall p <- rest + pushed :: GoodItem(h, p)
    ensures DistinctTargets(rest + pushed)
    ensures forall p <- rest :: p.parent < |nodes| && (p.parent, p.key) != (it.parent, it.key)
  {
    var s, s' := rest + [it], rest + pushed;
    assert forall i :: 0 <= i < |rest| ==> s[i] == rest[i] && s'[i] == rest[i];
    assert s[|rest|] == it;
    assert forall i :: |rest| <= i < |s'| ==> s'[i] == pushed[i - |rest|];
  }

  /** Replacing the top entry by entries for fresh nodes changes the promises for the other
      nodes at the popped property only. */
  lemma PromisesAfter(h: Heap, refs: seq<AttributeReference>, rest: seq<Item>, it: Item, pushed: seq<Item>, n: nat)
    requires WellFormed(h)
    requires forall p <- rest + [it] :: GoodItem(h, p)
    requires forall p <- rest + pushed :: GoodItem(h, p)
    requires DistinctTargets(rest + [it]) && DistinctTargets(rest + pushed)
    requires forall p <- rest :: (p.parent, p.key) != (it.parent, it.key)
    requires it.parent < n && forall p <- pushed :: n <= p.parent
    ensures var promises, promises' := PromisesOf(h, refs, rest + [it]), PromisesOf(h, refs, rest + pushed);
            && (it.parent, it.key) in promises && promises[(it.parent, it.key)] == Outcome(h, refs, it).tree
            && (it.parent, it.key) !in promises'
            && forall i: nat, k :: i < n && (i, k) != (it.parent, it.key) ==>
                 (Promised(promises', i, k) <==> Promised(promises, i, k))
                 && (Promised(promises, i, k) ==> promises'[(i, k)] == promises[(i, k)])
  {
    PromisesOfContent(h, refs, rest + [it]);
    PromisesOfContent(h, refs, rest + pushed);
    var promises, promises' := PromisesOf(h, refs, rest + [it]), PromisesOf(h, refs, rest + pushed);
    assert forall p <- rest :: p in rest + [it] && p in rest + pushed;
    assert it in rest + [it];
    forall i: nat, k | i < n && (i, k) != (it.parent, it.key)
      ensures (i, k) in promises <==> (i, k) in promises'
      ensures (i, k) in promises ==> promises'[(i, k)] == promises[(i, k)]
    {
      if (i, k) in promises {
        var p :| p in rest + [it] && (i, k) == (p.parent, p.key);
        assert p in rest;
      }
      if (i, k) in promises' {
        var p :| p in rest + pushed && (i, k) == (p.parent, p.key);
        assert p in rest;
      }
    }
  }

  /** One turn of the loop: the entry popped from `rest + [it]` puts its outcome into its
      parent, or nothing, and pushes entries for nodes allocated in this turn. */
  lemma Advance(h: Heap, refs: seq<AttributeReference>, rest: seq<Item>, it: Item, pushed: seq<Item>,
                nodes: Nodes, nodes': Nodes, t: Tree)
    requires WellFormed(h) && Consistent(h, refs, rest + [it], nodes, t)
    requires forall p <- rest + [it] :: GoodItem(h, p) && p.parent < |nodes|
    requires forall p <- rest + pushed :: GoodItem(h, p)
    requires GoodItem(h, it) && it.parent < |nodes| && it.key !in nodes[it.parent]
    requires |nodes| <= |nodes'| && (forall i :: 0 <= i < |nodes| && i != it.parent ==> nodes'[i] == nodes[i])
    requires forall p <- pushed :: |nodes| <= p.parent < |nodes'| && p.key !in nodes'[p.parent]
    requires DistinctTargets(pushed)
    requires match Outcome(h, refs, it).tree
             case None => nodes'[it.parent] == nodes[it.parent]
             case Some(u) => it.key in nodes'[it.parent]
                             && nodes'[it.parent] == nodes[it.parent][it.key := nodes'[it.parent][it.key]]
                             && Fits(nodes', PromisesOf(h, refs, rest + pushed), nodes'[it.parent][it.key], u)
    ensures Consistent(h, refs, rest + pushed, nodes', t)
  {
    PushedTargets(h, rest, it, pushed, nodes);
    PromisesAfter(h, refs, rest, it, pushed, |nodes|);
    KeepPromise(nodes, PromisesOf(h, refs, rest + [it]), nodes', PromisesOf(h, refs, rest + pushed),
                it.parent, it.key, Child(0), t);
    forall p | p in rest + pushed
      ensures p.parent < |nodes'| && p.key !in nodes'[p.parent]
    {
      if p in rest {
        assert p in rest + [it];
      }
    }
  }

  lemma {:induction false} WalkFieldsContent(h: Heap, refs: seq<AttributeReference>, id: ObjectId, keys: seq<string>,
                                             ptr: seq<string>, branch: set<ObjectId>)
    requires WellFormed(h) && id in h && (forall k <- keys :: k in h[id].props) && Distinct(keys)
    ensures var fields := WalkFields(h, refs, id, keys, ptr, branch).fields;
            && fields.Keys <= (set k <- keys)
            && forall k <- keys ::
                 var t := Walk(h, refs, h[id].props[k], ptr + [k], branch).tree;
                 if t.Some? then k in fields && fields[k] == t.value else k !in fields
  {
    if |keys| > 0 {
      WalkFieldsContent(h, refs, id, keys[1..], ptr, branch);
      assert keys == [keys[0]] + keys[1..];
      assert keys[0] !in keys[1..];
    }
  }

  lemma {:induction false} StackAppend(h: Heap, refs: seq<AttributeReference>, a: seq<Item>, b: seq<Item>)
    requires WellFormed(h) && (forall it <- a :: GoodItem(h, it)) && (forall it <- b :: GoodItem(h, it))
    requires forall it <- a + b :: GoodItem(h, it)
    ensures StackExcluded(h, refs, a + b) == StackExcluded(h, refs, a) + StackExcluded(h, refs, b)
    ensures StackVisits(h, refs, a + b) == StackVisits(h, refs, a) + StackVisits(h, refs, b)
  {
    if |b| == 0 {
      assert a + b == a;
    } else {
      var init := b[..|b| - 1];
      assert (a + b)[..|a + b| - 1] == a + init;
      StackAppend(h, refs, a, init);
    }
  }

  lemma StackOne(h: Heap, refs: seq<AttributeReference>, it: Item)
    requires WellFormed(h) && GoodItem(h, it)
    ensures StackExcluded(h, refs, [it]) == Outcome(h, refs, it).excluded
    ensures StackVisits(h, refs, [it]) == Outcome(h, refs, it).visits
  {
    assert [it][..0] == [];
  }

  /** The entries pushed for an object account for exactly what the walk of it finds. */
  lemma {:induction false} ChildrenSum(h: Heap, refs: seq<AttributeReference>, id: ObjectId, keys: seq<string>,
                                       ptr: seq<string>, branch: set<ObjectId>, parent: nat)
    requires WellFormed(h) && id in h && (forall k <- keys :: k in h[id].props)
    ensures var items, w := Children(keys, ptr, id, parent, branch), WalkFields(h, refs, id, keys, ptr, branch);
            && (forall it <- items :: GoodItem(h, it))
            && StackExcluded(h, refs, items) == w.excluded
            && StackVisits(h, refs, items) == w.visits
  {
    if |keys| > 0 {
      ChildrenSum(h, refs, id, keys[1..], ptr, branch, parent);
      var it, rest := Item(keys[0], ptr + [keys[0]], id, parent, branch), Children(keys[1..], ptr, id, parent, branch);
      assert Children(keys, ptr, id, parent, branch) == [it] + rest;
      StackOne(h, refs, it);
      StackAppend(h, refs, [it], rest);
    }
  }

  /** The entries on a stack for a node that only its last part mentions. */
  lemma PromisesForNode(h: Heap, refs: seq<AttributeReference>, rest: seq<Item>, items: seq<Item>, parent: nat, k: string)
    requires WellFormed(h) && (forall p <- rest + items :: GoodItem(h, p)) && DistinctTargets(rest + items)
    requires forall p <- rest :: p.parent < parent
    ensures var promises := PromisesOf(h, refs, rest + items);
            && ((parent, k) in promises ==> exists p <- items :: p.parent == parent && p.key == k)
            && forall p <- items :: p.parent == parent && p.key == k ==>
                 (parent, k) in promises && GoodItem(h, p) && promises[(parent, k)] == Outcome(h, refs, p).tree
  {
    PromisesOfContent(h, refs, rest + items);
    assert forall p <- items :: p in rest + items;
    if (parent, k) in PromisesOf(h, refs, rest + items) {
      var p :| p in rest + items && (parent, k) == (p.parent, p.key);
      assert p in items;
    }
  }

  /** What the entries pushed for `id` promise for the new node `parent`. */
  lemma FreshPromise(h: Heap, refs: seq<AttributeReference>, rest: seq<Item>, id: ObjectId,
                     ptr: seq<string>, branch: set<ObjectId>, parent: nat, k: string)
    requires WellFormed(h) && id in h
    requires forall p <- rest :: p.parent < parent
    requires forall p <- rest + Children(h[id].keys, ptr, id, parent, branch) :: GoodItem(h, p)
    requires DistinctTargets(rest + Children(h[id].keys, ptr, id, parent, branch))
    ensures var promises := PromisesOf(h, refs, rest + Children(h[id].keys, ptr, id, parent, branch));
            && ((parent, k) in promises <==> k in h[id].keys)
            && (k in h[id].keys ==> promises[(parent, k)] == Walk(h, refs, h[id].props[k], ptr + [k], branch).tree)
  {
    var items := Children(h[id].keys, ptr, id, parent, branch);
    PromisesForNode(h, refs, rest, items, parent, k);
    if k in h[id].keys {
      var i :| 0 <= i < |h[id].keys| && h[id].keys[i] == k;
      assert items[i] in items;
    }
  }

  /** A node allocated empty, with entries pushed for the attributes of `id`, is promised
      the walk of that object. */
  lemma FreshNodeFits(h: Heap, refs: seq<AttributeReference>, rest: seq<Item>, id: ObjectId,
                      ptr: seq<string>, branch: set<ObjectId>, nodes: Nodes, parent: nat)
    requires WellFormed(h) && id in h && parent < |nodes| && nodes[parent] == map[]
    requires forall p <- rest :: p.parent < parent
    requires forall p <- rest + Children(h[id].keys, ptr, id, parent, branch) :: GoodItem(h, p)
    requires DistinctTargets(rest + Children(h[id].keys, ptr, id, parent, branch))
    ensures Fits(nodes, PromisesOf(h, refs, rest + Children(h[id].keys, ptr, id, parent, branch)), Child(parent),
                 Node(WalkFields(h, refs, id, h[id].keys, ptr, branch).fields))
  {
    var promises := PromisesOf(h, refs, rest + Children(h[id].keys, ptr, id, parent, branch));
    var m := WalkFields(h, refs, id, h[id].keys, ptr, branch).fields;
    WalkFieldsContent(h, refs, id, h[id].keys, ptr, branch);
    forall k
      ensures k in m <==> Promised(promises, parent, k)
      ensures k in m ==> promises[(parent, k)].value == m[k]
    {
      FreshPromise(h, refs, rest, id, ptr, branch, parent, k);
    }
  }

  // The turns of the loop: the property on top of the stack is left out, copied, or opened.

  ghost predicate LoopState(h: Heap, refs: seq<AttributeReference>, stack: seq<Item>, nodes: Nodes,
                            excluded: seq<string>, w: WalkedFields)
    requires WellFormed(h)
  {
    && Consistent(h, refs, stack, nodes, Node(w.fields))
    && multiset(excluded) + StackExcluded(h, refs, stack) == w.excluded
  }

  lemma StartConsistent(h: Heap, refs: seq<AttributeReference>, target: ObjectId, stack: seq<Item>)
    requires WellFormed(h) && target in h && stack == Children(h[target].keys, [], target, 0, {target})
    ensures Consistent(h, refs, stack, [map[]], Node(WalkContext(h, refs, target).fields))
  {
    assert [] + stack == stack;
    FreshNodeFits(h, refs, [], target, [], {target}, [map[]], 0);
  }

  lemma Start(h: Heap, refs: seq<AttributeReference>, target: ObjectId)
    requires WellFormed(h) && target in h
    ensures LoopState(h, refs, Children(h[target].keys, [], target, 0, {target}), [map[]], [], WalkContext(h, refs, target))
  {
    StartConsistent(h, refs, target, Children(h[target].keys, [], target, 0, {target}));
    ChildrenSum(h, refs, target, h[target].keys, [], {target}, 0);
  }

  lemma Top(h: Heap, refs: seq<AttributeReference>, stack: seq<Item>, nodes: Nodes, excluded: seq<string>, w: WalkedFields)
    requires WellFormed(h) && LoopState(h, refs, stack, nodes, excluded, w) && |stack| > 0
    ensures var rest, it := stack[..|stack| - 1], stack[|stack| - 1];
            && stack == rest + [it]
            && GoodItem(h, it) && it.parent < |nodes| && it.key !in nodes[it.parent]
            && (forall p <- rest :: GoodItem(h, p))
            && StackExcluded(h, refs, stack) == StackExcluded(h, refs, rest) + Outcome(h, refs, it).excluded
            && StackVisits(h, refs, stack) == StackVisits(h, refs, rest) + Outcome(h, refs, it).visits
  {
  }

  lemma LeaveOut(h: Heap, refs: seq<AttributeReference>, stack: seq<Item>, nodes: Nodes, excluded: seq<string>,
                 w: WalkedFields, names: seq<string>)
    requires WellFormed(h) && LoopState(h, refs, stack, nodes, excluded, w) && |stack| > 0
    requires GoodItem(h, stack[|stack| - 1])
    requires Outcome(h, refs, stack[|stack| - 1]).tree.None?
    requires multiset(names) == Outcome(h, refs, stack[|stack| - 1]).excluded
    ensures LoopState(h, refs, stack[..|stack| - 1], nodes, excluded + names, w)
  {
    var rest, it := stack[..|stack| - 1], stack[|stack| - 1];
    Top(h, refs, stack, nodes, excluded, w);
    assert rest + [] == rest;
    Advance(h, refs, rest, it, [], nodes, nodes, Node(w.fields));
  }

  lemma CopyOver(h: Heap, refs: seq<AttributeReference>, stack: seq<Item>, nodes: Nodes, excluded: seq<string>,
                 w: WalkedFields, v: Value)
    requires WellFormed(h) && LoopState(h, refs, stack, nodes, excluded, w) && |stack| > 0
    requires GoodItem(h, stack[|stack| - 1]) && stack[|stack| - 1].parent < |nodes|
    requires Outcome(h, refs, stack[|stack| - 1]) == Walked(Some(Leaf(v)), multiset{}, 1)
    ensures var it := stack[|stack| - 1];
            LoopState(h, refs, stack[..|stack| - 1], nodes[it.parent := nodes[it.parent][it.key := Copied(v)]], excluded, w)
  {
    var rest, it := stack[..|stack| - 1], stack[|stack| - 1];
    Top(h, refs, stack, nodes, excluded, w);
    assert rest + [] == rest;
    Advance(h, refs, rest, it, [], nodes, nodes[it.parent := nodes[it.parent][it.key := Copied(v)]], Node(w.fields));
  }

  lemma Open(h: Heap, refs: seq<AttributeReference>, stack: seq<Item>, nodes: Nodes, excluded: seq<string>,
             w: WalkedFields, id: ObjectId)
    requires WellFormed(h) && LoopState(h, refs, stack, nodes, excluded, w) && |stack| > 0 && id in h
    requires GoodItem(h, stack[|stack| - 1]) && stack[|stack| - 1].parent < |nodes|
    requires var it := stack[|stack| - 1];
             var inner := WalkFields(h, refs, id, h[id].keys, it.ptr, it.visited + {id});
             Outcome(h, refs, it) == Walked(Some(Node(inner.fields)), inner.excluded, 1 + inner.visits)
    ensures var rest, it := stack[..|stack| - 1], stack[|stack| - 1];
            var stack' := rest + Children(h[id].keys, it.ptr, id, |nodes|, it.visited + {id});
            && LoopState(h, refs, stack', nodes[it.parent := nodes[it.parent][it.key := Child(|nodes|)]] + [map[]], excluded, w)
            && StackVisits(h, refs, stack') < StackVisits(h, refs, stack)
  {
    var rest, it := stack[..|stack| - 1], stack[|stack| - 1];
    var pushed := Children(h[id].keys, it.ptr, id, |nodes|, it.visited + {id});
    var nodes' := nodes[it.parent := nodes[it.parent][it.key := Child(|nodes|)]] + [map[]];
    Top(h, refs, stack, nodes, excluded, w);
    PushedTargets(h, rest, it, pushed, nodes);
    FreshNodeFits(h, refs, rest, id, it.ptr, it.visited + {id}, nodes', |nodes|);
    Advance(h, refs, rest, it, pushed, nodes, nodes', Node(w.fields));
    OpenSums(h, refs, rest, it, id, |nodes|);
  }

  /** What pushing the attributes of an object adds to the sums over the stack. */
  lemma OpenSums(h: Heap, refs: seq<AttributeReference>, rest: seq<Item>, it: Item, id: ObjectId, n: nat)
    requires WellFormed(h) && id in h && forall p <- rest :: GoodItem(h, p)
    requires forall p <- Children(h[id].keys, it.ptr, id, n, it.visited + {id}) :: GoodItem(h, p)
    ensures var inner := WalkFields(h, refs, id, h[id].keys, it.ptr, it.visited + {id});
            var stack := rest + Children(h[id].keys, it.ptr, id, n, it.visited + {id});
            && (forall p <- stack :: GoodItem(h, p))
            && StackExcluded(h, refs, stack) == StackExcluded(h, refs, rest) + inner.excluded
            && StackVisits(h, refs, stack) == StackVisits(h, refs, rest) + inner.visits
  {
    ChildrenSum(h, refs, id, h[id].keys, it.ptr, it.visited + {id}, n);
    StackAppend(h, refs, rest, Children(h[id].keys, it.ptr, id, n, it.visited + {id}));
  }

  predicate IsChild(nodes: Nodes, i: nat, k: string, c: nat) {
    i < |nodes| && k in nodes[i] && nodes[i][k] == Child(c)
  }

  /** Every cloned object is a property of one other, allocated before it. */
  ghost predicate Tidy(nodes: Nodes) {
    && (forall i: nat, k, c: nat :: IsChild(nodes, i, k, c) ==> i < c < |nodes|)
    && (forall i: nat, k, j: nat, l, c: nat :: IsChild(nodes, i, k, c) && IsChild(nodes, j, l, c) ==> i == j && k == l)
  }

  lemma TidyCopy(nodes: Nodes, parent: nat, key: string, v: Value)
    requires Tidy(nodes) && parent < |nodes|
    ensures Tidy(nodes[parent := nodes[parent][key := Copied(v)]])
  {
    var nodes' := nodes[parent := nodes[parent][key := Copied(v)]];
    assert forall i: nat, k, c: nat :: IsChild(nodes', i, k, c) ==> IsChild(nodes, i, k, c);
  }

  lemma TidyOpen(nodes: Nodes, parent: nat, key: string)
    requires Tidy(nodes) && parent < |nodes|
    ensures Tidy(nodes[parent := nodes[parent][key := Child(|nodes|)]] + [map[]])
  {
    var nodes' := nodes[parent := nodes[parent][key := Child(|nodes|)]] + [map[]];
    assert forall i: nat, k, c: nat :: IsChild(nodes', i, k, c) ==>
        IsChild(nodes, i, k, c) || (i == parent && k == key && c == |nodes|);
  }

  /** `cloneWithRedactions`. The clone is the tree of the recursive walk, the names are what
      the walk excluded, sorted, and the loop pops one entry for each attribute the walk
      visits. */
  method CloneWithRedactions(h: Heap, target: ObjectId, refs: seq<AttributeReference>)
    returns (nodes: Nodes, excluded: seq<string>)
    requires WellFormed(h) && target in h
    ensures Fits(nodes, map[], Child(0), Node(WalkContext(h, refs, target).fields))
    ensures Tidy(nodes)
    ensures multiset(excluded) == WalkContext(h, refs, target).excluded && Sorted(excluded)
  {
    var stack := Children(h[target].keys, [], target, 0, {target});
    nodes := [map[]];
    excluded := [];
    ghost var w := WalkContext(h, refs, target);
    Start(h, refs, target);
    while |stack| > 0
      invariant LoopState(h, refs, stack, nodes, excluded, w) && Tidy(nodes)
      decreases StackVisits(h, refs, stack)
    {
      stack, nodes, excluded := Turn(h, refs, stack, nodes, excluded, w);
    }
    SortSorted(excluded);
    excluded := Sort(excluded);
  }

  /** The body of the loop: pops one entry and copies, opens, leaves out or redacts its attribute. */
  method Turn(h: Heap, refs: seq<AttributeReference>, stack0: seq<Item>, nodes0: Nodes, excluded0: seq<string>, ghost w: WalkedFields)
    returns (stack: seq<Item>, nodes: Nodes, excluded: seq<string>)
    requires WellFormed(h) && |stack0| > 0 && LoopState(h, refs, stack0, nodes0, excluded0, w) && Tidy(nodes0)
    ensures LoopState(h, refs, stack, nodes, excluded, w) && Tidy(nodes)
    ensures StackVisits(h, refs, stack) < StackVisits(h, refs, stack0)
  {
    Top(h, refs, stack0, nodes0, excluded0, w);
    var it := stack0[|stack0| - 1];
    stack, nodes, excluded := stack0[..|stack0| - 1], nodes0, excluded0;
    var redactRef := FirstMatch(refs, it.ptr);
    if redactRef.None? {
      var value := h[it.source].props[it.key];
      if !value.Ref? {
        CopyOver(h, refs, stack0, nodes0, excluded0, w, value);
        TidyCopy(nodes0, it.parent, it.key, value);
        nodes := nodes0[it.parent := nodes0[it.parent][it.key := Copied(value)]];
      } else if value.id !in it.visited {
        Open(h, refs, stack0, nodes0, excluded0, w, value.id);
        TidyOpen(nodes0, it.parent, it.key);
        stack := stack + Children(h[value.id].keys, it.ptr, value.id, |nodes0|, it.visited + {value.id});
        nodes := nodes0[it.parent := nodes0[it.parent][it.key := Child(|nodes0|)]] + [map[]];
      } else {
        LeaveOut(h, refs, stack0, nodes0, excluded0, w, []);
        assert excluded0 + [] == excluded0;
      }
    } else {
      LeaveOut(h, refs, stack0, nodes0, excluded0, w, [redactRef.value.redactionName]);
      excluded := excluded0 + [redactRef.value.redactionName];
    }
  }
}
