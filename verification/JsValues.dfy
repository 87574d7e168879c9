/** JavaScript values as the SDK sees them: an object heap, possibly cyclic, and the finite
    trees that copies of its objects are. */
module JsValues {
  import opened Base

  type ObjectId = nat

  datatype Primitive = Bool(b: bool) | Str(s: string) | Num(n: real)

  datatype Value =
    | Undefined
    | Null
    | Prim(p: Primitive)
    | Array(elements: seq<Value>)
    | Ref(id: ObjectId)

  /** An object: its own property names in the order `Object.keys` gives them. */
  datatype Object = Object(keys: seq<string>, props: map<string, Value>)

  type Heap = map<ObjectId, Object>

  ghost predicate WellFormed(h: Heap) {
    forall id <- h ::
      && Distinct(h[id].keys)
      && (forall k :: k in h[id].keys <==> k in h[id].props)
      && (forall k <- h[id].props :: h[id].props[k].Ref? ==> h[id].props[k].id in h)
  }

  /** A value with every object reference below it replaced by the object's contents. Arrays
      are shared, not copied into. */
  datatype Tree = Leaf(value: Value) | Node(fields: map<string, Tree>)

  /** `t` is structurally equal to the value `v` of the heap. */
  ghost predicate Unfolds(h: Heap, v: Value, t: Tree)
    decreases t
  {
    match t
    case Leaf(w) => v == w && !v.Ref?
    case Node(m) =>
      && v.Ref? && v.id in h && m.Keys == h[v.id].props.Keys
      && forall k <- m :: k in h[v.id].props && Unfolds(h, h[v.id].props[k], m[k])
  }

  /** Own-property lookup along a path, in the heap and in a tree. */
  function HeapGet(h: Heap, v: Value, path: seq<string>): Option<Value>
    decreases |path|
  {
    if |path| == 0 then Some(v)
    else if v.Ref? && v.id in h && path[0] in h[v.id].props then
      HeapGet(h, h[v.id].props[path[0]], path[1..])
    else None
  }

  function TreeGet(t: Tree, path: seq<string>): Option<Tree>
    decreases |path|
  {
    if |path| == 0 then Some(t)
    else if t.Node? && path[0] in t.fields then TreeGet(t.fields[path[0]], path[1..])
    else None
  }
}
