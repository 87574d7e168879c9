/** `ContextFilter._filterSingleKind`: which attributes are private, and the bookkeeping in
    `_meta` after the clone is made. */
module FilterSingleKind {
  import opened Base
  import opened JsValues
  import opened References
  import opened Sorting
  import opened ContextFilter
  import opened Redaction
  import opened RedactionList

  const PROTECTED: seq<AttributeReference> :=
    [Literal("key"), Literal("kind"), Literal("_meta"), Literal("anonymous")]

  const LEGACY_NAMES: seq<string> :=
    ["name", "ip", "firstName", "lastName", "email", "avatar", "country"]

  // ----- Which attributes are private -----

  predicate IsProtected(attr: AttributeReference) {
    exists p <- PROTECTED :: p.components == attr.components
  }

  function DropProtected(attrs: seq<AttributeReference>): (r: seq<AttributeReference>)
    ensures forall a <- attrs :: !IsProtected(a) ==> a in r
    ensures forall a <- r :: a in attrs && !IsProtected(a)
  {
    if |attrs| == 0 then []
    else if IsProtected(attrs[0]) then DropProtected(attrs[1..])
    else [attrs[0]] + DropProtected(attrs[1..])
  }

  function Literals(keys: seq<string>): (r: seq<AttributeReference>)
    ensures |r| == |keys| && forall i :: 0 <= i < |r| ==> r[i] == Literal(keys[i])
  {
    seq(|keys|, i requires 0 <= i < |keys| => Literal(keys[i]))
  }

  /** `_getAttributesToFilter`; `configured` and `own` are the private attributes of the
      configuration and of the context. */
  function AttributesToFilter(h: Heap, single: ObjectId, all: bool,
                              configured: seq<AttributeReference>, own: seq<AttributeReference>): seq<AttributeReference>
    requires single in h
  {
    DropProtected(if all then Literals(h[single].keys) else configured + own)
  }

  // ----- The bookkeeping, on trees -----

  function TreeString(t: Tree, str: Value -> string): string {
    match t
    case Leaf(v) => str(v)
    case Node(_) => "[object Object]"
  }

  /** Legacy users get these attributes as strings. */
  function Stringified(fields: map<string, Tree>, names: seq<string>, str: Value -> string): map<string, Tree> {
    if |names| == 0 then fields
    else Stringified(StringifiedAt(fields, names[0], str), names[1..], str)
  }

  function StringifiedAt(fields: map<string, Tree>, name: string, str: Value -> string): map<string, Tree> {
    if name in fields then fields[name := Leaf(Prim(Str(TreeString(fields[name], str))))] else fields
  }

  lemma StringifiedFrom(fields: map<string, Tree>, names: seq<string>, i: nat, str: Value -> string)
    requires i < |names|
    ensures Stringified(fields, names[i..], str) == Stringified(StringifiedAt(fields, names[i], str), names[i + 1..], str)
  {
    assert names[i..][1..] == names[i + 1..];
  }

  function NameList(names: seq<string>): Value {
    Array(seq(|names|, i requires 0 <= i < |names| => Prim(Str(names[i]))))
  }

  function MetaFields(fields: map<string, Tree>): map<string, Tree> {
    if "_meta" in fields && fields["_meta"].Node? then fields["_meta"].fields else map[]
  }

  predicate TruthyValue(v: Value) {
    match v
    case Undefined => false
    case Null => false
    case Prim(Bool(b)) => b
    case Prim(Str(s)) => s != ""
    case Prim(Num(n)) => n != 0.0
    case Array(_) => true
    case Ref(_) => true
  }

  /** Setting a property of a string, a number or `true` throws, in strict mode. */
  predicate RejectsProperties(v: Value) {
    v.Prim? && TruthyValue(v)
  }

  predicate MetaThrows(fields: map<string, Tree>) {
    "_meta" in fields && fields["_meta"].Leaf? && RejectsProperties(fields["_meta"].value)
  }

  predicate ArrayMeta(fields: map<string, Tree>) {
    "_meta" in fields && fields["_meta"].Leaf? && fields["_meta"].value.Array?
  }

  /** A property set on an array is not one of its elements, and JSON leaves it out. */
  function WithRedactions(fields: map<string, Tree>, redacted: seq<string>): map<string, Tree> {
    if |redacted| == 0 || ArrayMeta(fields) then fields
    else fields["_meta" := Node(MetaFields(fields)["redactedAttributes" := Leaf(NameList(redacted))])]
  }

  /** `Object.keys(_meta).length === 0` for a truthy `_meta` that is not an object; `listed` says
      whether an array has been given the list of redacted attributes. */
  predicate HasNoKeys(v: Value, listed: bool) {
    match v
    case Prim(Bool(b)) => b
    case Prim(Num(n)) => n != 0.0
    case Array(elements) => |elements| == 0 && !listed
    case _ => false
  }

  function WithoutPrivate(fields: map<string, Tree>, listed: bool): map<string, Tree> {
    if "_meta" in fields && fields["_meta"].Node? then
      var kept := fields["_meta"].fields - {"privateAttributes"};
      if kept == map[] then fields - {"_meta"} else fields["_meta" := Node(kept)]
    else if "_meta" in fields && HasNoKeys(fields["_meta"].value, listed) then fields - {"_meta"}
    else fields
  }

  function Filtered(fields: map<string, Tree>, redacted: seq<string>, legacy: bool, str: Value -> string): map<string, Tree> {
    WithoutPrivate(WithRedactions(if legacy then Stringified(fields, LEGACY_NAMES, str) else fields, redacted), |redacted| > 0)
  }

  // ----- The bookkeeping, in place -----

  ghost predicate Holds(nodes: Nodes, slot: Slot, t: Tree) {
    Fits(nodes, map[], slot, t)
  }

  function SlotString(slot: Slot, str: Value -> string): string {
    match slot
    case Copied(v) => str(v)
    case Child(_) => "[object Object]"
  }

  predicate Truthy(slot: Slot) {
    slot.Child? || TruthyValue(slot.value)
  }

  predicate HasMeta(nodes: Nodes)
    requires |nodes| > 0
  {
    "_meta" in nodes[0] && Truthy(nodes[0]["_meta"])
  }

  lemma HoldsChild(nodes: Nodes, c: nat, t: Tree)
    requires Holds(nodes, Child(c), t)
    ensures t.Node? && c < |nodes| && t.fields.Keys == nodes[c].Keys
    ensures forall k <- t.fields :: Holds(nodes, nodes[c][k], t.fields[k])
  {
  }

  /** Editing one object leaves alone every part of the clone that object is not in; the
      edited object is the clone itself or a property of it. */
  lemma {:induction false} HoldsElsewhere(nodes: Nodes, nodes': Nodes, edited: nat, slot: Slot, t: Tree)
    requires Tidy(nodes) && Holds(nodes, slot, t) && |nodes| <= |nodes'|
    requires forall i :: 0 <= i < |nodes| && i != edited ==> nodes'[i] == nodes[i]
    requires forall i: nat, k :: IsChild(nodes, i, k, edited) ==> i == 0
    requires slot != Child(edited) && slot != Child(0)
    ensures Holds(nodes', slot, t)
    decreases t
  {
    if t.Node? {
      forall k | k in t.fields
        ensures k in nodes[slot.id] && Holds(nodes', nodes[slot.id][k], t.fields[k])
      {
        var child := nodes[slot.id][k];
        assert child.Child? ==> IsChild(nodes, slot.id, k, child.id);
        HoldsElsewhere(nodes, nodes', edited, child, t.fields[k]);
      }
    }
  }

  /** Editing properties of the clone itself. */
  lemma EditRoot(nodes: Nodes, nodes': Nodes, m: map<string, Tree>, m': map<string, Tree>)
    requires Tidy(nodes) && 0 < |nodes| <= |nodes'| && Holds(nodes, Child(0), Node(m))
    requires forall i :: 0 < i < |nodes| ==> nodes'[i] == nodes[i]
    requires m'.Keys == nodes'[0].Keys
    requires forall k <- m' :: (k in m && nodes'[0][k] == nodes[0][k] && m'[k] == m[k]) || Holds(nodes', nodes'[0][k], m'[k])
    ensures Holds(nodes', Child(0), Node(m'))
  {
    assert forall i: nat, k :: !IsChild(nodes, i, k, 0);
    forall k | k in m'
      ensures Holds(nodes', nodes'[0][k], m'[k])
    {
      if k in m && nodes'[0][k] == nodes[0][k] && m'[k] == m[k] {
        assert nodes[0][k] != Child(0) by {
          assert !IsChild(nodes, 0, k, 0);
        }
        HoldsElsewhere(nodes, nodes', 0, nodes[0][k], m[k]);
      }
    }
  }

  /** Editing properties of `_meta`. */
  lemma EditMeta(nodes: Nodes, c: nat, edited: map<string, Slot>, m: map<string, Tree>, f': map<string, Tree>)
    requires Tidy(nodes) && |nodes| > 0 && Holds(nodes, Child(0), Node(m)) && IsChild(nodes, 0, "_meta", c)
    requires m["_meta"].Node? && f'.Keys == edited.Keys
    requires forall k <- f' :: var f := m["_meta"].fields;
               (k in f && k in nodes[c] && edited[k] == nodes[c][k] && f'[k] == f[k]) || (f'[k].Leaf? && edited[k] == Copied(f'[k].value))
    ensures Holds(nodes[c := edited], Child(0), Node(m["_meta" := Node(f')]))
  {
    var nodes' := nodes[c := edited];
    assert forall i: nat, k :: IsChild(nodes, i, k, c) ==> i == 0 && k == "_meta";
    assert Holds(nodes, Child(c), m["_meta"]);
    forall k | k in f'
      ensures Holds(nodes', edited[k], f'[k])
    {
      var f := m["_meta"].fields;
      if k in f && k in nodes[c] && edited[k] == nodes[c][k] && f'[k] == f[k] {
        var s := nodes[c][k];
        assert s.Child? ==> IsChild(nodes, c, k, s.id);
        HoldsElsewhere(nodes, nodes', c, s, f[k]);
      }
    }
    forall k | k in m && k != "_meta"
      ensures Holds(nodes', nodes[0][k], m[k])
    {
      var s := nodes[0][k];
      assert s.Child? ==> IsChild(nodes, 0, k, s.id);
      HoldsElsewhere(nodes, nodes', c, s, m[k]);
    }
  }

  // ----- The method -----

  /** The legacy copies leave `_meta` alone. */
  predicate SameMeta(nodes0: Nodes, nodes: Nodes)
    requires |nodes0| > 0 && |nodes| > 0
  {
    && ("_meta" in nodes[0] <==> "_meta" in nodes0[0])
    && ("_meta" in nodes[0] ==> nodes[0]["_meta"] == nodes0[0]["_meta"])
  }

  /** `cloned[name] = String(cloned[name])`. */
  lemma CopyLegacyAt(nodes: Nodes, m: map<string, Tree>, name: string, str: Value -> string)
    requires |nodes| > 0 && Tidy(nodes) && Holds(nodes, Child(0), Node(m)) && name in nodes[0]
    ensures var nodes' := nodes[0 := nodes[0][name := Copied(Prim(Str(SlotString(nodes[0][name], str))))]];
            Tidy(nodes') && Holds(nodes', Child(0), Node(StringifiedAt(m, name, str)))
  {
    HoldsChild(nodes, 0, Node(m));
    var v := Prim(Str(SlotString(nodes[0][name], str)));
    var nodes' := nodes[0 := nodes[0][name := Copied(v)]];
    assert TreeString(m[name], str) == SlotString(nodes[0][name], str);
    TidyCopy(nodes, 0, name, v);
    EditRoot(nodes, nodes', m, m[name := Leaf(v)]);
  }

  /** `String(cloned[name])` for the legacy attributes that are present. */
  method CopyLegacy(nodes0: Nodes, ghost m0: map<string, Tree>, str: Value -> string) returns (nodes: Nodes)
    requires |nodes0| > 0 && Tidy(nodes0) && Holds(nodes0, Child(0), Node(m0))
    ensures |nodes| > 0 && SameMeta(nodes0, nodes)
    ensures Tidy(nodes) && Holds(nodes, Child(0), Node(Stringified(m0, LEGACY_NAMES, str)))
  {
    nodes := nodes0;
    ghost var m := m0;
    var i := 0;
    while i < |LEGACY_NAMES|
      invariant 0 <= i <= |LEGACY_NAMES| && |nodes| > 0 && SameMeta(nodes0, nodes)
      invariant Tidy(nodes) && Holds(nodes, Child(0), Node(m))
      invariant Stringified(m, LEGACY_NAMES[i..], str) == Stringified(m0, LEGACY_NAMES, str)
    {
      var name := LEGACY_NAMES[i];
      StringifiedFrom(m, LEGACY_NAMES, i, str);
      HoldsChild(nodes, 0, Node(m));
      if name in nodes[0] {
        CopyLegacyAt(nodes, m, name, str);
        nodes := nodes[0 := nodes[0][name := Copied(Prim(Str(SlotString(nodes[0][name], str))))]];
      }
      m := StringifiedAt(m, name, str);
      i := i + 1;
    }
  }

  lemma MetaIff(nodes: Nodes, m: map<string, Tree>)
    requires |nodes| > 0 && Holds(nodes, Child(0), Node(m))
    ensures "_meta" in nodes[0] <==> "_meta" in m
    ensures "_meta" in m ==> Holds(nodes, nodes[0]["_meta"], m["_meta"])
    ensures "_meta" in m ==> if m["_meta"].Node? then nodes[0]["_meta"].Child? else nodes[0]["_meta"] == Copied(m["_meta"].value)
  {
    HoldsChild(nodes, 0, Node(m));
  }

  /** `if (!cloned._meta) cloned._meta = {}`. */
  method MakeMeta(nodes0: Nodes, ghost m0: map<string, Tree>) returns (nodes: Nodes)
    requires |nodes0| > 0 && Tidy(nodes0) && Holds(nodes0, Child(0), Node(m0))
    requires HasMeta(nodes0) ==> nodes0[0]["_meta"].Child?
    ensures |nodes| > 0 && Tidy(nodes) && Holds(nodes, Child(0), Node(m0["_meta" := Node(MetaFields(m0))]))
    ensures "_meta" in nodes[0] && nodes[0]["_meta"].Child?
  {
    nodes := nodes0;
    MetaIff(nodes, m0);
    if !HasMeta(nodes) {
      TidyOpen(nodes, 0, "_meta");
      nodes := nodes[0 := nodes[0]["_meta" := Child(|nodes|)]] + [map[]];
      HoldsChild(nodes0, 0, Node(m0));
      EditRoot(nodes0, nodes, m0, m0["_meta" := Node(map[])]);
    } else {
      assert m0 == m0["_meta" := Node(MetaFields(m0))];
    }
  }

  /** `_meta.redactedAttributes = excluded`, on a `_meta` made for it when there is none; throws
      when `_meta` takes no properties. */
  method AddRedactions(nodes0: Nodes, ghost m0: map<string, Tree>, redacted: seq<string>) returns (nodes: Nodes, threw: bool)
    requires |nodes0| > 0 && Tidy(nodes0) && Holds(nodes0, Child(0), Node(m0))
    requires "_meta" in m0 && m0["_meta"].Leaf? ==> !m0["_meta"].value.Ref?
    ensures threw <==> |redacted| > 0 && MetaThrows(m0)
    ensures !threw ==> |nodes| > 0 && Tidy(nodes) && Holds(nodes, Child(0), Node(WithRedactions(m0, redacted)))
  {
    nodes, threw := nodes0, false;
    MetaIff(nodes, m0);
    if |redacted| > 0 {
      if HasMeta(nodes) && nodes[0]["_meta"].Copied? {
        threw := !nodes[0]["_meta"].value.Array?;
        return;
      }
      nodes := MakeMeta(nodes, m0);
      nodes := InstallList(nodes, m0, redacted);
    }
  }

  method InstallList(nodes0: Nodes, ghost m0: map<string, Tree>, redacted: seq<string>) returns (nodes: Nodes)
    requires |nodes0| > 0 && Tidy(nodes0) && Holds(nodes0, Child(0), Node(m0["_meta" := Node(MetaFields(m0))]))
    requires "_meta" in nodes0[0] && nodes0[0]["_meta"].Child?
    ensures |nodes| > 0 && Tidy(nodes)
    ensures Holds(nodes, Child(0), Node(m0["_meta" := Node(MetaFields(m0)["redactedAttributes" := Leaf(NameList(redacted))])]))
  {
    var c, list := nodes0[0]["_meta"].id, NameList(redacted);
    ghost var m := m0["_meta" := Node(MetaFields(m0))];
    HoldsChild(nodes0, 0, Node(m));
    HoldsChild(nodes0, c, m["_meta"]);
    assert IsChild(nodes0, 0, "_meta", c);
    ghost var f := MetaFields(m0)["redactedAttributes" := Leaf(list)];
    EditMeta(nodes0, c, nodes0[c]["redactedAttributes" := Copied(list)], m, f);
    TidyCopy(nodes0, c, "redactedAttributes", list);
    assert m["_meta" := Node(f)] == m0["_meta" := Node(f)];
    nodes := nodes0[c := nodes0[c]["redactedAttributes" := Copied(list)]];
  }

  lemma TidyDelete(nodes: Nodes, i: nat, key: string)
    requires Tidy(nodes) && i < |nodes|
    ensures Tidy(nodes[i := nodes[i] - {key}])
  {
    var nodes' := nodes[i := nodes[i] - {key}];
    assert |nodes'| == |nodes|;
    assert forall j: nat, k, c: nat :: IsChild(nodes', j, k, c) ==> IsChild(nodes, j, k, c);
  }

  /** `delete cloned._meta` */
  method DeleteMeta(nodes0: Nodes, ghost m0: map<string, Tree>) returns (nodes: Nodes)
    requires |nodes0| > 0 && Tidy(nodes0) && Holds(nodes0, Child(0), Node(m0))
    ensures |nodes| > 0 && Tidy(nodes) && Holds(nodes, Child(0), Node(m0 - {"_meta"}))
  {
    HoldsChild(nodes0, 0, Node(m0));
    TidyDelete(nodes0, 0, "_meta");
    nodes := nodes0[0 := nodes0[0] - {"_meta"}];
    EditRoot(nodes0, nodes, m0, m0 - {"_meta"});
  }

  /** `delete cloned._meta.privateAttributes`, and `_meta` itself when nothing is left. */
  method DropPrivateList(nodes0: Nodes, ghost m0: map<string, Tree>, listed: bool) returns (nodes: Nodes)
    requires |nodes0| > 0 && Tidy(nodes0) && Holds(nodes0, Child(0), Node(m0))
    ensures |nodes| > 0 && Tidy(nodes) && Holds(nodes, Child(0), Node(WithoutPrivate(m0, listed)))
  {
    nodes := nodes0;
    MetaIff(nodes, m0);
    if HasMeta(nodes) && nodes[0]["_meta"].Child? {
      var c := nodes[0]["_meta"].id;
      HoldsChild(nodes, 0, Node(m0));
      HoldsChild(nodes, c, m0["_meta"]);
      ghost var f := m0["_meta"].fields - {"privateAttributes"};
      assert IsChild(nodes, 0, "_meta", c);
      EditMeta(nodes, c, nodes[c] - {"privateAttributes"}, m0, f);
      TidyDelete(nodes, c, "privateAttributes");
      nodes := nodes[c := nodes[c] - {"privateAttributes"}];
      assert f == map[] <==> nodes[c] == map[] by { assert f.Keys == nodes[c].Keys; }
      if nodes[c] == map[] {
        nodes := DeleteMeta(nodes, m0["_meta" := Node(f)]);
        assert m0["_meta" := Node(f)] - {"_meta"} == m0 - {"_meta"};
      }
    } else if HasMeta(nodes) && HasNoKeys(nodes[0]["_meta"].value, listed) {
      nodes := DeleteMeta(nodes, m0);
    }
  }

  /** The `_meta` of the clone, which is never redacted: a copy, or what it was. */
  lemma ClonedMeta(h: Heap, single: ObjectId, all: bool, configured: seq<AttributeReference>, own: seq<AttributeReference>)
    requires WellFormed(h) && single in h
    ensures var fields := WalkContext(h, AttributesToFilter(h, single, all, configured, own), single).fields;
      && ("_meta" in fields && fields["_meta"].Leaf? ==>
            "_meta" in h[single].props && !h[single].props["_meta"].Ref? && fields["_meta"].value == h[single].props["_meta"])
      && ("_meta" in h[single].props && !h[single].props["_meta"].Ref? ==> "_meta" in fields && fields["_meta"].Leaf?)
  {
    ProtectedNeverMatches(h, single, all, configured, own, "_meta");
    WalkFieldsContent(h, AttributesToFilter(h, single, all, configured, own), single, h[single].keys, [], {single});
    assert [] + ["_meta"] == ["_meta"];
  }

  /** A non-empty string, a number other than 0, or `true`. */
  predicate IsTruthyPrimitive(v: Value) {
    v.Prim? && v.p != Str("") && v.p != Num(0.0) && v.p != Bool(false)
  }

  /** Nothing is done to `_meta`, and an exception thrown, exactly then. */
  lemma ClonedMetaThrows(h: Heap, single: ObjectId, all: bool, configured: seq<AttributeReference>, own: seq<AttributeReference>)
    requires WellFormed(h) && single in h
    ensures MetaThrows(WalkContext(h, AttributesToFilter(h, single, all, configured, own), single).fields) <==>
              "_meta" in h[single].props && IsTruthyPrimitive(h[single].props["_meta"])
  {
    ClonedMeta(h, single, all, configured, own);
  }

  /** `_filterSingleKind`; also returns the list of redacted attributes it installs. It throws
      exactly when something is redacted and `_meta` is a string, a number or `true`. */
  method Filter(h: Heap, single: ObjectId, allPrivate: bool, redactAnonymous: bool,
                configured: seq<AttributeReference>, own: seq<AttributeReference>,
                legacy: bool, str: Value -> string) returns (nodes: Nodes, redacted: seq<string>, threw: bool)
    requires WellFormed(h) && single in h
    ensures var all := allPrivate || (redactAnonymous && "anonymous" in h[single].props
                                      && h[single].props["anonymous"] == Prim(Bool(true)));
            var w := WalkContext(h, AttributesToFilter(h, single, all, configured, own), single);
            && Sorted(redacted) && multiset(redacted) == w.excluded
            && (threw <==> |redacted| > 0 && "_meta" in h[single].props && IsTruthyPrimitive(h[single].props["_meta"]))
            && (!threw ==> Holds(nodes, Child(0), Node(Filtered(w.fields, redacted, legacy, str))))
            && (!threw ==> Answers(h, single, all, configured + own, legacy, str, nodes))
            && Lists(h, single, all, configured + own, redacted)
  {
    var all := allPrivate || (redactAnonymous && "anonymous" in h[single].props
                              && h[single].props["anonymous"] == Prim(Bool(true)));
    var refs := AttributesToFilter(h, single, all, configured, own);
    ghost var m := WalkContext(h, refs, single).fields;
    nodes, redacted := CloneWithRedactions(h, single, refs);
    FilterLists(h, single, all, configured, own, redacted);
    HoldsChild(nodes, 0, Node(m));
    ClonedMeta(h, single, all, configured, own);
    ClonedMetaThrows(h, single, all, configured, own);
    if legacy {
      StringifiedElsewhere(m, LEGACY_NAMES, str, "_meta");
      nodes := CopyLegacy(nodes, m, str);
      m := Stringified(m, LEGACY_NAMES, str);
    }
    nodes, threw := AddRedactions(nodes, m, redacted);
    if threw { return; }
    m := WithRedactions(m, redacted);
    nodes := DropPrivateList(nodes, m, |redacted| > 0);
    FilterAnswers(h, single, all, configured, own, redacted, legacy, str, nodes);
  }

  // ----- What the bookkeeping guarantees -----

  lemma ProtectedIff(attr: AttributeReference)
    ensures IsProtected(attr) <==> attr.components in [["key"], ["kind"], ["_meta"], ["anonymous"]]
  {
    assert PROTECTED == [Literal("key"), Literal("kind"), Literal("_meta"), Literal("anonymous")];
  }

  lemma ProtectedNeverMatches(h: Heap, single: ObjectId, all: bool, configured: seq<AttributeReference>,
                              own: seq<AttributeReference>, k: string)
    requires single in h && k in ["key", "kind", "_meta", "anonymous"]
    ensures FirstMatch(AttributesToFilter(h, single, all, configured, own), [k]).None?
  {
    forall r | r in AttributesToFilter(h, single, all, configured, own)
      ensures r.components != [k]
    {
      ProtectedIff(r);
    }
  }

  lemma {:induction false} StringifiedElsewhere(fields: map<string, Tree>, names: seq<string>, str: Value -> string, k: string)
    requires k !in names
    ensures k in Stringified(fields, names, str) <==> k in fields
    ensures k in fields ==> Stringified(fields, names, str)[k] == fields[k]
  {
    if |names| > 0 {
      StringifiedElsewhere(StringifiedAt(fields, names[0], str), names[1..], str, k);
    }
  }

  lemma FilteredElsewhere(fields: map<string, Tree>, redacted: seq<string>, legacy: bool, str: Value -> string, k: string)
    requires k !in LEGACY_NAMES && k != "_meta"
    ensures k in Filtered(fields, redacted, legacy, str) <==> k in fields
    ensures k in fields ==> Filtered(fields, redacted, legacy, str)[k] == fields[k]
  {
    StringifiedElsewhere(fields, LEGACY_NAMES, str, k);
  }

  lemma UnmatchedIsCopied(h: Heap, refs: seq<AttributeReference>, single: ObjectId, k: string)
    requires WellFormed(h) && single in h && k in h[single].props && !h[single].props[k].Ref?
    requires FirstMatch(refs, [k]).None?
    ensures var fields := WalkContext(h, refs, single).fields;
            k in fields && fields[k] == Leaf(h[single].props[k])
  {
    WalkFieldsContent(h, refs, single, h[single].keys, [], {single});
    assert [] + [k] == [k];
  }

  /** Whatever is configured, `key`, `kind` and `anonymous` come through unchanged. */
  lemma ProtectedSurvive(h: Heap, single: ObjectId, all: bool, configured: seq<AttributeReference>,
                         own: seq<AttributeReference>, redacted: seq<string>, legacy: bool, str: Value -> string, k: string)
    requires WellFormed(h) && single in h && k in ["key", "kind", "anonymous"]
    requires k in h[single].props && !h[single].props[k].Ref?
    ensures var fields := WalkContext(h, AttributesToFilter(h, single, all, configured, own), single).fields;
            var r := Filtered(fields, redacted, legacy, str);
            k in r && r[k] == Leaf(h[single].props[k])
  {
    var refs := AttributesToFilter(h, single, all, configured, own);
    var fields := WalkContext(h, refs, single).fields;
    ProtectedNeverMatches(h, single, all, configured, own, k);
    UnmatchedIsCopied(h, refs, single, k);
    FilteredElsewhere(fields, redacted, legacy, str, k);
  }

  /** In the result an object `_meta` is never empty and never lists private attributes; it
      lists the redacted ones whenever there are any, unless `_meta` was an array, and otherwise
      is what it was. */
  lemma MetaBookkeeping(fields: map<string, Tree>, redacted: seq<string>, legacy: bool, str: Value -> string)
    ensures var r := Filtered(fields, redacted, legacy, str);
            && ("_meta" in r && r["_meta"].Node? ==> r["_meta"].fields != map[] && "privateAttributes" !in r["_meta"].fields)
            && (|redacted| > 0 && !ArrayMeta(fields) ==>
                  && MetaFields(r) == MetaFields(fields)["redactedAttributes" := Leaf(NameList(redacted))] - {"privateAttributes"}
                  && "redactedAttributes" in MetaFields(r)
                  && var listed := MetaFields(r)["redactedAttributes"];
                    listed.Leaf? && listed.value.Array? && |listed.value.elements| == |redacted|
                    && forall i :: 0 <= i < |redacted| ==> listed.value.elements[i] == Prim(Str(redacted[i])))
            && (|redacted| == 0 ==> MetaFields(r) == MetaFields(fields) - {"privateAttributes"})
  {
    StringifiedElsewhere(fields, LEGACY_NAMES, str, "_meta");
    var base := if legacy then Stringified(fields, LEGACY_NAMES, str) else fields;
    assert MetaFields(base) == MetaFields(fields) && (ArrayMeta(base) <==> ArrayMeta(fields));
    var marked := WithRedactions(base, redacted);
    if |redacted| > 0 && !ArrayMeta(fields) {
      var f := MetaFields(fields)["redactedAttributes" := Leaf(NameList(redacted))];
      assert MetaFields(marked) == f && "redactedAttributes" in f - {"privateAttributes"};
    }
  }

  /** A `_meta` that is no object stays in the result exactly when it is a non-empty string, an
      array with elements or with the list, or, nothing being redacted, falsy. */
  lemma OddMetaStaysIff(fields: map<string, Tree>, redacted: seq<string>, legacy: bool, str: Value -> string)
    requires !(|redacted| > 0 && MetaThrows(fields))
    requires "_meta" in fields && fields["_meta"].Leaf? && !fields["_meta"].value.Ref?
    ensures var r, v := Filtered(fields, redacted, legacy, str), fields["_meta"].value;
      ("_meta" in r && r["_meta"] == Leaf(v)) <==>
        || (v.Prim? && v.p.Str? && v.p.s != "")
        || (v.Array? && (|v.elements| > 0 || |redacted| > 0))
        || (v in {Undefined, Null, Prim(Bool(false)), Prim(Str("")), Prim(Num(0.0))} && |redacted| == 0)
  {
    StringifiedElsewhere(fields, LEGACY_NAMES, str, "_meta");
  }

  /** The redaction names of the unprotected ones among `keys`. */
  ghost function UnprotectedNames(keys: seq<string>): multiset<string> {
    if |keys| == 0 then multiset{}
    else (if IsProtected(Literal(keys[0])) then multiset{} else multiset{Literal(keys[0]).redactionName})
         + UnprotectedNames(keys[1..])
  }

  predicate TopLevelOnly(refs: seq<AttributeReference>) {
    forall r <- refs :: |r.components| == 1
  }

  lemma {:induction false} NothingBelow(h: Heap, refs: seq<AttributeReference>, id: ObjectId, keys: seq<string>,
                                        ptr: seq<string>, branch: set<ObjectId>)
    requires WellFormed(h) && id in h && (forall k <- keys :: k in h[id].props)
    requires TopLevelOnly(refs) && |ptr| > 0
    ensures WalkFields(h, refs, id, keys, ptr, branch).excluded == multiset{}
    decreases h.Keys - branch, |keys|
  {
    if |keys| > 0 {
      NothingBelow(h, refs, id, keys[1..], ptr, branch);
      NothingBelowValue(h, refs, h[id].props[keys[0]], ptr + [keys[0]], branch);
    }
  }

  lemma {:induction false} NothingBelowValue(h: Heap, refs: seq<AttributeReference>, v: Value, ptr: seq<string>, branch: set<ObjectId>)
    requires WellFormed(h) && (v.Ref? ==> v.id in h)
    requires TopLevelOnly(refs) && |ptr| > 0 && (|ptr| == 1 ==> FirstMatch(refs, ptr).None?)
    ensures Walk(h, refs, v, ptr, branch).excluded == multiset{}
    decreases h.Keys - branch, 0
  {
    if v.Ref? && v.id !in branch {
      NothingBelow(h, refs, v.id, h[v.id].keys, ptr, branch + {v.id});
    }
  }

  /** With all attributes private, the references are the unprotected top-level keys. */
  lemma AllPrivateMatch(h: Heap, single: ObjectId, refs: seq<AttributeReference>, k: string)
    requires single in h && refs == AttributesToFilter(h, single, true, [], []) && k in h[single].keys
    ensures TopLevelOnly(refs)
    ensures FirstMatch(refs, [k]) == if IsProtected(Literal(k)) then None else Some(Literal(k))
  {
    var all := Literals(h[single].keys);
    var i :| 0 <= i < |h[single].keys| && h[single].keys[i] == k;
    assert all[i] == Literal(k);
    ProtectedIff(Literal(k));
    forall r | r in refs
      ensures |r.components| == 1 && !IsProtected(r) && r == Literal(r.components[0])
    {
      var j :| 0 <= j < |all| && all[j] == r;
    }
    assert FirstMatch(refs, [k]).Some? ==> FirstMatch(refs, [k]).value in refs;
    if !IsProtected(Literal(k)) {
      assert Literal(k) in refs;
    }
  }

  lemma {:induction false} AllPrivateWalk(h: Heap, refs: seq<AttributeReference>, single: ObjectId, keys: seq<string>)
    requires WellFormed(h) && single in h && (forall k <- keys :: k in h[single].keys)
    requires refs == AttributesToFilter(h, single, true, [], [])
    ensures WalkFields(h, refs, single, keys, [], {single}).excluded == UnprotectedNames(keys)
    ensures forall k <- WalkFields(h, refs, single, keys, [], {single}).fields :: IsProtected(Literal(k))
  {
    if |keys| > 0 {
      var k := keys[0];
      AllPrivateWalk(h, refs, single, keys[1..]);
      AllPrivateMatch(h, single, refs, k);
      assert [] + [k] == [k];
      if IsProtected(Literal(k)) {
        NothingBelowValue(h, refs, h[single].props[k], [k], {single});
      }
    }
  }

  /** With all attributes private, every unprotected top-level attribute is gone from the
      result, and the list of redacted attributes names exactly those, each once. */
  lemma AllPrivate(h: Heap, single: ObjectId, configured: seq<AttributeReference>, own: seq<AttributeReference>,
                   redacted: seq<string>, legacy: bool, str: Value -> string)
    requires WellFormed(h) && single in h
    ensures var w := WalkContext(h, AttributesToFilter(h, single, true, configured, own), single);
            && w.excluded == UnprotectedNames(h[single].keys)
            && forall k <- Filtered(w.fields, redacted, legacy, str) :: IsProtected(Literal(k))
  {
    var refs := AttributesToFilter(h, single, true, [], []);
    assert AttributesToFilter(h, single, true, configured, own) == refs;
    var w := WalkContext(h, refs, single);
    AllPrivateWalk(h, refs, single, h[single].keys);
    FilteredKeys(w.fields, redacted, legacy, str);
    ProtectedIff(Literal("_meta"));
  }

  lemma FilteredKeys(fields: map<string, Tree>, redacted: seq<string>, legacy: bool, str: Value -> string)
    ensures Filtered(fields, redacted, legacy, str).Keys <= fields.Keys + {"_meta"}
  {
    StringifiedKeys(fields, LEGACY_NAMES, str);
  }

  lemma {:induction false} StringifiedKeys(fields: map<string, Tree>, names: seq<string>, str: Value -> string)
    ensures Stringified(fields, names, str).Keys == fields.Keys
  {
    if |names| > 0 {
      StringifiedKeys(StringifiedAt(fields, names[0], str), names[1..], str);
    }
  }

  // ----- What the result has and what it lists, by the private attributes given -----

  /** The reference takes the path, or something the path goes through, out of the context. */
  predicate Hides(r: AttributeReference, path: seq<string>) {
    && 0 < |r.components| && r.components <= path
    && r.components !in {["key"], ["kind"], ["_meta"], ["anonymous"]}
  }

  /** The path is private: with all attributes private, every top-level one but the protected;
      otherwise what the configuration and the context name. */
  predicate Hidden(h: Heap, single: ObjectId, all: bool, given: seq<AttributeReference>, path: seq<string>)
    requires single in h
  {
    if all then |path| > 0 && path[0] in h[single].keys && path[0] !in {"key", "kind", "_meta", "anonymous"}
    else exists r <- given :: Hides(r, path)
  }

  lemma LiteralHides(h: Heap, single: ObjectId, path: seq<string>)
    requires single in h
    ensures (exists r <- AttributesToFilter(h, single, true, [], []) :: Between([], r.components, path)) <==>
              Hidden(h, single, true, [], path)
  {
    var keys := h[single].keys;
    var refs := AttributesToFilter(h, single, true, [], []);
    assert [] + path == path;
    forall r | r in refs && Between([], r.components, path) ensures Hidden(h, single, true, [], path) {
      var i :| 0 <= i < |keys| && Literals(keys)[i] == r;
      assert r.components == [keys[i]] && path[0] == keys[i];
      UnprotectedLiteral(path[0]);
    }
    if Hidden(h, single, true, [], path) {
      var r := Literal(path[0]);
      UnprotectedLiteral(path[0]);
      var i :| 0 <= i < |keys| && keys[i] == path[0];
      assert Literals(keys)[i] == r;
      assert r in refs && Between([], r.components, path);
    }
  }

  lemma UnprotectedLiteral(k: string)
    ensures IsProtected(Literal(k)) <==> k in {"key", "kind", "_meta", "anonymous"}
  {
    ProtectedIff(Literal(k));
    SingletonEqual(k, "key");
    SingletonEqual(k, "kind");
    SingletonEqual(k, "_meta");
    SingletonEqual(k, "anonymous");
  }

  lemma SingletonEqual(a: string, b: string)
    ensures [a] == [b] <==> a == b
  {
    if [a] == [b] { assert [a][0] == [b][0]; }
  }

  /** A path is redacted exactly when it is private. */
  lemma HiddenIff(h: Heap, single: ObjectId, all: bool, configured: seq<AttributeReference>, own: seq<AttributeReference>, path: seq<string>)
    requires single in h
    ensures Redacts(AttributesToFilter(h, single, all, configured, own), [], path) <==> Hidden(h, single, all, configured + own, path)
  {
    var refs := AttributesToFilter(h, single, all, configured, own);
    RedactsIff(refs, [], path);
    if all {
      assert refs == AttributesToFilter(h, single, true, [], []);
      LiteralHides(h, single, path);
    } else {
      assert [] + path == path;
      forall r: AttributeReference ensures r in refs && Between([], r.components, path) <==> r in configured + own && Hides(r, path) {
        ProtectedIff(r);
      }
    }
  }

  /** What the context has at a path, not private and not inside itself again. */
  predicate Visible(h: Heap, single: ObjectId, all: bool, given: seq<AttributeReference>, path: seq<string>)
    requires single in h
  {
    HeapGet(h, Ref(single), path).Some? && !Hidden(h, single, all, given, path) && !Repeats(h, single, {single}, path)
  }

  /** Untouched by the bookkeeping: neither `_meta` itself nor its two lists, nor what a legacy
      user has as strings. */
  predicate Ordinary(path: seq<string>, legacy: bool) {
    && |path| > 0
    && if path[0] == "_meta" then |path| > 1 && path[1] !in {"privateAttributes", "redactedAttributes"}
       else legacy ==> path[0] !in {"name", "ip", "firstName", "lastName", "email", "avatar", "country"}
  }

  lemma {:induction false} KeptLeaf(h: Heap, refs: seq<AttributeReference>, id: ObjectId, ptr: seq<string>, branch: set<ObjectId>,
                                    path: seq<string>)
    requires WellFormed(h) && id in h && TreeGet(Copy(h, refs, id, ptr, branch), path).Some?
    requires HeapGet(h, Ref(id), path).Some? && !HeapGet(h, Ref(id), path).value.Ref?
    ensures TreeGet(Copy(h, refs, id, ptr, branch), path) == Some(Leaf(HeapGet(h, Ref(id), path).value))
    decreases |path|
  {
    var k := path[0];
    FieldOf(h, refs, id, ptr, branch, k);
    LookupStep(h, id, Copy(h, refs, id, ptr, branch).fields, path);
    var v := h[id].props[k];
    if v.Ref? { KeptLeaf(h, refs, v.id, ptr + [k], branch + {v.id}, path[1..]); } else { LeafGet(h, v, path[1..]); }
  }

  lemma OrdinaryStays(fields: map<string, Tree>, redacted: seq<string>, legacy: bool, str: Value -> string, path: seq<string>)
    requires Ordinary(path, legacy)
    ensures TreeGet(Node(Filtered(fields, redacted, legacy, str)), path) == TreeGet(Node(fields), path)
  {
    assert legacy && path[0] != "_meta" ==> path[0] !in LEGACY_NAMES;
    if path[0] == "_meta" {
      MetaBookkeeping(fields, redacted, legacy, str);
      StringifiedElsewhere(fields, LEGACY_NAMES, str, "_meta");
      MetaLookup(fields, path);
      MetaLookup(Filtered(fields, redacted, legacy, str), path);
    } else if legacy {
      StringifiedElsewhere(fields, LEGACY_NAMES, str, path[0]);
    }
  }

  lemma MetaLookup(fields: map<string, Tree>, path: seq<string>)
    requires |path| > 1 && path[0] == "_meta"
    ensures TreeGet(Node(fields), path) == TreeGet(Node(MetaFields(fields)), path[1..])
  {
  }

  /** An ordinary path is in the result exactly when it is visible, with its value if that is no
      object. */
  lemma ResultIff(h: Heap, single: ObjectId, all: bool, configured: seq<AttributeReference>, own: seq<AttributeReference>,
                  redacted: seq<string>, legacy: bool, str: Value -> string, path: seq<string>)
    requires WellFormed(h) && single in h && Ordinary(path, legacy)
    ensures var r := Node(Filtered(WalkContext(h, AttributesToFilter(h, single, all, configured, own), single).fields, redacted, legacy, str));
      && (TreeGet(r, path).Some? <==> Visible(h, single, all, configured + own, path))
      && (TreeGet(r, path).Some? ==>
            var v := HeapGet(h, Ref(single), path).value; !v.Ref? ==> TreeGet(r, path) == Some(Leaf(v)))
  {
    var refs := AttributesToFilter(h, single, all, configured, own);
    HiddenIff(h, single, all, configured, own, path);
    KeptIff(h, refs, single, [], {single}, path);
    OrdinaryStays(WalkContext(h, refs, single).fields, redacted, legacy, str, path);
    if Visible(h, single, all, configured + own, path) && !HeapGet(h, Ref(single), path).value.Ref? {
      KeptLeaf(h, refs, single, [], {single}, path);
    }
  }

  lemma {:induction false} StringifiedHere(fields: map<string, Tree>, names: seq<string>, str: Value -> string, k: string)
    requires Distinct(names) && k in names
    ensures k in Stringified(fields, names, str) <==> k in fields
    ensures k in fields ==> Stringified(fields, names, str)[k] == Leaf(Prim(Str(TreeString(fields[k], str))))
  {
    if k == names[0] {
      StringifiedElsewhere(StringifiedAt(fields, k, str), names[1..], str, k);
    } else {
      StringifiedHere(StringifiedAt(fields, names[0], str), names[1..], str, k);
    }
  }

  /** What a legacy user has under these names comes out as a string. */
  lemma LegacyStrings(h: Heap, single: ObjectId, all: bool, configured: seq<AttributeReference>, own: seq<AttributeReference>,
                      redacted: seq<string>, str: Value -> string, k: string)
    requires WellFormed(h) && single in h && k in {"name", "ip", "firstName", "lastName", "email", "avatar", "country"}
    ensures var r := Filtered(WalkContext(h, AttributesToFilter(h, single, all, configured, own), single).fields, redacted, true, str);
      && (k in r <==> Visible(h, single, all, configured + own, [k]))
      && (k in r ==> var v := HeapGet(h, Ref(single), [k]).value;
            r[k] == Leaf(Prim(Str(if v.Ref? then "[object Object]" else str(v)))))
  {
    var refs := AttributesToFilter(h, single, all, configured, own);
    var fields := WalkContext(h, refs, single).fields;
    HiddenIff(h, single, all, configured, own, [k]);
    FieldVisible(h, refs, single, k);
    LegacyName(k);
    LegacyNamesDistinct();
    LegacyField(fields, redacted, str, k);
    TopLevelValue(h, single, k);
  }

  lemma TopLevelValue(h: Heap, single: ObjectId, k: string)
    requires WellFormed(h) && single in h
    ensures HeapGet(h, Ref(single), [k]) == if k in h[single].props then Some(h[single].props[k]) else None
  {
    if k in h[single].props { assert HeapGet(h, h[single].props[k], [k][1..]) == Some(h[single].props[k]); }
  }

  lemma FieldVisible(h: Heap, refs: seq<AttributeReference>, single: ObjectId, k: string)
    requires WellFormed(h) && single in h
    ensures var fields := WalkContext(h, refs, single).fields;
      && (k in fields <==> HeapGet(h, Ref(single), [k]).Some? && !Redacts(refs, [], [k]) && !Repeats(h, single, {single}, [k]))
      && (k in fields ==> k in h[single].props && if h[single].props[k].Ref? then fields[k].Node? else fields[k] == Leaf(h[single].props[k]))
  {
    KeptIff(h, refs, single, [], {single}, [k]);
    FieldOf(h, refs, single, [], {single}, k);
    TreeGetField(WalkContext(h, refs, single).fields, k);
  }

  lemma LegacyField(fields: map<string, Tree>, redacted: seq<string>, str: Value -> string, k: string)
    requires k in LEGACY_NAMES && k != "_meta" && Distinct(LEGACY_NAMES)
    ensures var r := Filtered(fields, redacted, true, str);
      (k in r <==> k in fields) && (k in fields ==> r[k] == Leaf(Prim(Str(TreeString(fields[k], str)))))
  {
    StringifiedHere(fields, LEGACY_NAMES, str, k);
  }

  lemma LegacyName(k: string)
    requires k in {"name", "ip", "firstName", "lastName", "email", "avatar", "country"}
    ensures k in LEGACY_NAMES && k != "_meta"
  {
    assert LEGACY_NAMES == ["name", "ip", "firstName", "lastName", "email", "avatar", "country"];
  }

  lemma LegacyNamesDistinct()
    ensures Distinct(LEGACY_NAMES)
  {
    assert LEGACY_NAMES == ["name", "ip", "firstName", "lastName", "email", "avatar", "country"];
  }

  /** The walk reaches what the context has at the path when nothing before its end is private or
      inside itself. */
  lemma {:induction false} ReachedIff(h: Heap, refs: seq<AttributeReference>, id: ObjectId, n: nat, branch: set<ObjectId>, path: seq<string>)
    requires WellFormed(h) && id in h && n < |path|
    ensures Reached(h, refs, id, n, branch, path) <==>
              && HeapGet(h, Ref(id), path[n..]).Some?
              && !Redacts(refs, path[..n], path[n..|path| - 1])
              && !Repeats(h, id, branch, path[n..|path| - 1])
    decreases |path| - n
  {
    var rest, way := path[n..], path[n..|path| - 1];
    assert rest[0] == path[n] && rest[1..] == path[n + 1..];
    if n + 1 < |path| {
      assert way[0] == path[n] && way[1..] == path[n + 1..|path| - 1];
      assert path[..n] + [path[n]] == path[..n + 1];
      if path[n] in h[id].props && h[id].props[path[n]].Ref? {
        var next := h[id].props[path[n]].id;
        ReachedIff(h, refs, next, n + 1, branch + {next}, path);
      }
    }
  }

  /** The name a path is listed under when it is the one removed: that of the first private
      attribute equal to it. */
  predicate ListedAs(h: Heap, single: ObjectId, all: bool, given: seq<AttributeReference>, path: seq<string>, name: string)
    requires single in h
  {
    && path !in {["key"], ["kind"], ["_meta"], ["anonymous"]}
    && if all then
         |path| == 1 && path[0] in h[single].keys && name == if "/" <= path[0] then "/" + Escape(path[0]) else path[0]
       else exists i :: 0 <= i < |given| && FirstAt(given, path, i) && given[i].redactionName == name
  }

  predicate FirstAt(given: seq<AttributeReference>, path: seq<string>, i: nat)
    requires i < |given|
  {
    given[i].components == path && forall j :: 0 <= j < i ==> given[j].components != path
  }

  lemma {:induction false} FirstUnprotected(given: seq<AttributeReference>, path: seq<string>)
    ensures FirstMatch(DropProtected(given), path) ==
              if path in {["key"], ["kind"], ["_meta"], ["anonymous"]} then None else FirstMatch(given, path)
  {
    if |given| > 0 {
      FirstUnprotected(given[1..], path);
      ProtectedIff(given[0]);
    }
  }

  lemma NamedIff(h: Heap, single: ObjectId, all: bool, configured: seq<AttributeReference>, own: seq<AttributeReference>,
                 path: seq<string>, name: string)
    requires single in h
    ensures NamedBy(AttributesToFilter(h, single, all, configured, own), path, name) <==>
              ListedAs(h, single, all, configured + own, path, name)
  {
    if all {
      FirstUnprotected(Literals(h[single].keys), path);
      LiteralNamedIff(h[single].keys, path, name);
    } else {
      FirstUnprotected(configured + own, path);
      FirstNamedIff(configured + own, path, name);
    }
  }

  lemma FirstNamedIff(given: seq<AttributeReference>, path: seq<string>, name: string)
    ensures NamedBy(given, path, name) <==> exists i :: 0 <= i < |given| && FirstAt(given, path, i) && given[i].redactionName == name
  {
    if i :| 0 <= i < |given| && FirstAt(given, path, i) && given[i].redactionName == name {
      FirstMatchIsFirst(given, path, i);
    }
    if FirstMatch(given, path).Some? {
      var i := FirstIndex(given, path);
      FirstMatchIsFirst(given, path, i);
    }
  }

  lemma {:induction false} FirstIndex(given: seq<AttributeReference>, path: seq<string>) returns (i: nat)
    requires FirstMatch(given, path).Some?
    ensures i < |given| && FirstAt(given, path, i)
  {
    if given[0].components == path {
      i := 0;
    } else {
      var k := FirstIndex(given[1..], path);
      i := k + 1;
    }
  }

  lemma LiteralNamedIff(keys: seq<string>, path: seq<string>, name: string)
    ensures NamedBy(Literals(keys), path, name) <==>
              |path| == 1 && path[0] in keys && name == if "/" <= path[0] then "/" + Escape(path[0]) else path[0]
  {
    var refs := Literals(keys);
    if |path| == 1 && path[0] in keys {
      var i :| 0 <= i < |keys| && keys[i] == path[0];
      assert refs[i].components == path;
      LiteralSays(path[0]);
    }
    if FirstMatch(refs, path).Some? {
      var r := FirstMatch(refs, path).value;
      var i :| 0 <= i < |refs| && refs[i] == r;
      assert r == Literal(keys[i]) && path == [keys[i]];
      LiteralSays(keys[i]);
    }
  }

  /** An attribute taken out: the context has it, nothing before it on its path is private or inside
      itself, and it is private itself under this name. */
  predicate TakenOut(h: Heap, single: ObjectId, all: bool, given: seq<AttributeReference>, path: seq<string>, name: string)
    requires single in h
  {
    && |path| > 0 && HeapGet(h, Ref(single), path).Some?
    && !Hidden(h, single, all, given, path[..|path| - 1]) && !Repeats(h, single, {single}, path[..|path| - 1])
    && ListedAs(h, single, all, given, path, name)
  }

  /** The list names each attribute taken out, and nothing else. */
  lemma ListIff(h: Heap, single: ObjectId, all: bool, configured: seq<AttributeReference>, own: seq<AttributeReference>, name: string)
    requires WellFormed(h) && single in h
    ensures ListedTimes(h, single, all, configured + own, name,
                        WalkContext(h, AttributesToFilter(h, single, all, configured, own), single).excluded[name])
  {
    var refs := AttributesToFilter(h, single, all, configured, own);
    var paths := Removed(h, refs, single, name);
    EachRemovalIsListed(h, refs, single, name);
    forall path ensures path in paths <==> TakenOut(h, single, all, configured + own, path, name) {
      if |path| > 0 {
        var way := path[..|path| - 1];
        ReachedIff(h, refs, single, 0, {single}, path);
        assert path[0..] == path && path[0..|path| - 1] == way && path[..0] == [];
        HiddenIff(h, single, all, configured, own, way);
        NamedIff(h, single, all, configured, own, path, name);
      }
    }
  }

  ghost predicate Lists(h: Heap, single: ObjectId, all: bool, given: seq<AttributeReference>, redacted: seq<string>)
    requires single in h
  {
    forall name :: ListedTimes(h, single, all, given, name, multiset(redacted)[name])
  }

  ghost predicate ListedTimes(h: Heap, single: ObjectId, all: bool, given: seq<AttributeReference>, name: string, n: nat)
    requires single in h
  {
    exists paths: set<seq<string>> :: |paths| == n && forall path :: path in paths <==> TakenOut(h, single, all, given, path, name)
  }

  lemma FilterLists(h: Heap, single: ObjectId, all: bool, configured: seq<AttributeReference>, own: seq<AttributeReference>, redacted: seq<string>)
    requires WellFormed(h) && single in h
    requires multiset(redacted) == WalkContext(h, AttributesToFilter(h, single, all, configured, own), single).excluded
    ensures Lists(h, single, all, configured + own, redacted)
  {
    forall name ensures ListedTimes(h, single, all, configured + own, name, multiset(redacted)[name]) {
      ListIff(h, single, all, configured, own, name);
    }
  }

  /** What `Filter` answers, on its inputs. */
  ghost predicate Answers(h: Heap, single: ObjectId, all: bool, given: seq<AttributeReference>, legacy: bool, str: Value -> string,
                          nodes: Nodes)
    requires WellFormed(h) && single in h
  {
    && (forall path :: Ordinary(path, legacy) ==>
          && (NodesGet(nodes, Child(0), path).Some? <==> Visible(h, single, all, given, path))
          && (NodesGet(nodes, Child(0), path).Some? ==>
                var v := HeapGet(h, Ref(single), path).value; !v.Ref? ==> NodesGet(nodes, Child(0), path) == Some(Copied(v))))
    && (legacy ==> forall k :: k in {"name", "ip", "firstName", "lastName", "email", "avatar", "country"} ==>
          && (NodesGet(nodes, Child(0), [k]).Some? <==> Visible(h, single, all, given, [k]))
          && (NodesGet(nodes, Child(0), [k]).Some? ==>
                var v := HeapGet(h, Ref(single), [k]).value;
                NodesGet(nodes, Child(0), [k]) == Some(Copied(Prim(Str(if v.Ref? then "[object Object]" else str(v)))))))
  }

  lemma FilterAnswers(h: Heap, single: ObjectId, all: bool, configured: seq<AttributeReference>, own: seq<AttributeReference>,
                      redacted: seq<string>, legacy: bool, str: Value -> string, nodes: Nodes)
    requires WellFormed(h) && single in h
    requires Holds(nodes, Child(0), Node(Filtered(WalkContext(h, AttributesToFilter(h, single, all, configured, own), single).fields, redacted, legacy, str)))
    ensures Answers(h, single, all, configured + own, legacy, str, nodes)
  {
    var r := Node(Filtered(WalkContext(h, AttributesToFilter(h, single, all, configured, own), single).fields, redacted, legacy, str));
    forall path | Ordinary(path, legacy)
      ensures NodesGet(nodes, Child(0), path).Some? <==> Visible(h, single, all, configured + own, path)
      ensures NodesGet(nodes, Child(0), path).Some? ==>
                var v := HeapGet(h, Ref(single), path).value; !v.Ref? ==> NodesGet(nodes, Child(0), path) == Some(Copied(v))
    {
      ResultIff(h, single, all, configured, own, redacted, legacy, str, path);
      FitsGet(nodes, Child(0), r, path);
    }
    forall k | legacy && k in {"name", "ip", "firstName", "lastName", "email", "avatar", "country"}
      ensures NodesGet(nodes, Child(0), [k]).Some? <==> Visible(h, single, all, configured + own, [k])
      ensures NodesGet(nodes, Child(0), [k]).Some? ==>
                var v := HeapGet(h, Ref(single), [k]).value;
                NodesGet(nodes, Child(0), [k]) == Some(Copied(Prim(Str(if v.Ref? then "[object Object]" else str(v)))))
    {
      LegacyStrings(h, single, all, configured, own, redacted, str, k);
      FitsGet(nodes, Child(0), r, [k]);
      TreeGetField(r.fields, k);
    }
  }

  lemma TreeGetField(fields: map<string, Tree>, k: string)
    ensures TreeGet(Node(fields), [k]) == if k in fields then Some(fields[k]) else None
  {
    if k in fields { assert TreeGet(fields[k], [k][1..]) == Some(fields[k]); }
  }

  // ----- What is redacted inside `_meta` -----

  /** A reference into `_meta`, longer than `_meta` itself, to a beginning of the path. */
  predicate IntoMeta(r: AttributeReference, path: seq<string>) {
    1 < |r.components| && r.components <= ["_meta"] + path
  }

  lemma IntoMetaStart(r: AttributeReference, path: seq<string>)
    ensures IntoMeta(r, path) ==> r.components[0] == "_meta"
  {
    if IntoMeta(r, path) { assert (["_meta"] + path)[0] == "_meta"; }
  }

  /** Single-component references below the root reach `_meta` only as `_meta`. */
  lemma BetweenIffIntoMeta(r: AttributeReference, path: seq<string>)
    ensures Between([], r.components, ["_meta"] + path) <==> r.components == ["_meta"] || IntoMeta(r, path)
  {
    var full := ["_meta"] + path;
    assert [] + full == full && ["_meta"] <= full;
    if |r.components| == 1 && r.components <= full { assert r.components[0] == full[0]; }
  }

  lemma FilteredIntoMeta(h: Heap, single: ObjectId, all: bool, configured: seq<AttributeReference>,
                         own: seq<AttributeReference>, r: AttributeReference, path: seq<string>)
    requires single in h
    ensures r in AttributesToFilter(h, single, all, configured, own) && Between([], r.components, ["_meta"] + path) <==>
              !all && r in configured + own && IntoMeta(r, path)
  {
    ProtectedIff(r);
    BetweenIffIntoMeta(r, path);
  }

  /** A path below `_meta` is redacted exactly when not all attributes are private and some private
      reference, valid or not, is a beginning of it longer than `_meta`: `_meta` is protected,
      its contents are not. */
  lemma MetaContentsIff(h: Heap, single: ObjectId, all: bool, configured: seq<AttributeReference>,
                        own: seq<AttributeReference>, path: seq<string>)
    requires single in h
    ensures Redacts(AttributesToFilter(h, single, all, configured, own), [], ["_meta"] + path) <==>
              !all && exists r :: r in configured + own && IntoMeta(r, path)
  {
    var refs, full := AttributesToFilter(h, single, all, configured, own), ["_meta"] + path;
    RedactsIff(refs, [], full);
    if r :| r in refs && Between([], r.components, full) {
      FilteredIntoMeta(h, single, all, configured, own, r, path);
    }
    if r :| !all && r in configured + own && IntoMeta(r, path) {
      FilteredIntoMeta(h, single, all, configured, own, r, path);
    }
  }

  /** So with the references that the constructor makes of strings: those into `_meta` are the ones
      spelled "/_meta/...", all of them invalid. Valid references leave `_meta` alone. */
  lemma ValidReferencesSpareMeta(h: Heap, single: ObjectId, all: bool, configured: seq<AttributeReference>,
                                 own: seq<AttributeReference>, path: seq<string>)
    requires single in h
    requires forall r <- configured + own :: r.isValid && (r == Parse(r.redactionName) || exists value :: r == Literal(value))
    ensures !Redacts(AttributesToFilter(h, single, all, configured, own), [], ["_meta"] + path)
  {
    forall r | r in configured + own ensures !IntoMeta(r, path) {
      IntoMetaStart(r, path);
      IntoMetaIff(r.redactionName);
    }
    MetaContentsIff(h, single, all, configured, own, path);
  }

  /** A context whose `_meta.x` is lost to the invalid private reference "/_meta/x". */
  lemma InvalidReferenceRedactsMeta()
    ensures var h: Heap := map[0 := Object(["_meta"], map["_meta" := Ref(1)]), 1 := Object(["x"], map["x" := Null])];
            var r := Parse("/_meta/x");
            && !r.isValid && WellFormed(h)
            && HeapGet(h, Ref(0), ["_meta", "x"]) == Some(Null)
            && TreeGet(Node(WalkContext(h, AttributesToFilter(h, 0, false, [r], []), 0).fields), ["_meta", "x"]) == None
  {
    MetaReference();
    MetaEntryGoes(Parse("/_meta/x"), "x");
  }

  lemma MetaEntryGoes(r: AttributeReference, x: string)
    requires r.components == ["_meta", x]
    ensures var h: Heap := map[0 := Object(["_meta"], map["_meta" := Ref(1)]), 1 := Object([x], map[x := Null])];
            && WellFormed(h) && HeapGet(h, Ref(0), ["_meta", x]) == Some(Null)
            && TreeGet(Node(WalkContext(h, AttributesToFilter(h, 0, false, [r], []), 0).fields), ["_meta", x]) == None
  {
    var h: Heap := map[0 := Object(["_meta"], map["_meta" := Ref(1)]), 1 := Object([x], map[x := Null])];
    assert WellFormed(h);
    var path := ["_meta", x];
    assert path[1..] == [x] && path[1..][1..] == [] && ["_meta"] + [x] == path;
    assert HeapGet(h, Ref(0), path) == HeapGet(h, Ref(1), [x]) == Some(Null);
    assert r in [r] + [] && IntoMeta(r, [x]);
    MetaContentsIff(h, 0, false, [r], [], [x]);
    KeptIff(h, AttributesToFilter(h, 0, false, [r], []), 0, [], {0}, path);
  }
}
