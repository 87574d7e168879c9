/** How contexts are validated and what their canonical keys identify (Context.ts). */
module Contexts {
  import opened Base
  import opened Strings
  import Sorting

  /** The nested value of a multi-kind context: `key` is None where it is not a string. */
  datatype Nested = NotAnObject | Object(key: Option<string>)

  /** A context as the application passes it in; `parts` in the order of its properties. */
  datatype Input =
    | NoContext
    | SingleKind(kind: string, key: Option<string>)
    | MultiKind(parts: seq<(string, Nested)>)
    | LegacyUser(key: Option<string>)

  datatype Invalid = Unspecified | NoKinds | InvalidKind | NotObjects | InvalidKey

  datatype Context =
    | Single(kind: string, key: string)
    | Multi(kinds: seq<string>, keys: map<string, string>)

  datatype Outcome = Valid(context: Context) | Rejected(reason: Invalid)

  predicate WordCharacter(c: char) {
    'a' <= c <= 'z' || 'A' <= c <= 'Z' || '0' <= c <= '9' || c == '_' || c == '.' || c == '-'
  }

  predicate ValidKind(kind: string) {
    |kind| > 0 && (forall c <- kind :: WordCharacter(c)) && kind != "kind"
  }

  predicate ValidKey(key: Option<string>) {
    key.Some? && key.value != ""
  }

  /** The properties of an object have distinct names. */
  predicate DistinctKinds(parts: seq<(string, Nested)>) {
    forall i, j :: 0 <= i < j < |parts| ==> parts[i].0 != parts[j].0
  }

  function FromMultiKind(parts: seq<(string, Nested)>): Outcome {
    if |parts| == 0 then Rejected(NoKinds)
    else if exists i :: 0 <= i < |parts| && !ValidKind(parts[i].0) then Rejected(InvalidKind)
    else if exists i :: 0 <= i < |parts| && parts[i].1.NotAnObject? then Rejected(NotObjects)
    else if exists i :: 0 <= i < |parts| && !ValidKey(parts[i].1.key) then Rejected(InvalidKey)
    else if |parts| == 1 then Valid(Single(parts[0].0, parts[0].1.key.value))
    else Valid(Multi(seq(|parts|, i requires 0 <= i < |parts| => parts[i].0), KeysOf(parts)))
  }

  function KeysOf(parts: seq<(string, Nested)>): map<string, string>
    requires forall i :: 0 <= i < |parts| ==> parts[i].1.Object? && parts[i].1.key.Some?
  {
    if |parts| == 0 then map[] else KeysOf(parts[1..])[parts[0].0 := parts[0].1.key.value]
  }

  function FromLDContext(input: Input): Outcome {
    match input
    case NoContext => Rejected(Unspecified)
    case SingleKind(kind, key) =>
      if !ValidKind(kind) then Rejected(InvalidKind)
      else if !ValidKey(key) then Rejected(InvalidKey)
      else Valid(Single(kind, key.value))
    case MultiKind(parts) => FromMultiKind(parts)
    case LegacyUser(key) => if key.None? then Rejected(InvalidKey) else Valid(Single("user", key.value))
  }

  // ----- Encoding -----

  function EncodeKey(key: string): string {
    if '%' in key || ':' in key then ReplaceChar(ReplaceChar(key, '%', "%25"), ':', "%3A") else key
  }

  function EncodeChar(c: char): string {
    if c == '%' then "%25" else if c == ':' then "%3A" else [c]
  }

  function Encoded(key: string): string {
    if |key| == 0 then "" else EncodeChar(key[0]) + Encoded(key[1..])
  }

  function Decode(s: string): string {
    if |s| == 0 then ""
    else if |s| >= 3 && s[..3] == "%25" then "%" + Decode(s[3..])
    else if |s| >= 3 && s[..3] == "%3A" then ":" + Decode(s[3..])
    else [s[0]] + Decode(s[1..])
  }

  /** The guard and the two passes come to encoding each character. */
  lemma {:induction false} EncodeKeyIsEncoded(key: string)
    ensures EncodeKey(key) == Encoded(key)
    ensures ReplaceChar(ReplaceChar(key, '%', "%25"), ':', "%3A") == Encoded(key)
  {
    if |key| > 0 {
      EncodeKeyIsEncoded(key[1..]);
      var first, rest := if key[0] == '%' then "%25" else [key[0]], ReplaceChar(key[1..], '%', "%25");
      ReplaceCharAppend(first, rest, ':', "%3A");
      assert first == "%25" ==> first[1..] == "25" && "25"[1..] == "5" && "5"[1..] == "";
      assert ReplaceChar(first, ':', "%3A") == EncodeChar(key[0]);
      if '%' !in key && ':' !in key {
        assert key == [key[0]] + key[1..];
        assert '%' !in key[1..] && ':' !in key[1..];
      }
    }
  }

  /** One '%' or ':' anywhere in a key becomes "%25" or "%3A", everything else stays. */
  lemma EncodeKeyAt(before: string, c: char, after: string)
    ensures EncodeKey("") == ""
    ensures EncodeKey(before + [c] + after) ==
              EncodeKey(before) + (match c case '%' => "%25" case ':' => "%3A" case _ => [c]) + EncodeKey(after)
  {
    EncodeKeyIsEncoded(before);
    EncodeKeyIsEncoded(after);
    EncodeKeyIsEncoded(before + [c] + after);
    EncodedAt(before, c, after);
  }

  lemma EncodedAt(before: string, c: char, after: string)
    ensures Encoded(before + [c] + after) == Encoded(before) + EncodeChar(c) + Encoded(after)
  {
    EncodedConcat(before + [c], after);
    EncodedConcat(before, [c]);
    assert [c][1..] == "" && Encoded([c]) == EncodeChar(c) + Encoded("");
  }

  lemma {:induction false} EncodedConcat(a: string, b: string)
    ensures Encoded(a + b) == Encoded(a) + Encoded(b)
  {
    if a == "" {
      assert a + b == b;
    } else {
      EncodedConcat(a[1..], b);
      EncodedFirst(a + b, a[1..] + b);
      EncodedFirst(a, a[1..]);
      Associates(EncodeChar(a[0]), Encoded(a[1..]), Encoded(b));
    }
  }

  lemma EncodedFirst(s: string, rest: string)
    requires |s| > 0 && s[1..] == rest
    ensures Encoded(s) == EncodeChar(s[0]) + Encoded(rest)
  {
  }

  lemma Associates(a: string, b: string, c: string)
    ensures (a + b) + c == a + (b + c)
  {
  }

  lemma DecodeChar(c: char, rest: string)
    ensures Decode(EncodeChar(c) + rest) == [c] + Decode(rest)
  {
    var s := EncodeChar(c) + rest;
    if c == '%' {
      assert s[..3] == "%25" && s[3..] == rest;
    } else if c == ':' {
      assert s[..3] == "%3A" && s[3..] == rest;
      assert s[..3] != "%25" by { assert s[1] == '3'; }
    } else {
      assert s[0] == c && s[1..] == rest;
    }
  }

  lemma {:induction false} DecodeEncoded(key: string)
    ensures Decode(Encoded(key)) == key && ':' !in Encoded(key)
  {
    if |key| > 0 {
      DecodeEncoded(key[1..]);
      DecodeChar(key[0], Encoded(key[1..]));
      assert key == [key[0]] + key[1..];
    }
  }

  /** Encoded keys have no ':', are empty only for the empty key, and can be decoded, so the
      encoding is injective. */
  lemma DecodeEncode(key: string)
    ensures Decode(EncodeKey(key)) == key
    ensures ':' !in EncodeKey(key) && (EncodeKey(key) == "" <==> key == "")
  {
    EncodeKeyIsEncoded(key);
    DecodeEncoded(key);
  }

  // ----- Canonical keys -----

  predicate WellFormed(c: Context) {
    match c
    case Single(kind, key) => ValidKind(kind) && (key != "" || kind == "user")
    case Multi(kinds, keys) =>
      && |kinds| > 1 && Distinct(kinds) && (forall kind <- keys :: kind in kinds)
      && forall kind <- kinds :: kind in keys && ValidKind(kind) && keys[kind] != ""
  }

  predicate IsUser(c: Context) {
    c.Single? && c.kind == "user"
  }

  function Part(kind: string, key: string): string {
    kind + ":" + EncodeKey(key)
  }

  function Parts(kinds: seq<string>, keys: map<string, string>): seq<string>
    requires forall kind <- kinds :: kind in keys
  {
    seq(|kinds|, i requires 0 <= i < |kinds| => Part(kinds[i], keys[kinds[i]]))
  }

  function CanonicalKey(c: Context): string
    requires WellFormed(c)
  {
    match c
    case Single(kind, key) => if kind == "user" then key else Part(kind, key)
    case Multi(kinds, keys) =>
      SortKeepsKinds(kinds);
      Join(Parts(Sorting.Sort(kinds), keys), ':')
  }

  function KindsAndKeys(c: Context): map<string, string> {
    match c
    case Single(kind, key) => map[kind := key]
    case Multi(_, keys) => keys
  }

  lemma SortKeepsKinds(kinds: seq<string>)
    ensures |Sorting.Sort(kinds)| == |kinds|
    ensures forall kind :: kind in Sorting.Sort(kinds) <==> kind in kinds
  {
    var sorted := Sorting.Sort(kinds);
    assert |sorted| == |multiset(sorted)| == |multiset(kinds)| == |kinds|;
    forall kind ensures kind in sorted <==> kind in kinds {
      assert kind in multiset(sorted) <==> kind in multiset(kinds);
    }
  }

  /** Contexts are built well formed, except that a legacy user may have the empty key. */
  lemma {:induction false} FromLDContextIsWellFormed(input: Input)
    requires FromLDContext(input).Valid? && (input.MultiKind? ==> DistinctKinds(input.parts))
    ensures WellFormed(FromLDContext(input).context)
  {
    if input.MultiKind? && |input.parts| > 1 {
      KeysOfParts(input.parts);
      var c := FromLDContext(input).context;
      forall kind <- c.keys ensures kind in c.kinds {
        var i :| 0 <= i < |input.parts| && input.parts[i].0 == kind;
        assert c.kinds[i] == kind;
      }
    }
  }

  /** Letters and digits of ASCII, '-', '.' and '_', and not the name of the property that tells
      the kind. */
  predicate KindSpelling(kind: string) {
    && kind != "" && kind != "kind"
    && forall i :: 0 <= i < |kind| ==>
         var code := kind[i] as int;
         48 <= code < 58 || 65 <= code < 91 || 97 <= code < 123 || kind[i] in {'-', '.', '_'}
  }

  /** What makes an input a context. */
  predicate Acceptable(input: Input) {
    match input
    case NoContext => false
    case SingleKind(kind, key) => KindSpelling(kind) && key.Some? && key.value != ""
    case MultiKind(parts) =>
      |parts| > 0 && forall i :: 0 <= i < |parts| ==>
        KindSpelling(parts[i].0) && parts[i].1.Object? && parts[i].1.key.Some? && parts[i].1.key.value != ""
    case LegacyUser(key) => key.Some?
  }

  lemma KindSpellingIff(kind: string)
    ensures ValidKind(kind) <==> KindSpelling(kind)
  {
    forall i | 0 <= i < |kind| ensures kind[i] in kind { }
    forall c | c in kind ensures exists i :: 0 <= i < |kind| && kind[i] == c { }
  }

  /** The reason for a refusal is the first that applies: no context, no kinds, a kind, something
      that is no object, a key. */
  lemma RefusalsInOrder(input: Input)
    requires FromLDContext(input).Rejected?
    ensures FromLDContext(input).reason ==
      match input
      case NoContext => Unspecified
      case SingleKind(kind, _) => if KindSpelling(kind) then InvalidKey else InvalidKind
      case LegacyUser(_) => InvalidKey
      case MultiKind(parts) =>
        if parts == [] then NoKinds
        else if exists i :: 0 <= i < |parts| && !KindSpelling(parts[i].0) then InvalidKind
        else if exists i :: 0 <= i < |parts| && parts[i].1 == NotAnObject then NotObjects
        else InvalidKey
  {
    match input
    case NoContext =>
    case SingleKind(kind, _) => KindSpellingIff(kind);
    case LegacyUser(_) =>
    case MultiKind(parts) => forall i | 0 <= i < |parts| { KindSpellingIff(parts[i].0); }
  }

  /** The kind and key are those of the input. */
  predicate Carries(c: Context, kind: string, key: Option<string>) {
    kind in KindsAndKeys(c) && key == Some(KindsAndKeys(c)[kind])
  }

  /** The factories accept exactly those inputs, and the context has exactly their kinds and
      keys; a multi-kind input of one kind becomes the single-kind context. */
  lemma FromLDContextKeepsKeys(input: Input)
    requires input.MultiKind? ==> DistinctKinds(input.parts)
    ensures FromLDContext(input).Valid? <==> Acceptable(input)
    ensures Acceptable(input) ==>
      var c := FromLDContext(input).context;
      match input
      case SingleKind(kind, key) => c.Single? && Carries(c, kind, key)
      case MultiKind(parts) =>
        && (c.Single? <==> |parts| == 1)
        && (forall i :: 0 <= i < |parts| ==> Carries(c, parts[i].0, parts[i].1.key))
        && (forall kind <- KindsAndKeys(c) :: exists i :: 0 <= i < |parts| && parts[i].0 == kind)
      case LegacyUser(key) => IsUser(c) && Carries(c, "user", key)
      case NoContext => false
  {
    match input
    case NoContext =>
    case SingleKind(kind, _) => KindSpellingIff(kind);
    case LegacyUser(_) =>
    case MultiKind(parts) =>
      forall i | 0 <= i < |parts| { KindSpellingIff(parts[i].0); }
      if Acceptable(input) && |parts| > 1 { KeysOfParts(parts); }
  }

  lemma {:induction false} KeysOfParts(parts: seq<(string, Nested)>)
    requires forall i :: 0 <= i < |parts| ==> parts[i].1.Object? && parts[i].1.key.Some?
    requires DistinctKinds(parts)
    ensures forall kind :: kind in KeysOf(parts) <==> exists i :: 0 <= i < |parts| && parts[i].0 == kind
    ensures forall i :: 0 <= i < |parts| ==> parts[i].0 in KeysOf(parts) && KeysOf(parts)[parts[i].0] == parts[i].1.key.value
  {
    if |parts| > 0 {
      var rest := parts[1..];
      KeysOfParts(rest);
      forall i | 0 <= i < |parts| ensures parts[i].0 in KeysOf(parts) && KeysOf(parts)[parts[i].0] == parts[i].1.key.value {
        if i > 0 { assert parts[i] == rest[i - 1]; }
      }
    }
  }

  // ----- Reading a canonical key back -----

  /** The kinds and encoded keys, alternating. */
  function Pieces(kinds: seq<string>, keys: map<string, string>): seq<string>
    requires forall kind <- kinds :: kind in keys
  {
    if |kinds| == 0 then [] else [kinds[0], EncodeKey(keys[kinds[0]])] + Pieces(kinds[1..], keys)
  }

  lemma SplitPart(kind: string, key: string)
    requires ':' !in kind
    ensures Split(Part(kind, key), ':') == [kind, EncodeKey(key)]
  {
    var code := EncodeKey(key);
    DecodeEncode(key);
    assert Part(kind, key) == kind + [':'] + code;
    SplitPiece(kind, code, ':');
    SplitWhole(code, ':');
  }

  lemma Regroup(kind: string, code: string, rest: string)
    ensures kind + ":" + code + [':'] + rest == kind + [':'] + (code + [':'] + rest)
  {
  }

  lemma SplitPartThen(kind: string, key: string, rest: string)
    requires ':' !in kind
    ensures Split(Part(kind, key) + [':'] + rest, ':') == [kind, EncodeKey(key)] + Split(rest, ':')
  {
    var code := EncodeKey(key);
    DecodeEncode(key);
    Regroup(kind, code, rest);
    SplitPiece(kind, code + [':'] + rest, ':');
    SplitPiece(code, rest, ':');
  }

  lemma {:induction false} SplitParts(kinds: seq<string>, keys: map<string, string>)
    requires |kinds| > 0 && forall kind <- kinds :: kind in keys && ':' !in kind
    ensures Split(Join(Parts(kinds, keys), ':'), ':') == Pieces(kinds, keys)
  {
    var parts, tail := Parts(kinds, keys), kinds[1..];
    assert parts[0] == Part(kinds[0], keys[kinds[0]]);
    if |kinds| == 1 {
      SplitPart(kinds[0], keys[kinds[0]]);
      assert Pieces(tail, keys) == [];
    } else {
      assert parts[1..] == Parts(tail, keys);
      SplitParts(tail, keys);
      SplitPartThen(kinds[0], keys[kinds[0]], Join(parts[1..], ':'));
    }
  }

  lemma {:induction false} PiecesDetermine(kinds: seq<string>, keys: map<string, string>, kinds': seq<string>, keys': map<string, string>)
    requires forall kind <- kinds :: kind in keys
    requires forall kind <- kinds' :: kind in keys'
    requires Pieces(kinds, keys) == Pieces(kinds', keys')
    ensures kinds == kinds' && forall kind <- kinds :: keys[kind] == keys'[kind]
  {
    if |kinds| > 0 && |kinds'| > 0 {
      var p, p' := Pieces(kinds, keys), Pieces(kinds', keys');
      assert p[0] == kinds[0] && p'[0] == kinds'[0];
      assert p[1] == EncodeKey(keys[kinds[0]]) && p'[1] == EncodeKey(keys'[kinds'[0]]);
      assert p[2..] == Pieces(kinds[1..], keys) && p'[2..] == Pieces(kinds'[1..], keys');
      PiecesDetermine(kinds[1..], keys, kinds'[1..], keys');
      DecodeEncode(keys[kinds[0]]);
      DecodeEncode(keys'[kinds'[0]]);
    }
  }

  /** The kinds in the order of the canonical key. */
  function SortedKinds(c: Context): seq<string> {
    match c
    case Single(kind, _) => [kind]
    case Multi(kinds, _) => Sorting.Sort(kinds)
  }

  lemma CanonicalPieces(c: Context)
    requires WellFormed(c) && !IsUser(c)
    ensures forall kind :: kind in SortedKinds(c) <==> kind in KindsAndKeys(c)
    ensures Split(CanonicalKey(c), ':') == Pieces(SortedKinds(c), KindsAndKeys(c))
  {
    match c
    case Single(kind, key) =>
      SplitParts([kind], map[kind := key]);
    case Multi(kinds, keys) =>
      SortKeepsKinds(kinds);
      SplitParts(Sorting.Sort(kinds), keys);
  }

  /** Canonical keys identify contexts by their kinds and keys, in whatever order the kinds are
      given, as long as neither context is a single user. */
  lemma CanonicalKeyIdentifies(c: Context, d: Context)
    requires WellFormed(c) && WellFormed(d) && !IsUser(c) && !IsUser(d)
    ensures CanonicalKey(c) == CanonicalKey(d) <==> KindsAndKeys(c) == KindsAndKeys(d)
  {
    CanonicalPieces(c);
    CanonicalPieces(d);
    var ck, dk := KindsAndKeys(c), KindsAndKeys(d);
    if CanonicalKey(c) == CanonicalKey(d) {
      PiecesDetermine(SortedKinds(c), ck, SortedKinds(d), dk);
      SameMaps(SortedKinds(c), ck, dk);
    }
    if KindsAndKeys(c) == KindsAndKeys(d) {
      SameKindsSameOrder(c, d);
      SamePieces(CanonicalKey(c), CanonicalKey(d));
    }
  }

  lemma SameMaps(kinds: seq<string>, a: map<string, string>, b: map<string, string>)
    requires forall kind :: kind in kinds <==> kind in a
    requires forall kind :: kind in kinds <==> kind in b
    requires forall kind <- kinds :: a[kind] == b[kind]
    ensures a == b
  {
  }

  lemma SamePieces(a: string, b: string)
    requires Split(a, ':') == Split(b, ':')
    ensures a == b
  {
    JoinSplit(a, ':');
    JoinSplit(b, ':');
  }

  lemma SameKindsSameOrder(c: Context, d: Context)
    requires WellFormed(c) && WellFormed(d) && KindsAndKeys(c) == KindsAndKeys(d)
    ensures SortedKinds(c) == SortedKinds(d)
  {
    var a, b := if c.Single? then [c.kind] else c.kinds, if d.Single? then [d.kind] else d.kinds;
    assert forall kind :: kind in a <==> kind in KindsAndKeys(c);
    assert forall kind :: kind in b <==> kind in KindsAndKeys(d);
    SameMembersSameMultiset(a, b);
    Sorting.SortSorted(a);
    Sorting.SortSorted(b);
    Sorting.SortedUnique(Sorting.Sort(a), Sorting.Sort(b));
    assert c.Single? ==> Sorting.Sort(a) == a by { if c.Single? { assert a[1..] == []; } }
    assert d.Single? ==> Sorting.Sort(b) == b by { if d.Single? { assert b[1..] == []; } }
  }

  lemma {:induction false} CountsOnce(s: seq<string>, x: string)
    requires Distinct(s)
    ensures multiset(s)[x] == if x in s then 1 else 0
  {
    if |s| > 0 {
      CountsOnce(s[1..], x);
      assert s == [s[0]] + s[1..];
    }
  }

  lemma SameMembersSameMultiset(a: seq<string>, b: seq<string>)
    requires Distinct(a) && Distinct(b) && forall x :: x in a <==> x in b
    ensures multiset(a) == multiset(b)
  {
    forall x ensures multiset(a)[x] == multiset(b)[x] {
      CountsOnce(a, x);
      CountsOnce(b, x);
    }
  }

  // ----- Which user keys look like another context -----

  /** The `i`th kind with its encoded key. */
  predicate PairAt(pieces: seq<string>, kinds: seq<string>, keys: map<string, string>, i: nat)
    requires i < |kinds| && |pieces| == 2 * |kinds| && forall kind <- kinds :: kind in keys
  {
    pieces[2 * i] == kinds[i] && pieces[2 * i + 1] == EncodeKey(keys[kinds[i]])
  }

  lemma {:induction false} PiecesAt(kinds: seq<string>, keys: map<string, string>)
    requires forall kind <- kinds :: kind in keys
    ensures |Pieces(kinds, keys)| == 2 * |kinds|
    ensures forall i :: 0 <= i < |kinds| ==> PairAt(Pieces(kinds, keys), kinds, keys, i)
  {
    if |kinds| > 0 {
      var tail := kinds[1..];
      PiecesAt(tail, keys);
      var all, rest := Pieces(kinds, keys), Pieces(tail, keys);
      forall i | 0 <= i < |kinds| ensures PairAt(all, kinds, keys, i) {
        if i > 0 {
          assert PairAt(rest, tail, keys, i - 1);
          assert all[2 * i] == rest[2 * (i - 1)] && all[2 * i + 1] == rest[2 * (i - 1) + 1];
        }
      }
    }
  }

  function Evens(pieces: seq<string>): seq<string> {
    seq(|pieces| / 2, i requires 0 <= i < |pieces| / 2 => pieces[2 * i])
  }

  predicate EncodedPiece(piece: string) {
    piece != "" && EncodeKey(Decode(piece)) == piece
  }

  /** Valid kinds in strictly rising order, alternating with encoded keys, and not a single
      user. */
  predicate Readable(pieces: seq<string>) {
    var kinds := Evens(pieces);
    && |pieces| % 2 == 0 && kinds != ["user"]
    && Distinct(kinds) && Sorting.Sorted(kinds) && (forall kind <- kinds :: ValidKind(kind))
    && forall i :: 0 <= i < |kinds| ==> EncodedPiece(pieces[2 * i + 1])
  }

  /** A text spelled as the canonical key of a context that is not a single user. */
  predicate ReadsAsContext(text: string) {
    Readable(Split(text, ':'))
  }

  lemma SortedKindsAreSorted(c: Context)
    requires WellFormed(c)
    ensures Sorting.Sorted(SortedKinds(c)) && Distinct(SortedKinds(c))
  {
    if c.Multi? {
      Sorting.SortSorted(c.kinds);
      var sorted := Sorting.Sort(c.kinds);
      forall i, j | 0 <= i < j < |sorted| ensures sorted[i] != sorted[j] {
        CountsOnce(c.kinds, sorted[i]);
        if sorted[i] == sorted[j] { Twice(sorted, i, j); }
      }
    }
  }

  lemma Twice(s: seq<string>, i: nat, j: nat)
    requires i < j < |s| && s[i] == s[j]
    ensures multiset(s)[s[i]] >= 2
  {
    assert s == s[..j] + s[j..] && s[i] in s[..j] && s[j] in s[j..];
  }

  lemma PiecesAreReadable(kinds: seq<string>, keys: map<string, string>)
    requires forall kind <- kinds :: kind in keys && keys[kind] != "" && ValidKind(kind)
    requires Distinct(kinds) && Sorting.Sorted(kinds) && kinds != ["user"]
    ensures Readable(Pieces(kinds, keys))
  {
    PiecesAt(kinds, keys);
    var pieces := Pieces(kinds, keys);
    forall i | 0 <= i < |kinds| ensures Evens(pieces)[i] == kinds[i] && EncodedPiece(pieces[2 * i + 1]) {
      assert PairAt(pieces, kinds, keys, i);
      DecodeEncode(keys[kinds[i]]);
    }
    assert Evens(pieces) == kinds;
  }

  lemma CanonicalReadsAsContext(c: Context)
    requires WellFormed(c) && !IsUser(c)
    ensures ReadsAsContext(CanonicalKey(c))
  {
    CanonicalPieces(c);
    SortedKindsAreSorted(c);
    var kinds, keys := SortedKinds(c), KindsAndKeys(c);
    assert forall kind <- kinds :: kind in keys && keys[kind] != "" && ValidKind(kind);
    if c.Multi? { SortKeepsKinds(c.kinds); }
    PiecesAreReadable(kinds, keys);
  }

  /** The keys a canonical key's pieces hold. */
  function ReadKeys(pieces: seq<string>): (keys: map<string, string>)
    requires Distinct(Evens(pieces))
    ensures forall kind :: kind in keys <==> kind in Evens(pieces)
    ensures forall i :: 0 <= i < |pieces| / 2 ==> keys[Evens(pieces)[i]] == Decode(pieces[2 * i + 1])
  {
    var kinds := Evens(pieces);
    map i | 0 <= i < |kinds| :: kinds[i] := Decode(pieces[2 * i + 1])
  }

  lemma SameInPairs(a: seq<string>, b: seq<string>, n: nat)
    requires |a| == 2 * n && |b| == 2 * n
    requires forall i :: 0 <= i < n ==> SameAt(a, b, i)
    ensures a == b
  {
    forall j | 0 <= j < 2 * n ensures a[j] == b[j] {
      assert SameAt(a, b, j / 2);
      assert j == 2 * (j / 2) || j == 2 * (j / 2) + 1;
    }
  }

  predicate SameAt(a: seq<string>, b: seq<string>, i: nat)
    requires 2 * i + 1 < |a| && |a| == |b|
  {
    a[2 * i] == b[2 * i] && a[2 * i + 1] == b[2 * i + 1]
  }

  lemma PieceReadsBack(pieces: seq<string>, i: nat)
    requires Readable(pieces) && i < |Evens(pieces)|
    ensures var kind := Evens(pieces)[i];
      kind == pieces[2 * i] && EncodeKey(ReadKeys(pieces)[kind]) == pieces[2 * i + 1] && ReadKeys(pieces)[kind] != ""
  {
    assert EncodedPiece(pieces[2 * i + 1]);
    DecodeEncode(Decode(pieces[2 * i + 1]));
  }

  lemma PiecesReadBack(pieces: seq<string>)
    requires Readable(pieces)
    ensures Pieces(Evens(pieces), ReadKeys(pieces)) == pieces
    ensures forall kind <- Evens(pieces) :: ReadKeys(pieces)[kind] != ""
  {
    var kinds, keys := Evens(pieces), ReadKeys(pieces);
    var again := Pieces(kinds, keys);
    PiecesAt(kinds, keys);
    forall i | 0 <= i < |kinds| ensures SameAt(again, pieces, i) && keys[kinds[i]] != "" {
      assert PairAt(again, kinds, keys, i);
      PieceReadsBack(pieces, i);
    }
    SameInPairs(again, pieces, |kinds|);
  }

  /** The context a text reads as. */
  function ReadBack(text: string): Context
    requires ReadsAsContext(text) && |Split(text, ':')| > 1
  {
    var pieces := Split(text, ':');
    if |pieces| == 2 then Single(pieces[0], Decode(pieces[1])) else Multi(Evens(pieces), ReadKeys(pieces))
  }

  lemma ReadBackIsWellFormed(text: string)
    requires ReadsAsContext(text)
    ensures |Split(text, ':')| > 1
    ensures var c := ReadBack(text);
      WellFormed(c) && !IsUser(c) && SortedKinds(c) == Evens(Split(text, ':')) && KindsAndKeys(c) == ReadKeys(Split(text, ':'))
  {
    var pieces := Split(text, ':');
    var kinds := Evens(pieces);
    PiecesReadBack(pieces);
    if |pieces| == 2 {
      assert kinds == [pieces[0]];
      assert ReadKeys(pieces)[kinds[0]] == Decode(pieces[2 * 0 + 1]);
    } else {
      Sorting.SortSorted(kinds);
      Sorting.SortedUnique(Sorting.Sort(kinds), kinds);
    }
  }

  lemma ReadBackSpells(text: string)
    requires ReadsAsContext(text)
    ensures |Split(text, ':')| > 1
    ensures var c := ReadBack(text); WellFormed(c) && !IsUser(c) && CanonicalKey(c) == text
  {
    ReadBackIsWellFormed(text);
    CanonicalPieces(ReadBack(text));
    PiecesReadBack(Split(text, ':'));
    SamePieces(CanonicalKey(ReadBack(text)), text);
  }

  /** The text is the canonical key of a valid context that is not a single user. */
  predicate Spells(c: Context, text: string) {
    WellFormed(c) && !IsUser(c) && CanonicalKey(c) == text
  }

  lemma SpellsIff(text: string)
    ensures (exists c :: Spells(c, text)) <==> ReadsAsContext(text)
  {
    if c :| Spells(c, text) {
      CanonicalReadsAsContext(c);
    }
    if ReadsAsContext(text) {
      ReadBackSpells(text);
      assert Spells(ReadBack(text), text);
    }
  }

  /** A single user, whose canonical key is the bare user key, is confused with some other valid
      context exactly when that key is spelled as a canonical key. */
  lemma UserKeyCollidesIff(key: string)
    ensures WellFormed(Single("user", key)) && CanonicalKey(Single("user", key)) == key
    ensures (exists c :: Spells(c, CanonicalKey(Single("user", key)))) <==> ReadsAsContext(key)
  {
    assert ValidKind("user");
    SpellsIff(key);
  }
}
