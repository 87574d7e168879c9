/** The UTF-16 to UTF-8 polyfill of the React Native SDK, on JavaScript strings:
    sequences of 16-bit code units in which surrogates need not be paired. */
module Utf8 {
  import opened Base

  type CodeUnit = bv16
  type Octet = bv8

  // ----- UTF-16 -----

  predicate IsHigh(u: CodeUnit) {
    u & 0xFC00 == 0xD800
  }

  predicate IsLow(u: CodeUnit) {
    u & 0xFC00 == 0xDC00
  }

  predicate StartsWithPair(s: seq<CodeUnit>) {
    |s| >= 2 && IsHigh(s[0]) && IsLow(s[1])
  }

  function Combine(high: CodeUnit, low: CodeUnit): bv32 {
    0x10000 + ((high as bv32 & 0x03FF) << 10) + (low as bv32 & 0x03FF)
  }

  function HighOf(cp: bv32): CodeUnit
    requires 0x10000 <= cp <= 0x10FFFF
  {
    (0xD800 + ((cp - 0x10000) >> 10)) as bv16
  }

  function LowOf(cp: bv32): CodeUnit
    requires 0x10000 <= cp <= 0x10FFFF
  {
    (0xDC00 + ((cp - 0x10000) & 0x03FF)) as bv16
  }

  lemma PairRoundTrip(high: CodeUnit, low: CodeUnit)
    requires IsHigh(high) && IsLow(low)
    ensures 0x10000 <= Combine(high, low) <= 0x10FFFF
    ensures HighOf(Combine(high, low)) == high && LowOf(Combine(high, low)) == low
  {
  }

  /** The code point at the front of a non-empty string, and how many units it takes;
      an unpaired surrogate stands for itself. */
  function First(s: seq<CodeUnit>): (cp: bv32)
    requires |s| > 0
    ensures cp <= 0x10FFFF
  {
    if StartsWithPair(s) then PairRoundTrip(s[0], s[1]); Combine(s[0], s[1]) else s[0] as bv32
  }

  function Width(s: seq<CodeUnit>): (n: nat)
    requires |s| > 0
    ensures 1 <= n <= |s|
  {
    if StartsWithPair(s) then 2 else 1
  }

  /** No surrogate is unpaired. */
  predicate WellFormed(s: seq<CodeUnit>) {
    |s| == 0 || ((StartsWithPair(s) || !(IsHigh(s[0]) || IsLow(s[0]))) && WellFormed(s[Width(s)..]))
  }

  // ----- Section 3 of RFC 3629: the bit patterns, and the bits they carry -----

  predicate Tail(o: Octet) { o & 0xC0 == 0x80 }

  predicate IsLead2(o: Octet) { o & 0xE0 == 0xC0 }

  predicate IsLead3(o: Octet) { o & 0xF0 == 0xE0 }

  predicate IsLead4(o: Octet) { o & 0xF8 == 0xF0 }

  function Gather2(b0: Octet, b1: Octet): bv32 {
    ((b0 & 0x1F) as bv32 << 6) | (b1 & 0x3F) as bv32
  }

  function Gather3(b0: Octet, b1: Octet, b2: Octet): bv32 {
    ((b0 & 0x0F) as bv32 << 12) | ((b1 & 0x3F) as bv32 << 6) | (b2 & 0x3F) as bv32
  }

  function Gather4(b0: Octet, b1: Octet, b2: Octet, b3: Octet): bv32 {
    ((b0 & 0x07) as bv32 << 18) | ((b1 & 0x3F) as bv32 << 12) | ((b2 & 0x3F) as bv32 << 6) | (b3 & 0x3F) as bv32
  }

  /** The octets have one of the four patterns, carry the bits of `cp`, and no shorter
      pattern could. */
  predicate Encodes(b: seq<Octet>, cp: bv32) {
    match |b|
    case 1 => b[0] < 0x80 && cp == b[0] as bv32
    case 2 => IsLead2(b[0]) && Tail(b[1]) && cp == Gather2(b[0], b[1]) && 0x80 <= cp
    case 3 => IsLead3(b[0]) && Tail(b[1]) && Tail(b[2]) && cp == Gather3(b[0], b[1], b[2]) && 0x800 <= cp
    case 4 => IsLead4(b[0]) && Tail(b[1]) && Tail(b[2]) && Tail(b[3])
              && cp == Gather4(b[0], b[1], b[2], b[3]) && 0x10000 <= cp
    case _ => false
  }

  // ----- What the polyfill computes -----

  function Lead2(cp: bv32): Octet
    requires cp < 0x800
  {
    ((cp >> 6) | 192) as bv8
  }

  function Lead3(cp: bv32): Octet
    requires cp < 0x10000
  {
    ((cp >> 12) | 224) as bv8
  }

  function Lead4(cp: bv32): Octet
    requires cp <= 0x10FFFF
  {
    ((cp >> 18) | 240) as bv8
  }

  function Mid12(cp: bv32): Octet { (((cp >> 12) & 63) | 128) as bv8 }

  function Mid6(cp: bv32): Octet { (((cp >> 6) & 63) | 128) as bv8 }

  function Last(cp: bv32): Octet { ((cp & 63) | 128) as bv8 }

  function EncodePoint(cp: bv32): (b: seq<Octet>)
    requires cp <= 0x10FFFF
    ensures |b| == if cp < 0x80 then 1 else if cp < 0x800 then 2 else if cp < 0x10000 then 3 else 4
  {
    if cp < 0x80 then [cp as bv8]
    else if cp < 0x800 then [Lead2(cp), Last(cp)]
    else if cp < 0x10000 then [Lead3(cp), Mid6(cp), Last(cp)]
    else [Lead4(cp), Mid12(cp), Mid6(cp), Last(cp)]
  }

  /** The code points in order, each encoded. */
  function Encode(s: seq<CodeUnit>): seq<Octet> {
    if |s| == 0 then [] else EncodePoint(First(s)) + Encode(s[Width(s)..])
  }

  // The bits of a code point survive being spread over octets, and octets of a pattern
  // survive being gathered.

  lemma Spread2(cp: bv32)
    requires 0x80 <= cp < 0x800
    ensures IsLead2(Lead2(cp)) && Tail(Last(cp)) && Gather2(Lead2(cp), Last(cp)) == cp
  {
  }

  lemma Spread3(cp: bv32)
    requires 0x800 <= cp < 0x10000
    ensures IsLead3(Lead3(cp)) && Tail(Mid6(cp)) && Tail(Last(cp))
    ensures Gather3(Lead3(cp), Mid6(cp), Last(cp)) == cp
  {
  }

  lemma Spread4(cp: bv32)
    requires 0x10000 <= cp <= 0x10FFFF
    ensures IsLead4(Lead4(cp)) && Tail(Mid12(cp)) && Tail(Mid6(cp)) && Tail(Last(cp))
    ensures Gather4(Lead4(cp), Mid12(cp), Mid6(cp), Last(cp)) == cp
  {
  }

  lemma Gathered2(b0: Octet, b1: Octet)
    requires IsLead2(b0) && Tail(b1)
    ensures Gather2(b0, b1) < 0x800
    ensures Lead2(Gather2(b0, b1)) == b0 && Last(Gather2(b0, b1)) == b1
  {
  }

  lemma Gathered3(b0: Octet, b1: Octet, b2: Octet)
    requires IsLead3(b0) && Tail(b1) && Tail(b2)
    ensures Gather3(b0, b1, b2) < 0x10000
    ensures Lead3(Gather3(b0, b1, b2)) == b0
    ensures Mid6(Gather3(b0, b1, b2)) == b1 && Last(Gather3(b0, b1, b2)) == b2
  {
  }

  lemma Gathered4(b0: Octet, b1: Octet, b2: Octet, b3: Octet)
    requires IsLead4(b0) && Tail(b1) && Tail(b2) && Tail(b3) && Gather4(b0, b1, b2, b3) <= 0x10FFFF
    ensures Lead4(Gather4(b0, b1, b2, b3)) == b0 && Mid12(Gather4(b0, b1, b2, b3)) == b1
    ensures Mid6(Gather4(b0, b1, b2, b3)) == b2 && Last(Gather4(b0, b1, b2, b3)) == b3
  {
  }

  /** `EncodePoint` is the one octet sequence section 3 of RFC 3629 allows for `cp`. */
  lemma EncodePointIsRfc3629(cp: bv32, b: seq<Octet>)
    requires cp <= 0x10FFFF
    ensures Encodes(b, cp) <==> b == EncodePoint(cp)
  {
    if 0x80 <= cp < 0x800 { Spread2(cp); }
    if 0x800 <= cp < 0x10000 { Spread3(cp); }
    if 0x10000 <= cp { Spread4(cp); }
    if Encodes(b, cp) {
      match |b|
      case 2 => Gathered2(b[0], b[1]);
      case 3 => Gathered3(b[0], b[1], b[2]);
      case 4 => Gathered4(b[0], b[1], b[2], b[3]);
      case _ =>
    }
  }

  // The three multi-octet branches of the polyfill's loop, one method each. Each octet is
  // written through a conversion that must fit in eight bits, so `Uint8Array.from` cuts
  // nothing off.

  method PushTwo(out: seq<Octet>, c: bv32) returns (r: seq<Octet>)
    requires 0x80 <= c < 0x800
    ensures r == out + EncodePoint(c)
  {
    r := out + [((c >> 6) | 192) as bv8];
    r := r + [((c & 63) | 128) as bv8];
  }

  method PushThree(out: seq<Octet>, c: bv32) returns (r: seq<Octet>)
    requires 0x800 <= c < 0x10000
    ensures r == out + EncodePoint(c)
  {
    r := out + [((c >> 12) | 224) as bv8];
    r := r + [(((c >> 6) & 63) | 128) as bv8];
    r := r + [((c & 63) | 128) as bv8];
  }

  method PushFour(out: seq<Octet>, c: bv32) returns (r: seq<Octet>)
    requires 0x10000 <= c <= 0x10FFFF
    ensures r == out + EncodePoint(c)
  {
    r := out + [((c >> 18) | 240) as bv8];
    r := r + [(((c >> 12) & 63) | 128) as bv8];
    r := r + [(((c >> 6) & 63) | 128) as bv8];
    r := r + [((c & 63) | 128) as bv8];
  }

  lemma SurrogateRange(u: CodeUnit)
    ensures IsHigh(u) <==> 0xD800 <= u as bv32 < 0xDC00
    ensures IsLow(u) <==> 0xDC00 <= u as bv32 < 0xE000
  {
  }

  lemma NextPair(s: seq<CodeUnit>, i: nat)
    requires i + 1 < |s| && IsHigh(s[i]) && IsLow(s[i + 1])
    ensures First(s[i..]) == Combine(s[i], s[i + 1]) && Width(s[i..]) == 2
    ensures 0x10000 <= Combine(s[i], s[i + 1]) <= 0x10FFFF
  {
    PairRoundTrip(s[i], s[i + 1]);
  }

  lemma NextSingle(s: seq<CodeUnit>, i: nat)
    requires i < |s| && !(i + 1 < |s| && IsHigh(s[i]) && IsLow(s[i + 1]))
    ensures First(s[i..]) == s[i] as bv32 && Width(s[i..]) == 1
  {
  }

  lemma EncodeNext(s: seq<CodeUnit>, i: nat, out: seq<Octet>)
    requires i < |s|
    ensures out + Encode(s[i..]) == out + EncodePoint(First(s[i..])) + Encode(s[i + Width(s[i..])..])
  {
    assert s[i..][Width(s[i..])..] == s[i + Width(s[i..])..];
  }

  /** One turn of the polyfill's loop: encodes the code point at `i`, and says where the
      next turn starts. */
  method EncodeAt(str: seq<CodeUnit>, i: nat, out: seq<Octet>) returns (r: seq<Octet>, next: nat)
    requires i < |str|
    ensures r == out + EncodePoint(First(str[i..])) && next == i + Width(str[i..])
  {
    var c := str[i] as bv32;
    SurrogateRange(str[i]);
    if c < 128 {
      NextSingle(str, i);
      r := out + [c as bv8];
    } else if c < 2048 {
      NextSingle(str, i);
      r := PushTwo(out, c);
    } else if IsHigh(str[i]) && i + 1 < |str| && IsLow(str[i + 1]) {
      NextPair(str, i);
      c := Combine(str[i], str[i + 1]);
      r := PushFour(out, c);
      return r, i + 2;
    } else {
      NextSingle(str, i);
      r := PushThree(out, c);
    }
    next := i + 1;
  }

  /** The polyfill's loop. */
  method ToUtf8Array(str: seq<CodeUnit>) returns (out: seq<Octet>)
    ensures out == Encode(str)
  {
    out := [];
    var i := 0;
    while i < |str|
      invariant 0 <= i <= |str|
      invariant out + Encode(str[i..]) == Encode(str)
    {
      EncodeNext(str, i, out);
      out, i := EncodeAt(str, i, out);
    }
  }

  // ----- A left inverse -----

  /** The code units of a code point. */
  function Units(cp: bv32): seq<CodeUnit>
    requires cp <= 0x10FFFF
  {
    if cp < 0x10000 then [cp as bv16] else [HighOf(cp), LowOf(cp)]
  }

  function Prepend(units: seq<CodeUnit>, rest: Option<seq<CodeUnit>>): Option<seq<CodeUnit>> {
    match rest
    case None => None
    case Some(s) => Some(units + s)
  }

  /** Reads the octets a code point at a time, by the table of section 3 of RFC 3629 with
      surrogates allowed. */
  function Decode(b: seq<Octet>): Option<seq<CodeUnit>> {
    if |b| == 0 then Some([])
    else if Encodes(b[..1], b[0] as bv32) then Prepend(Units(b[0] as bv32), Decode(b[1..]))
    else if |b| >= 2 && Encodes(b[..2], Gather2(b[0], b[1])) then
      Prepend(Units(Gather2(b[0], b[1])), Decode(b[2..]))
    else if |b| >= 3 && Encodes(b[..3], Gather3(b[0], b[1], b[2])) then
      Prepend(Units(Gather3(b[0], b[1], b[2])), Decode(b[3..]))
    else if |b| >= 4 && Encodes(b[..4], Gather4(b[0], b[1], b[2], b[3]))
            && Gather4(b[0], b[1], b[2], b[3]) <= 0x10FFFF then
      Prepend(Units(Gather4(b[0], b[1], b[2], b[3])), Decode(b[4..]))
    else None
  }

  lemma UnitsOfFirst(s: seq<CodeUnit>)
    requires |s| > 0
    ensures Units(First(s)) == s[..Width(s)]
  {
    if StartsWithPair(s) {
      PairRoundTrip(s[0], s[1]);
    }
  }

  lemma DecodePoint(cp: bv32, rest: seq<Octet>)
    requires cp <= 0x10FFFF
    ensures Decode(EncodePoint(cp) + rest) == Prepend(Units(cp), Decode(rest))
  {
    var e := EncodePoint(cp);
    var b := e + rest;
    EncodePointIsRfc3629(cp, e);
    assert b[..|e|] == e && b[|e|..] == rest;
  }

  /** Decoding what the polyfill writes gives back the string, surrogates and all. */
  lemma {:induction false} DecodeEncode(s: seq<CodeUnit>)
    ensures Decode(Encode(s)) == Some(s)
    decreases |s|
  {
    if |s| > 0 {
      DecodeEncode(s[Width(s)..]);
      DecodePoint(First(s), Encode(s[Width(s)..]));
      UnitsOfFirst(s);
      assert s[..Width(s)] + s[Width(s)..] == s;
    }
  }

  /** Different strings never share an encoding. */
  lemma EncodeInjective(s: seq<CodeUnit>, t: seq<CodeUnit>)
    requires Encode(s) == Encode(t)
    ensures s == t
  {
    DecodeEncode(s);
    DecodeEncode(t);
  }

  lemma {:induction false} EncodeLength(s: seq<CodeUnit>)
    ensures |s| <= |Encode(s)| <= 3 * |s|
    decreases |s|
  {
    if |s| > 0 {
      EncodeLength(s[Width(s)..]);
      if StartsWithPair(s) {
        PairRoundTrip(s[0], s[1]);
      }
    }
  }

  // ----- The octet grammar of section 4 of RFC 3629 -----

  predicate In(o: Octet, low: Octet, high: Octet) {
    low <= o <= high
  }

  /** The length of the UTF8-1 to UTF8-4 production at the front of `b`, 0 when there is none. */
  function Production(b: seq<Octet>): (n: nat)
    ensures n <= |b|
  {
    if |b| >= 1 && In(b[0], 0x00, 0x7F) then 1
    else if |b| >= 2 && In(b[0], 0xC2, 0xDF) && In(b[1], 0x80, 0xBF) then 2
    else if |b| >= 3 && Production3(b[0], b[1]) && In(b[2], 0x80, 0xBF) then 3
    else if |b| >= 4 && Production4(b[0], b[1]) && In(b[2], 0x80, 0xBF) && In(b[3], 0x80, 0xBF) then 4
    else 0
  }

  predicate Production3(b0: Octet, b1: Octet) {
    || (b0 == 0xE0 && In(b1, 0xA0, 0xBF))
    || (In(b0, 0xE1, 0xEC) && In(b1, 0x80, 0xBF))
    || (b0 == 0xED && In(b1, 0x80, 0x9F))
    || (In(b0, 0xEE, 0xEF) && In(b1, 0x80, 0xBF))
  }

  predicate Production4(b0: Octet, b1: Octet) {
    || (b0 == 0xF0 && In(b1, 0x90, 0xBF))
    || (In(b0, 0xF1, 0xF3) && In(b1, 0x80, 0xBF))
    || (b0 == 0xF4 && In(b1, 0x80, 0x8F))
  }

  predicate ValidUtf8(b: seq<Octet>) {
    |b| == 0 || (Production(b) > 0 && ValidUtf8(b[Production(b)..]))
  }

  predicate IsSurrogate(cp: bv32) {
    0xD800 <= cp < 0xE000
  }

  lemma Grammar2(cp: bv32)
    requires 0x80 <= cp < 0x800
    ensures In(Lead2(cp), 0xC2, 0xDF) && In(Last(cp), 0x80, 0xBF)
  {
  }

  lemma Grammar3(cp: bv32)
    requires 0x800 <= cp < 0x10000
    ensures In(Lead3(cp), 0xE0, 0xEF) && In(Last(cp), 0x80, 0xBF)
    ensures Production3(Lead3(cp), Mid6(cp)) <==> !IsSurrogate(cp)
  {
  }

  lemma Grammar4(cp: bv32)
    requires 0x10000 <= cp <= 0x10FFFF
    ensures In(Lead4(cp), 0xF0, 0xF4) && Production4(Lead4(cp), Mid12(cp))
    ensures In(Mid6(cp), 0x80, 0xBF) && In(Last(cp), 0x80, 0xBF)
  {
  }

  lemma PointProduction(cp: bv32, rest: seq<Octet>)
    requires cp <= 0x10FFFF
    ensures Production(EncodePoint(cp) + rest) == if IsSurrogate(cp) then 0 else |EncodePoint(cp)|
  {
    if 0x80 <= cp < 0x800 { Grammar2(cp); }
    if 0x800 <= cp < 0x10000 { Grammar3(cp); }
    if 0x10000 <= cp { Grammar4(cp); }
  }

  lemma FirstIsSurrogate(s: seq<CodeUnit>)
    requires |s| > 0
    ensures IsSurrogate(First(s)) <==> !StartsWithPair(s) && (IsHigh(s[0]) || IsLow(s[0]))
  {
    SurrogateRange(s[0]);
    if StartsWithPair(s) {
      PairRoundTrip(s[0], s[1]);
    }
  }

  /** The output matches the octet grammar of section 4 of RFC 3629 exactly when no surrogate
      of the input is unpaired. */
  lemma {:induction false} ValidIffWellFormed(s: seq<CodeUnit>)
    ensures ValidUtf8(Encode(s)) <==> WellFormed(s)
    decreases |s|
  {
    if |s| > 0 {
      var e, rest := EncodePoint(First(s)), Encode(s[Width(s)..]);
      ValidIffWellFormed(s[Width(s)..]);
      PointProduction(First(s), rest);
      FirstIsSurrogate(s);
      assert (e + rest)[|e|..] == rest;
    }
  }
}
