/** Attribute references: escaped paths into a context (AttributeReference.ts). The escapes
    are those of sections 3 and 4 of RFC 6901. */
module References {
  import opened Base
  import opened Strings

  // ----- Escaping and unescaping -----

  /** Replaces every occurrence of the two characters `a` `b`, left to right. */
  function ReplacePair(s: string, a: char, b: char, to: char): string {
    if |s| < 2 then s
    else if s[0] == a && s[1] == b then [to] + ReplacePair(s[2..], a, b, to)
    else [s[0]] + ReplacePair(s[1..], a, b, to)
  }

  function ToRefString(value: string): string {
    "/" + ReplaceChar(ReplaceChar(value, '~', "~0"), '/', "~1")
  }

  function Replaced(ref: string): string {
    ReplacePair(ReplacePair(ref, '~', '1', '/'), '~', '0', '~')
  }

  /** `ref.indexOf('~')` is falsy only when it is 0, so a leading '~' stops the decoding. */
  function Unescape(ref: string): string {
    if |ref| > 0 && ref[0] == '~' then ref else Replaced(ref)
  }

  function EscapeChar(c: char): string {
    if c == '~' then "~0" else if c == '/' then "~1" else [c]
  }

  /** Section 3 of RFC 6901, one character at a time. */
  function Escape(s: string): string {
    if |s| == 0 then "" else EscapeChar(s[0]) + Escape(s[1..])
  }

  /** Section 4 of RFC 6901 in one pass; a '~' that starts no escape is kept. */
  function Decode(s: string): string {
    if |s| == 0 then ""
    else if |s| >= 2 && s[0] == '~' && s[1] == '1' then "/" + Decode(s[2..])
    else if |s| >= 2 && s[0] == '~' && s[1] == '0' then "~" + Decode(s[2..])
    else [s[0]] + Decode(s[1..])
  }

  lemma {:induction false} ReplacementsEscape(value: string)
    ensures ReplaceChar(ReplaceChar(value, '~', "~0"), '/', "~1") == Escape(value)
  {
    if |value| > 0 {
      ReplacementsEscape(value[1..]);
      var first, rest := if value[0] == '~' then "~0" else [value[0]], ReplaceChar(value[1..], '~', "~0");
      ReplaceCharAppend(first, rest, '/', "~1");
      assert first[1..] == if value[0] == '~' then "0" else "";
      assert ReplaceChar(first, '/', "~1") == EscapeChar(value[0]);
    }
  }

  /** Escaping '~' first and '/' second is the escaping of section 3 of RFC 6901. */
  lemma ToRefStringEscapes(value: string)
    ensures ToRefString(value) == "/" + Escape(value)
  {
    ReplacementsEscape(value);
  }

  /** The two replacements in sequence are one decoding pass, on every string: the first
      never makes an escape the second would take. */
  lemma {:induction false} ReplacedIsDecode(s: string)
    ensures Replaced(s) == Decode(s)
    decreases |s|
  {
    if |s| >= 2 && s[0] == '~' && (s[1] == '1' || s[1] == '0') {
      ReplacedIsDecode(s[2..]);
      if s[1] == '0' {
        var t := ReplacePair(s[2..], '~', '1', '/');
        assert s[1..][0] == '0' && s[1..][1..] == s[2..];
        assert ReplacePair(s[1..], '~', '1', '/') == "0" + t;
        assert (['~', '0'] + t)[2..] == t;
        assert ReplacePair(s, '~', '1', '/') == ['~', '0'] + t;
      } else {
        var t := ReplacePair(s[2..], '~', '1', '/');
        assert ReplacePair(s, '~', '1', '/') == "/" + t;
        assert ("/" + t)[1..] == t;
        ReplacePairOther('/', t);
      }
    } else if |s| > 0 {
      ReplacedIsDecode(s[1..]);
      var t := ReplacePair(s[1..], '~', '1', '/');
      assert |s| == 1 ==> s[1..] == "";
      assert ReplacePair(s, '~', '1', '/') == [s[0]] + t;
      assert ([s[0]] + t)[1..] == t;
      assert |t| > 0 && s[0] == '~' ==> t[0] != '0';
    }
  }

  lemma ReplacePairOther(c: char, t: string)
    requires c != '~'
    ensures ReplacePair([c] + t, '~', '0', '~') == [c] + ReplacePair(t, '~', '0', '~')
  {
    assert ([c] + t)[1..] == t;
  }

  lemma {:induction false} DecodeEscape(s: string)
    ensures Decode(Escape(s)) == s
  {
    if |s| > 0 {
      DecodeEscape(s[1..]);
      assert Escape(s)[|EscapeChar(s[0])|..] == Escape(s[1..]);
    }
  }

  // ----- Parsing -----

  function GetComponents(reference: string): seq<string> {
    var parts := Split(if |reference| > 0 && reference[0] == '/' then reference[1..] else reference, '/');
    UnescapeAll(parts)
  }

  function UnescapeAll(parts: seq<string>): (r: seq<string>)
    ensures |r| == |parts|
  {
    seq(|parts|, i requires 0 <= i < |parts| => Unescape(parts[i]))
  }

  predicate IsLiteral(reference: string) {
    !(|reference| > 0 && reference[0] == '/')
  }

  /** `.` in a regular expression matches none of these. */
  predicate LineTerminator(c: char) {
    c == '\n' || c == '\r' || c == '\U{2028}' || c == '\U{2029}'
  }

  predicate SlashesAt(s: string, i: nat) {
    i + 1 < |s| && s[i] == '/' && s[i + 1] == '/'
  }

  predicate DoubleSlash(s: string) {
    exists i :: 0 <= i < |s| && SlashesAt(s, i)
  }

  /** A '~' on the first line, followed by none of the characters of the class `[^0|^1]`:
      the class also lets '|' and '^' through. */
  predicate BadEscapeAt(s: string, i: nat) {
    && 1 <= i && i + 1 < |s| && s[i] == '~' && s[i + 1] !in {'0', '|', '^', '1'}
    && forall j :: 1 <= j < i ==> !LineTerminator(s[j])
  }

  predicate BadEscape(s: string) {
    |s| > 0 && s[0] == '/' && exists i :: 0 <= i < |s| && BadEscapeAt(s, i)
  }

  predicate EndsWithTilde(s: string) {
    |s| > 0 && s[|s| - 1] == '~'
  }

  predicate Validate(reference: string) {
    !(DoubleSlash(reference) || BadEscape(reference) || EndsWithTilde(reference))
  }

  datatype AttributeReference = AttributeReference(isValid: bool, components: seq<string>, redactionName: string)

  /** The constructor with `literal` false. */
  function Parse(reference: string): AttributeReference {
    if reference == "" || reference == "/" || !Validate(reference) then
      AttributeReference(false, [], reference)
    else
      var components :=
        if IsLiteral(reference) then [reference]
        else if '/' !in reference[1..] then [Unescape(reference[1..])]
        else GetComponents(reference);
      AttributeReference(components[0] != "_meta", components, reference)
  }

  /** The constructor with `literal` true. */
  function Literal(value: string): AttributeReference {
    AttributeReference(value != "", [value], if IsLiteral(value) then value else ToRefString(value))
  }

  // ----- Printing, and reading back -----

  /** The reference string of a list of components. */
  function Print(components: seq<string>): string {
    if |components| == 0 then "" else ToRefString(components[0]) + Print(components[1..])
  }

  predicate StartsEscaped(component: string) {
    |component| > 0 && (component[0] == '~' || component[0] == '/')
  }

  /** Exactly the component lists that survive printing and parsing. */
  predicate Survives(components: seq<string>) {
    && |components| > 0 && components[0] != "" && components[0] != "_meta"
    && (forall i :: 0 <= i < |components| - 1 ==> components[i] != "")
    && (forall i :: 0 <= i < |components| ==> !StartsEscaped(components[i]))
  }

  /** A '~' at `i` opens an escape. */
  predicate GoodTildeAt(s: string, i: nat) {
    i < |s| && s[i] == '~' ==> i + 1 < |s| && s[i + 1] in {'0', '1'}
  }

  lemma {:induction false} EscapeShape(s: string)
    ensures '/' !in Escape(s)
    ensures forall i: nat :: GoodTildeAt(Escape(s), i)
    ensures |s| > 0 ==> |Escape(s)| > 0 && (Escape(s)[0] == '~' <==> StartsEscaped(s))
    ensures |Escape(s)| >= |s| && (StartsEscaped(s) ==> |Escape(s)| > |s|)
  {
    if |s| > 0 {
      EscapeShape(s[1..]);
      var e, t := EscapeChar(s[0]), Escape(s[1..]);
      forall i: nat
        ensures GoodTildeAt(e + t, i)
      {
        if i >= |e| {
          assert GoodTildeAt(t, i - |e|);
        }
      }
    }
  }

  /** Unescaping gives back a component exactly when its first character needed no escape. */
  lemma UnescapeEscape(s: string)
    ensures Unescape(Escape(s)) == s <==> !StartsEscaped(s)
  {
    EscapeShape(s);
    ReplacedIsDecode(Escape(s));
    DecodeEscape(s);
  }

  function EscapeAll(components: seq<string>): (r: seq<string>)
    ensures |r| == |components|
  {
    seq(|components|, i requires 0 <= i < |components| => Escape(components[i]))
  }

  lemma {:induction false} SplitPrint(cs: seq<string>)
    requires |cs| > 0
    ensures |Print(cs)| > 0 && Print(cs)[0] == '/' && Split(Print(cs)[1..], '/') == EscapeAll(cs)
  {
    ToRefStringEscapes(cs[0]);
    EscapeShape(cs[0]);
    var e := Escape(cs[0]);
    assert EscapeAll(cs) == [e] + EscapeAll(cs[1..]);
    if |cs| == 1 {
      assert Print(cs[1..]) == "" && Print(cs)[1..] == e;
      SplitWhole(e, '/');
    } else {
      SplitPrint(cs[1..]);
      DropSlash(e, Print(cs[1..]));
      SplitPiece(e, Print(cs[1..])[1..], '/');
    }
  }

  lemma DropSlash(e: string, p: string)
    requires |p| > 0 && p[0] == '/'
    ensures (['/'] + e + p)[1..] == e + ['/'] + p[1..]
  {
    assert p == ['/'] + p[1..];
  }

  predicate InnerEmpty(cs: seq<string>) {
    exists i :: 0 <= i < |cs| - 1 && cs[i] == ""
  }

  lemma InnerEmptyStep(cs: seq<string>)
    requires |cs| > 0
    ensures InnerEmpty(cs) <==> (|cs| > 1 && cs[0] == "") || InnerEmpty(cs[1..])
  {
    if i :| 1 <= i < |cs| - 1 && cs[i] == "" {
      assert cs[1..][i - 1] == "";
    }
    if j :| 0 <= j < |cs[1..]| - 1 && cs[1..][j] == "" {
      assert cs[j + 1] == "";
    }
  }

  /** Two slashes meet in "/" + e + rest only when e is empty, or further on. */
  lemma DoubleSlashStep(e: string, rest: string)
    requires '/' !in e && (|rest| > 0 ==> rest[0] == '/')
    ensures DoubleSlash("/" + e + rest) <==> (e == "" && rest != "") || DoubleSlash(rest)
  {
    var s := "/" + e + rest;
    assert forall k :: 0 <= k < |e| ==> s[k + 1] == e[k] != '/';
    if i :| 0 <= i < |s| && SlashesAt(s, i) {
      if i >= |e| + 1 {
        assert SlashesAt(rest, i - |e| - 1);
      }
    }
    if e == "" && rest != "" {
      assert SlashesAt(s, 0);
    }
    if DoubleSlash(rest) {
      var i :| 0 <= i < |rest| && SlashesAt(rest, i);
      assert SlashesAt(s, i + |e| + 1);
    }
  }

  lemma {:induction false} PrintShape(cs: seq<string>)
    ensures forall i: nat :: GoodTildeAt(Print(cs), i)
    ensures DoubleSlash(Print(cs)) <==> InnerEmpty(cs)
    ensures |cs| > 0 ==> |Print(cs)| > 0 && Print(cs)[0] == '/'
    ensures Print(cs) == "/" <==> cs == [""]
  {
    if |cs| > 0 {
      var e, rest := Escape(cs[0]), Print(cs[1..]);
      ToRefStringEscapes(cs[0]);
      EscapeShape(cs[0]);
      PrintShape(cs[1..]);
      InnerEmptyStep(cs);
      assert Print(cs) == "/" + e + rest;
      DoubleSlashStep(e, rest);
      forall i: nat
        ensures GoodTildeAt("/" + e + rest, i)
      {
        if 1 <= i <= |e| {
          assert GoodTildeAt(e, i - 1);
        } else if i > |e| {
          assert GoodTildeAt(rest, i - |e| - 1);
        }
      }
    }
  }

  /** The printed form passes `validate` exactly when no component but the last is empty. */
  lemma PrintValidates(cs: seq<string>)
    ensures Validate(Print(cs)) <==> !InnerEmpty(cs)
  {
    PrintShape(cs);
    var p := Print(cs);
    forall i: nat
      ensures !BadEscapeAt(p, i)
    {
      assert GoodTildeAt(p, i);
    }
    assert |p| > 0 ==> GoodTildeAt(p, |p| - 1);
  }

  lemma PrintedComponents(cs: seq<string>)
    requires |cs| > 0
    ensures GetComponents(Print(cs)) == UnescapeAll(EscapeAll(cs))
    ensures '/' !in Print(cs)[1..] ==> [Unescape(Print(cs)[1..])] == UnescapeAll(EscapeAll(cs))
  {
    SplitPrint(cs);
    if '/' !in Print(cs)[1..] {
      SplitWhole(Print(cs)[1..], '/');
      assert EscapeAll(cs) == [Print(cs)[1..]];
    }
  }

  /** What the constructor makes of a printed list it does not refuse. */
  lemma ParsePrint(cs: seq<string>)
    requires |cs| > 0 && cs != [""] && !InnerEmpty(cs)
    ensures Parse(Print(cs)).components == UnescapeAll(EscapeAll(cs))
    ensures Parse(Print(cs)).isValid <==> cs[0] != "_meta"
  {
    PrintShape(cs);
    PrintValidates(cs);
    PrintedComponents(cs);
    FirstIsMeta(cs[0]);
  }

  lemma FirstIsMeta(s: string)
    ensures Unescape(Escape(s)) == "_meta" <==> s == "_meta"
  {
    EscapeShape(s);
    UnescapeEscape(s);
  }

  /** Round trip, on all component lists: printing and parsing gives back a valid reference
      with the same components exactly when `Survives`. */
  lemma RoundTrip(cs: seq<string>)
    ensures Parse(Print(cs)).isValid && Parse(Print(cs)).components == cs <==> Survives(cs)
  {
    PrintValidates(cs);
    if |cs| > 0 && cs != [""] && !InnerEmpty(cs) {
      ParsePrint(cs);
      var back := UnescapeAll(EscapeAll(cs));
      forall i | 0 <= i < |cs|
        ensures back[i] == cs[i] <==> !StartsEscaped(cs[i])
      {
        UnescapeEscape(cs[i]);
      }
      if forall i :: 0 <= i < |cs| ==> !StartsEscaped(cs[i]) {
        assert back == cs;
      }
    }
  }

  /** A printed list of non-empty components that does not start with `_meta` is never
      refused, whatever is read back. */
  lemma PrintedIsValid(cs: seq<string>)
    requires |cs| > 0 && cs[0] != "_meta" && "" !in cs
    ensures Parse(Print(cs)).isValid && |Parse(Print(cs)).components| == |cs|
  {
    assert cs[0] in cs;
    ParsePrint(cs);
  }

  /** The redaction name of a literal, read as a reference, denotes that literal exactly
      when the literal is none of these: the name a leading '/' is escaped into is left
      undecoded by the guard in `unescape`. */
  lemma LiteralNameRoundTrip(value: string)
    ensures Parse(Literal(value).redactionName).isValid
            && Parse(Literal(value).redactionName).components == [value]
            <==> value != "" && value != "_meta" && value[0] != '/'
                 && !DoubleSlash(value) && !EndsWithTilde(value)
  {
    if !IsLiteral(value) {
      assert Print([value]) == ToRefString(value) + Print([]);
      assert ToRefString(value) + Print([]) == ToRefString(value);
      RoundTrip([value]);
    }
  }

  // ----- References that are not JSON pointers, and references into `_meta` -----

  /** A '~' that opens no escape. */
  predicate LooseTildeAt(s: string, i: nat) {
    i + 1 < |s| && s[i] == '~' && s[i + 1] !in {'0', '1'}
  }

  /** The syntax of section 3 of RFC 6901. */
  predicate Rfc6901Syntax(s: string) {
    (s == "" || s[0] == '/') && forall i :: 0 <= i < |s| ==> GoodTildeAt(s, i)
  }

  /** What the expression of `validate` misses: its class `[^0|^1]` names '|' and '^' too, and its
      '.' stops at a line terminator. */
  predicate Overlooked(s: string, i: nat) {
    LooseTildeAt(s, i) ==> s[i + 1] in {'|', '^'} || exists j :: 1 <= j < i && LineTerminator(s[j])
  }

  /** The references with a leading '/' that pass `validate` without the syntax of RFC 6901 are
      exactly those whose loose tildes are all overlooked. */
  lemma ValidatedOutsideRfc6901(s: string)
    requires |s| > 0 && s[0] == '/'
    ensures Validate(s) && !Rfc6901Syntax(s) <==>
              && !DoubleSlash(s) && !EndsWithTilde(s)
              && (exists i :: 0 <= i < |s| && LooseTildeAt(s, i))
              && (forall i :: 0 <= i < |s| ==> Overlooked(s, i))
  {
    forall i | 0 <= i < |s| ensures BadEscapeAt(s, i) <==> !Overlooked(s, i) {
    }
    forall i | 0 <= i < |s| ensures !GoodTildeAt(s, i) <==> LooseTildeAt(s, i) || (i == |s| - 1 && EndsWithTilde(s)) {
    }
    if EndsWithTilde(s) { assert !GoodTildeAt(s, |s| - 1); }
  }

  /** Three of them. */
  lemma OverlookedTildes()
    ensures forall s <- ["/a~|b", "/a~^b", "/a\n~2"] :: Validate(s) && !Rfc6901Syntax(s)
  {
    forall s | s in ["/a~|b", "/a~^b", "/a\n~2"] ensures Validate(s) && !Rfc6901Syntax(s) {
      assert !GoodTildeAt(s, if s[2] == '~' then 2 else 3);
    }
  }

  lemma {:induction false} DecodeIdentity(s: string)
    requires '~' !in Decode(s) && '/' !in Decode(s)
    ensures Decode(s) == s
  {
    if |s| > 0 {
      assert Decode(s)[0] !in {'~', '/'};
      assert Decode(s)[1..] == Decode(s[1..]);
      DecodeIdentity(s[1..]);
    }
  }

  lemma UnescapesToMeta(s: string)
    ensures Unescape(s) == "_meta" <==> s == "_meta"
  {
    ReplacedIsDecode(s);
    if Unescape(s) == "_meta" && !(|s| > 0 && s[0] == '~') {
      DecodeIdentity(s);
    }
    if s == "_meta" {
      NothingToDecode(s);
    }
  }

  lemma {:induction false} NothingToDecode(s: string)
    requires '~' !in s
    ensures Decode(s) == s
  {
    if |s| > 0 { NothingToDecode(s[1..]); }
  }

  lemma SplitFirst(s: string, piece: string, c: char)
    requires c !in piece
    ensures |Split(s, c)| > 1 && Split(s, c)[0] == piece <==> piece + [c] <= s
  {
    if piece + [c] <= s {
      assert s == piece + [c] + s[|piece| + 1..];
      SplitPiece(piece, s[|piece| + 1..], c);
    } else if |Split(s, c)| > 1 && Split(s, c)[0] == piece {
      JoinSplit(s, c);
    }
  }

  /** The strings the constructor reads as a reference into `_meta` are those that start with
      "/_meta/" and pass `validate`; none of them is valid. */
  lemma IntoMetaIff(s: string)
    ensures var r := Parse(s);
      && (|r.components| > 1 && r.components[0] == "_meta" <==> "/_meta/" <= s && Validate(s))
      && (|r.components| > 1 && r.components[0] == "_meta" ==> !r.isValid)
  {
    if s != "" && s != "/" && Validate(s) && s[0] == '/' {
      var rest := s[1..];
      assert "/_meta/" <= s <==> "_meta" + ['/'] <= rest by {
        assert s == ['/'] + rest;
        assert "/_meta/" == ['/'] + ("_meta" + ['/']);
      }
      SplitFirst(rest, "_meta", '/');
      UnescapesToMeta(Split(rest, '/')[0]);
      if '/' !in rest { SplitWhole(rest, '/'); }
    }
  }

  /** What the constructor makes of any string: a refused one denotes nothing; one without a leading
      '/' is a name; any other is cut at its '/', and each piece that does not start with '~' is
      decoded as in RFC 6901. */
  lemma ParseSays(s: string)
    ensures Parse(s).redactionName == s
    ensures s == "" || s == "/" || !Validate(s) ==> !Parse(s).isValid && Parse(s).components == []
    ensures s != "" && s != "/" && Validate(s) && s[0] != '/' ==>
              Parse(s).components == [s] && (Parse(s).isValid <==> s != "_meta")
    ensures s != "" && s != "/" && Validate(s) && s[0] == '/' ==>
              var pieces := Split(s[1..], '/');
              && |Parse(s).components| == |pieces| && (Parse(s).isValid <==> pieces[0] != "_meta")
              && forall i :: 0 <= i < |pieces| ==>
                   Parse(s).components[i] == if "~" <= pieces[i] then pieces[i] else Decode(pieces[i])
  {
    if s != "" && s != "/" && Validate(s) && s[0] == '/' {
      var pieces := Split(s[1..], '/');
      if '/' !in s[1..] { SplitWhole(s[1..], '/'); }
      assert Parse(s).components == UnescapeAll(pieces);
      UnescapesToMeta(pieces[0]);
      forall i | 0 <= i < |pieces| ensures Unescape(pieces[i]) == if "~" <= pieces[i] then pieces[i] else Decode(pieces[i]) {
        ReplacedIsDecode(pieces[i]);
      }
    }
  }

  /** A literal is its own only component, and its name is escaped only if it would read as a
      reference. */
  lemma LiteralSays(value: string)
    ensures Literal(value).components == [value] && (Literal(value).isValid <==> value != "")
    ensures Literal(value).redactionName == if "/" <= value then "/" + Escape(value) else value
  {
    ToRefStringEscapes(value);
  }

  lemma MetaReference()
    ensures Parse("/_meta/x") == AttributeReference(false, ["_meta", "x"], "/_meta/x")
  {
    var s := "/_meta/x";
    MetaReferencePasses();
    assert s[1..] == "_meta" + ['/'] + "x" && s[1..][5] == '/';
    SplitPiece("_meta", "x", '/');
    SplitWhole("x", '/');
    UnescapesToMeta("_meta");
    ReplacedIsDecode("x");
    NothingToDecode("x");
    assert UnescapeAll(["_meta", "x"]) == ["_meta", "x"];
  }

  lemma MetaReferencePasses()
    ensures Validate("/_meta/x")
  {
    assert !DoubleSlash("/_meta/x") && !BadEscape("/_meta/x") && !EndsWithTilde("/_meta/x");
  }
}
