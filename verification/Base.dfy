/** Small definitions several modules share. */
module Base {
  datatype Option<+T> = None | Some(value: T)

  predicate Distinct<T(==)>(s: seq<T>) {
    forall i, j :: 0 <= i < j < |s| ==> s[i] != s[j]
  }
}

/** `String.prototype.replace` of a character everywhere, and `split` and `join`. */
module Strings {
  function ReplaceChar(s: string, c: char, to: string): string {
    if |s| == 0 then "" else (if s[0] == c then to else [s[0]]) + ReplaceChar(s[1..], c, to)
  }

  lemma {:induction false} ReplaceCharAppend(s: string, t: string, c: char, to: string)
    ensures ReplaceChar(s + t, c, to) == ReplaceChar(s, c, to) + ReplaceChar(t, c, to)
  {
    if |s| == 0 {
      assert s + t == t;
    } else {
      assert (s + t)[1..] == s[1..] + t;
      ReplaceCharAppend(s[1..], t, c, to);
    }
  }

  function Split(s: string, c: char): (parts: seq<string>)
    ensures |parts| >= 1
  {
    if |s| == 0 then [""]
    else if s[0] == c then [""] + Split(s[1..], c)
    else var r := Split(s[1..], c); [[s[0]] + r[0]] + r[1..]
  }

  function Join(parts: seq<string>, c: char): string
    requires |parts| >= 1
  {
    if |parts| == 1 then parts[0] else parts[0] + [c] + Join(parts[1..], c)
  }

  lemma {:induction false} JoinSplit(s: string, c: char)
    ensures Join(Split(s, c), c) == s
  {
    if |s| > 0 {
      JoinSplit(s[1..], c);
      assert s == [s[0]] + s[1..];
      var rest := Split(s[1..], c);
      if s[0] == c {
        assert ([""] + rest)[1..] == rest;
      } else {
        assert ([[s[0]] + rest[0]] + rest[1..])[1..] == rest[1..];
      }
    }
  }

  lemma {:induction false} SplitPiece(piece: string, rest: string, c: char)
    requires c !in piece
    ensures Split(piece + [c] + rest, c) == [piece] + Split(rest, c)
  {
    var s := piece + [c] + rest;
    if |piece| == 0 {
      assert s[1..] == rest;
    } else {
      assert s[1..] == piece[1..] + [c] + rest;
      SplitPiece(piece[1..], rest, c);
      assert [piece[0]] + piece[1..] == piece;
    }
  }

  lemma {:induction false} PiecesLackSeparator(s: string, c: char)
    ensures forall piece <- Split(s, c) :: c !in piece
  {
    if |s| > 0 { PiecesLackSeparator(s[1..], c); }
  }

  lemma {:induction false} SplitWhole(piece: string, c: char)
    requires c !in piece
    ensures Split(piece, c) == [piece]
  {
    if |piece| > 0 {
      SplitWhole(piece[1..], c);
      assert [piece[0]] + piece[1..] == piece;
    }
  }
}

/** `Array.prototype.sort` on strings. */
module Sorting {

  predicate LessEq(a: string, b: string) {
    |a| == 0 || (|b| > 0 && (a[0] < b[0] || (a[0] == b[0] && LessEq(a[1..], b[1..]))))
  }

  /** A beginning comes first, and otherwise the first difference decides. */
  lemma {:induction false} LessEqIff(a: string, b: string)
    ensures LessEq(a, b) <==> a <= b || exists i :: 0 <= i < |a| && DiffersAt(a, b, i) && a[i] < b[i]
  {
    if |a| > 0 && |b| > 0 && a[0] == b[0] {
      var a', b' := a[1..], b[1..];
      LessEqIff(a', b');
      assert a == [a[0]] + a' && b == [b[0]] + b';
      forall i | 0 <= i < |a'| ensures DiffersAt(a', b', i) <==> DiffersAt(a, b, i + 1) {
        if i < |b'| { assert a[..i + 1] == [a[0]] + a'[..i] && b[..i + 1] == [b[0]] + b'[..i]; }
      }
      assert a <= b <==> a' <= b';
      if i :| 0 <= i < |a| && DiffersAt(a, b, i) && a[i] < b[i] { assert DiffersAt(a', b', i - 1); }
      if i :| 0 <= i < |a'| && DiffersAt(a', b', i) && a'[i] < b'[i] { assert DiffersAt(a, b, i + 1); }
    } else if |a| > 0 && |b| > 0 {
      assert DiffersAt(a, b, 0);
      assert forall i :: 0 < i < |a| ==> !DiffersAt(a, b, i) by {
        forall i | 0 < i < |a| && i < |b| ensures a[..i] != b[..i] { assert a[..i][0] == a[0] && b[..i][0] == b[0]; }
      }
    }
  }

  predicate DiffersAt(a: string, b: string, i: nat) {
    i < |a| && i < |b| && a[..i] == b[..i] && a[i] != b[i]
  }

  predicate Sorted(s: seq<string>) {
    forall i, j :: 0 <= i < j < |s| ==> LessEq(s[i], s[j])
  }

  lemma {:induction false} TotalOrder(a: string, b: string)
    ensures LessEq(a, b) || LessEq(b, a)
    ensures LessEq(a, b) && LessEq(b, a) ==> a == b
  {
    if |a| > 0 && |b| > 0 {
      TotalOrder(a[1..], b[1..]);
      assert a == [a[0]] + a[1..] && b == [b[0]] + b[1..];
    }
  }

  lemma {:induction false} Transitive(a: string, b: string, c: string)
    requires LessEq(a, b) && LessEq(b, c)
    ensures LessEq(a, c)
  {
    if |a| > 0 && a[0] == b[0] && b[0] == c[0] {
      Transitive(a[1..], b[1..], c[1..]);
    }
  }

  function Insert(x: string, s: seq<string>): (r: seq<string>)
    ensures multiset(r) == multiset{x} + multiset(s)
  {
    if |s| == 0 || LessEq(x, s[0]) then
      [x] + s
    else
      assert s == [s[0]] + s[1..];
      [s[0]] + Insert(x, s[1..])
  }

  function Sort(s: seq<string>): (r: seq<string>)
    ensures multiset(r) == multiset(s)
  {
    if |s| == 0 then [] else
      assert s == [s[0]] + s[1..];
      Insert(s[0], Sort(s[1..]))
  }

  lemma {:induction false} InsertSorted(x: string, s: seq<string>)
    requires Sorted(s)
    ensures Sorted(Insert(x, s))
  {
    if |s| > 0 && !LessEq(x, s[0]) {
      InsertSorted(x, s[1..]);
      TotalOrder(x, s[0]);
      forall y | y in Insert(x, s[1..])
        ensures LessEq(s[0], y)
      {
        assert y in multiset{x} + multiset(s[1..]);
      }
    } else if |s| > 0 {
      forall y | y in s
        ensures LessEq(x, y)
      {
        TotalOrder(s[0], s[0]);
        Transitive(x, s[0], y);
      }
    }
  }

  lemma {:induction false} SortSorted(s: seq<string>)
    ensures Sorted(Sort(s))
  {
    if |s| > 0 {
      SortSorted(s[1..]);
      InsertSorted(s[0], Sort(s[1..]));
    }
  }

  lemma SortedHead(s: seq<string>, t: seq<string>)
    requires Sorted(s) && Sorted(t) && multiset(s) == multiset(t) && |s| > 0 && |t| > 0
    ensures s[0] == t[0]
  {
    assert s[0] in multiset(t) && t[0] in multiset(s);
    TotalOrder(s[0], t[0]);
    TotalOrder(s[0], s[0]);
    TotalOrder(t[0], t[0]);
  }

  lemma DropHead(s: seq<string>)
    requires |s| > 0
    ensures multiset(s[1..]) == multiset(s) - multiset{s[0]}
  {
    assert s == [s[0]] + s[1..];
  }

  /** There is one sorted arrangement of a collection, so the order of the input is lost. */
  lemma {:induction false} SortedUnique(s: seq<string>, t: seq<string>)
    requires Sorted(s) && Sorted(t) && multiset(s) == multiset(t)
    ensures s == t
  {
    assert |s| == |multiset(s)| && |t| == |multiset(t)|;
    if |s| > 0 {
      SortedHead(s, t);
      DropHead(s);
      DropHead(t);
      SortedUnique(s[1..], t[1..]);
      assert s == [s[0]] + s[1..] && t == [t[0]] + t[1..];
    }
  }
}
