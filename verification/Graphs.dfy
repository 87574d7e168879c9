/** Directed graphs over string keys, by the successors each key lists; a key without an entry
    has none. */
module Graphs {
  import opened Base

  type Graph = map<string, seq<string>>

  function Successors(g: Graph, key: string): seq<string> {
    if key in g then g[key] else []
  }

  predicate Edge(g: Graph, a: string, b: string) {
    a in g && b in g[a]
  }

  predicate Path(g: Graph, p: seq<string>) {
    |p| > 0 && forall i :: 0 < i < |p| ==> Edge(g, p[i - 1], p[i])
  }

  ghost predicate Reaches(g: Graph, a: string, b: string) {
    exists p :: Path(g, p) && p[0] == a && p[|p| - 1] == b
  }

  lemma ReachesItself(g: Graph, a: string)
    ensures Reaches(g, a, a)
  {
    assert Path(g, [a]);
  }

  lemma ReachesNext(g: Graph, a: string, b: string, c: string)
    requires Reaches(g, a, b) && Edge(g, b, c)
    ensures Reaches(g, a, c)
  {
    var p :| Path(g, p) && p[0] == a && p[|p| - 1] == b;
    assert Path(g, p + [c]);
  }

  /** A set that contains a path's first key and the successors of its members contains the
      whole path. */
  lemma {:induction false} PathStaysInside(g: Graph, inside: set<string>, p: seq<string>)
    requires Path(g, p) && p[0] in inside
    requires forall a <- inside :: forall b <- Successors(g, a) :: b in inside
    ensures p[|p| - 1] in inside
  {
    if |p| > 1 {
      assert Edge(g, p[0], p[1]);
      var rest := p[1..];
      forall i | 0 < i < |rest| ensures Edge(g, rest[i - 1], rest[i]) {
        assert Edge(g, p[i + 1 - 1], p[i + 1]);
      }
      PathStaysInside(g, inside, rest);
    }
  }

  /** Cutting the loops out of a path leaves a path that visits no key twice. */
  lemma {:induction false} SimplePath(g: Graph, p: seq<string>) returns (q: seq<string>)
    requires Path(g, p)
    ensures Path(g, q) && Distinct(q) && q[0] == p[0] && q[|q| - 1] == p[|p| - 1]
    decreases |p|
  {
    if Distinct(p) {
      q := p;
    } else {
      var i, j :| 0 <= i < j < |p| && p[i] == p[j];
      CutLoop(g, p, i, j);
      q := SimplePath(g, p[..i] + p[j..]);
    }
  }

  lemma CutLoop(g: Graph, p: seq<string>, i: nat, j: nat)
    requires Path(g, p) && i < j < |p| && p[i] == p[j]
    ensures var q := p[..i] + p[j..]; Path(g, q) && q[0] == p[0] && q[|q| - 1] == p[|p| - 1]
  {
    var q := p[..i] + p[j..];
    forall k | 0 < k < |q| ensures Edge(g, q[k - 1], q[k]) {
      if k < i {
        assert Edge(g, p[k - 1], p[k]);
      } else if k == i {
        assert Edge(g, p[i - 1], p[i]);
      } else {
        assert Edge(g, p[k - i + j - 1], p[k - i + j]);
      }
    }
  }
}
