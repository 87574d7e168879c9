/** Whether an agent graph is connected (LDAIClientImpl.ts, AgentGraphDefinition.ts). */
module AgentGraphs {
  import opened Base
  import opened Graphs

  /** `sources` is the order in which the source keys of the edges are enumerated. */
  datatype AgentGraph = AgentGraph(root: string, edges: Graph, sources: seq<string>) {
    predicate Enumerated() {
      Distinct(sources) && (set key <- sources) == edges.Keys
    }
  }

  /** Every key the graph mentions. */
  function Mentioned(g: AgentGraph): set<string> {
    {g.root} + g.edges.Keys + (set a, b | a in g.edges.Keys && b in g.edges[a] :: b)
  }

  /** `visited.add` with its queue. */
  method Visit(visited: set<string>, queue: seq<string>, targets: seq<string>) returns (visited': set<string>, queue': seq<string>)
    ensures visited' == visited + (set key <- targets)
    ensures forall key :: key in queue' <==> key in queue || (key in visited' && key !in visited)
    ensures visited' == visited ==> queue' == queue
  {
    visited', queue' := visited, queue;
    for i := 0 to |targets|
      invariant visited' == visited + (set key <- targets[..i])
      invariant forall key :: key in queue' <==> key in queue || (key in visited' && key !in visited)
      invariant visited' == visited ==> queue' == queue
    {
      assert targets[..i + 1] == targets[..i] + [targets[i]];
      var key := targets[i];
      if key !in visited' {
        visited' := visited' + {key};
        queue' := queue' + [key];
      }
    }
    assert targets[..|targets|] == targets;
  }

  /** Breadth-first search finds exactly the keys that edges lead to from the root. */
  method CollectReachableKeys(g: AgentGraph) returns (visited: set<string>)
    ensures forall key :: key in visited <==> Reaches(g.edges, g.root, key)
  {
    visited := {g.root};
    var queue := [g.root];
    ReachesItself(g.edges, g.root);
    while |queue| > 0
      invariant g.root in visited && visited <= Mentioned(g)
      invariant forall key <- visited :: Reaches(g.edges, g.root, key)
      invariant forall key <- queue :: key in visited
      invariant forall key <- visited :: key in queue || forall next <- Successors(g.edges, key) :: next in visited
      decreases |Mentioned(g) - visited|, |queue|
    {
      var key := queue[0];
      ghost var before := visited;
      visited, queue := Visit(visited, queue[1..], Successors(g.edges, key));
      forall k <- visited ensures Reaches(g.edges, g.root, k) {
        if k !in before { ReachesNext(g.edges, g.root, key, k); }
      }
      Shrinks(Mentioned(g), before, visited);
    }
    forall key | Reaches(g.edges, g.root, key) ensures key in visited {
      var p :| Path(g.edges, p) && p[0] == g.root && p[|p| - 1] == key;
      PathStaysInside(g.edges, visited, p);
    }
  }

  lemma Shrinks(all: set<string>, before: set<string>, after: set<string>)
    requires before <= after <= all
    ensures before == after || |all - after| < |all - before|
  {
    if before != after {
      assert all - after < all - before;
      SubsetSize(all - after, all - before);
    }
  }

  lemma SubsetSize(a: set<string>, b: set<string>)
    requires a < b
    ensures |a| < |b|
  {
    assert |b| == |a| + |b - a| by { assert b == a + (b - a); }
    assert b - a != {};
  }

  // ----- The keys in insertion order -----

  /** `Set.add` of some keys, one after the other, to those added before. */
  function Added(keys: seq<string>, more: seq<string>): (r: seq<string>)
    requires Distinct(keys)
    ensures Distinct(r) && keys <= r && forall key :: key in r <==> key in keys || key in more
  {
    if |more| == 0 then keys
    else
      var last, before := more[|more| - 1], Added(keys, more[..|more| - 1]);
      assert more == more[..|more| - 1] + [last];
      if last in before then before else before + [last]
  }

  /** Each source followed by its targets. */
  function Entries(edges: Graph, sources: seq<string>): seq<string> {
    if |sources| == 0 then []
    else
      var source := sources[|sources| - 1];
      Entries(edges, sources[..|sources| - 1]) + [source] + Successors(edges, source)
  }

  /** The keys the graph mentions, in the order they are first mentioned: the root, then the
      entries of the edges. */
  function Order(g: AgentGraph): seq<string> {
    Added([g.root], Entries(g.edges, g.sources))
  }

  lemma {:induction false} AddedTwice(keys: seq<string>, a: seq<string>, b: seq<string>)
    requires Distinct(keys)
    ensures Added(Added(keys, a), b) == Added(keys, a + b)
  {
    if |b| == 0 {
      assert a + b == a;
    } else {
      AddedTwice(keys, a, b[..|b| - 1]);
      assert (a + b)[..|a + b| - 1] == a + b[..|b| - 1];
    }
  }

  /** Wherever a source stands among the others, it is followed by its own targets. */
  lemma {:induction false} EntriesInOrder(edges: Graph, before: seq<string>, source: string, after: seq<string>)
    requires source in edges
    ensures Entries(edges, before + [source] + after) == Entries(edges, before) + [source] + edges[source] + Entries(edges, after)
  {
    var all := before + [source] + after;
    if after == [] {
      assert all[..|all| - 1] == before;
    } else {
      var n := |after| - 1;
      EntriesInOrder(edges, before, source, after[..n]);
      assert all[..|all| - 1] == before + [source] + after[..n];
    }
  }

  /** One key more comes last, unless it is there. */
  lemma AddedOne(keys: seq<string>, more: seq<string>, key: string)
    requires Distinct(keys)
    ensures Added(keys, []) == keys
    ensures Added(keys, more + [key]) == Added(keys, more) + if key in keys || key in more then [] else [key]
  {
    assert (more + [key])[..|more|] == more;
  }

  /** The entry of `source` mentions `key`. */
  predicate Mentions(edges: Graph, source: string, key: string) {
    key == source || key in Successors(edges, source)
  }

  lemma {:induction false} EntriesMention(edges: Graph, sources: seq<string>, key: string)
    ensures key in Entries(edges, sources) <==> exists source <- sources :: Mentions(edges, source, key)
  {
    if |sources| > 0 {
      var before, source := sources[..|sources| - 1], sources[|sources| - 1];
      EntriesMention(edges, before, key);
      assert sources == before + [source];
      assert key in Entries(edges, sources) <==> key in Entries(edges, before) || Mentions(edges, source, key);
    }
  }

  lemma OrderMentions(g: AgentGraph)
    requires g.Enumerated()
    ensures Distinct(Order(g)) && forall key :: key in Order(g) <==> key in Mentioned(g)
  {
    forall key ensures key in Order(g) <==> key in Mentioned(g) {
      EntriesMention(g.edges, g.sources, key);
      assert forall source :: source in g.sources <==> source in g.edges by {
        assert forall source :: source in g.sources <==> source in (set k <- g.sources);
      }
      if key in Mentioned(g) && key != g.root {
        var source :| source in g.edges && (key == source || key in g.edges[source]);
        assert source in g.sources && Mentions(g.edges, source, key);
      }
    }
  }

  method CollectAllKeys(g: AgentGraph) returns (keys: seq<string>)
    requires g.Enumerated()
    ensures keys == Order(g)
  {
    keys := [g.root];
    for i := 0 to |g.sources|
      invariant Distinct(keys) && keys == Added([g.root], Entries(g.edges, g.sources[..i]))
    {
      var source := g.sources[i];
      assert source in g.edges by { assert source in (set key <- g.sources); }
      assert g.sources[..i + 1][..i] == g.sources[..i];
      ghost var before := Entries(g.edges, g.sources[..i]);
      AddedTwice([g.root], before, [source]);
      AddedTwice([g.root], before + [source], g.edges[source]);
      keys := AddAll(keys, [source]);
      keys := AddAll(keys, g.edges[source]);
    }
    assert g.sources[..|g.sources|] == g.sources;
  }

  method AddAll(keys: seq<string>, more: seq<string>) returns (keys': seq<string>)
    requires Distinct(keys)
    ensures keys' == Added(keys, more)
  {
    keys' := keys;
    for i := 0 to |more|
      invariant keys' == Added(keys, more[..i])
    {
      assert more[..i + 1][..i] == more[..i];
      if more[i] !in keys' { keys' := keys' + [more[i]]; }
    }
    assert more[..|more|] == more;
  }

  // ----- The gate -----

  /** The first key, in insertion order, that the root does not lead to. */
  ghost predicate FirstUnreachable(g: AgentGraph, i: nat) {
    && i < |Order(g)| && !Reaches(g.edges, g.root, Order(g)[i])
    && forall j :: 0 <= j < i ==> Reaches(g.edges, g.root, Order(g)[j])
  }

  ghost predicate Connected(g: AgentGraph) {
    forall key <- Mentioned(g) :: Reaches(g.edges, g.root, key)
  }

  lemma StopsAt(g: AgentGraph, i: nat)
    requires g.Enumerated() && FirstUnreachable(g, i)
    ensures !Connected(g) && forall j: nat :: FirstUnreachable(g, j) ==> j == i
  {
    OrderMentions(g);
    assert Order(g)[i] in Mentioned(g);
  }

  lemma NeverStops(g: AgentGraph)
    requires g.Enumerated() && forall i :: 0 <= i < |Order(g)| ==> Reaches(g.edges, g.root, Order(g)[i])
    ensures Connected(g)
  {
    OrderMentions(g);
    forall key <- Mentioned(g) ensures Reaches(g.edges, g.root, key) {
      var i :| 0 <= i < |Order(g)| && Order(g)[i] == key;
    }
  }

  /** `[...allKeys].find((key) => !reachableKeys.has(key))`, by its position. */
  method FindOutside(keys: seq<string>, reachable: set<string>) returns (found: Option<nat>)
    ensures found.Some? ==> found.value < |keys| && keys[found.value] !in reachable && forall j :: 0 <= j < found.value ==> keys[j] in reachable
    ensures found.None? ==> forall j :: 0 <= j < |keys| ==> keys[j] in reachable
  {
    for i := 0 to |keys|
      invariant forall j :: 0 <= j < i ==> keys[j] in reachable
    {
      if keys[i] !in reachable { return Some(i); }
    }
    return None;
  }

  /** The gate of `agentGraph`: it tests the key found for truth, so an empty first unreachable
      key lets a disconnected graph through. */
  method PassesGate(g: AgentGraph) returns (passes: bool)
    requires g.Enumerated()
    ensures passes <==> Connected(g) || exists i: nat :: FirstUnreachable(g, i) && Order(g)[i] == ""
  {
    var keys := CollectAllKeys(g);
    var reachable := CollectReachableKeys(g);
    var found := FindOutside(keys, reachable);
    if found.None? {
      NeverStops(g);
      return true;
    }
    StopsAt(g, found.value);
    return keys[found.value] == "";
  }

  /** A graph whose only unconnected source is the empty key is disconnected and passes. */
  lemma EmptyKeySlipsThrough()
    ensures var g := AgentGraph("a", map["" := ["a"]], [""]);
      g.Enumerated() && !Connected(g) && FirstUnreachable(g, 1) && Order(g)[1] == ""
  {
    var g := AgentGraph("a", map["" := ["a"]], [""]);
    TwoKeysInOrder();
    ReachesItself(g.edges, "a");
    forall p | Path(g.edges, p) && p[0] == "a" ensures p[|p| - 1] != "" {
      PathStaysInside(g.edges, {"a"}, p);
    }
    assert "" in Mentioned(g);
  }

  lemma TwoKeysInOrder()
    ensures Order(AgentGraph("a", map["" := ["a"]], [""])) == ["a", ""]
  {
    var edges: Graph := map["" := ["a"]];
    assert [""][..0] == [];
    assert Entries(edges, [""]) == ["", "a"];
    assert ["", "a"][..1] == [""];
    assert Added(["a"], [""]) == ["a", ""];
  }
}
