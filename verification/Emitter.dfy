/** The event emitter of the client SDKs (LDEmitter.ts). Listeners are functions, known by
    identity. */
module Emitter {
  import opened Base

  type Listeners = map<string, seq<nat>>

  function On(listeners: Listeners, name: string, listener: nat): Listeners {
    listeners[name := ListenersOf(listeners, name) + [listener]]
  }

  function ListenersOf(listeners: Listeners, name: string): seq<nat> {
    if name in listeners then listeners[name] else []
  }

  function Filter(s: seq<nat>, listener: nat): (r: seq<nat>)
    ensures forall l :: l in r <==> l in s && l != listener
  {
    if |s| == 0 then [] else Filter(s[..|s| - 1], listener) + if s[|s| - 1] == listener then [] else [s[|s| - 1]]
  }

  function Off(listeners: Listeners, name: string, listener: nat): Listeners {
    if name !in listeners then listeners
    else
      var updated := Filter(listeners[name], listener);
      if updated == [] then listeners - {name} else listeners[name := updated]
  }

  /** `off`: without a listener, all listeners of the event are removed. */
  function Unsubscribed(listeners: Listeners, name: string, listener: Option<nat>): Listeners {
    if listener.Some? then Off(listeners, name, listener.value) else listeners - {name}
  }

  function Count(s: seq<nat>, listener: nat): nat {
    multiset(s)[listener]
  }

  lemma {:induction false} FilterCount(s: seq<nat>, listener: nat, other: nat)
    ensures Count(Filter(s, listener), other) == if other == listener then 0 else Count(s, other)
  {
    if |s| > 0 {
      FilterCount(s[..|s| - 1], listener, other);
      assert s == s[..|s| - 1] + [s[|s| - 1]];
    }
  }

  /** `on` adds one call of the listener to its event, `off` takes all of them away, or without a
      listener those of every listener, and other listeners and events are left alone. */
  lemma OnOffCounts(listeners: Listeners, name: string, listener: nat, n: string, l: nat)
    ensures Count(ListenersOf(On(listeners, name, listener), n), l) ==
              Count(ListenersOf(listeners, n), l) + if n == name && l == listener then 1 else 0
    ensures Count(ListenersOf(Off(listeners, name, listener), n), l) ==
              if n == name && l == listener then 0 else Count(ListenersOf(listeners, n), l)
    ensures Count(ListenersOf(Unsubscribed(listeners, name, None), n), l) == if n == name then 0 else Count(ListenersOf(listeners, n), l)
  {
    if name in listeners { FilterCount(listeners[name], listener, l); }
  }

  lemma {:induction false} FilterConcat(a: seq<nat>, b: seq<nat>, listener: nat)
    ensures Filter(a + b, listener) == Filter(a, listener) + Filter(b, listener)
  {
    if |b| == 0 {
      assert a + b == a;
    } else {
      FilterConcat(a, b[..|b| - 1], listener);
      assert (a + b)[..|a + b| - 1] == a + b[..|b| - 1];
    }
  }

  lemma FilterOne(l: nat, listener: nat)
    ensures Filter([l], listener) == if l == listener then [] else [l]
  {
    assert [l][..0] == [] && Filter([], listener) == [];
  }

  /** Listeners are called in the order they were added: one more comes last, and removing one
      leaves the order of those before and after each of the others. */
  lemma OnOffOrder(listeners: Listeners, name: string, listener: nat, before: seq<nat>, other: nat, after: seq<nat>)
    requires ListenersOf(listeners, name) == before + [other] + after && other != listener
    ensures ListenersOf(On(listeners, name, listener), name) == before + [other] + after + [listener]
    ensures ListenersOf(Off(listeners, name, listener), name) == Filter(before, listener) + [other] + Filter(after, listener)
  {
    FilterConcat(before, [other], listener);
    FilterOne(other, listener);
    FilterConcat(before + [other], after, listener);
  }

  /** Every event with an entry has a listener. */
  predicate NoEmpty(listeners: Listeners) {
    forall name <- listeners :: listeners[name] != []
  }

  class LDEmitter {
    var listeners: Listeners

    constructor ()
      ensures listeners == map[]
    {
      listeners := map[];
    }

    method AddListener(name: string, listener: nat)
      modifies this
      ensures listeners == On(old(listeners), name, listener)
      ensures NoEmpty(old(listeners)) ==> NoEmpty(listeners)
    {
      if name !in listeners {
        assert ListenersOf(listeners, name) + [listener] == [listener];
        listeners := listeners[name := [listener]];
      } else {
        listeners := listeners[name := listeners[name] + [listener]];
      }
    }

    method RemoveListener(name: string, listener: Option<nat>)
      modifies this
      ensures listeners == Unsubscribed(old(listeners), name, listener)
      ensures NoEmpty(old(listeners)) ==> NoEmpty(listeners)
    {
      if name !in listeners { return; }
      if listener.Some? {
        var existing := listeners[name];
        var updated := [];
        for i := 0 to |existing|
          invariant updated == Filter(existing[..i], listener.value)
        {
          assert existing[..i + 1][..i] == existing[..i];
          if existing[i] != listener.value { updated := updated + [existing[i]]; }
        }
        assert existing[..|existing|] == existing;
        if |updated| == 0 {
          listeners := listeners - {name};
        } else {
          listeners := listeners[name := updated];
        }
        return;
      }
      listeners := listeners - {name};
    }

    /** The listeners invoked, in order; one that throws does not stop the rest. */
    method Emit(name: string) returns (invoked: seq<nat>)
      ensures invoked == ListenersOf(listeners, name)
    {
      invoked := [];
      if name in listeners {
        for i := 0 to |listeners[name]|
          invariant invoked == listeners[name][..i]
        {
          invoked := invoked + [listeners[name][i]];
        }
      }
    }

    method ListenerCount(name: string) returns (count: nat)
      ensures count == |ListenersOf(listeners, name)|
      ensures NoEmpty(listeners) ==> (count > 0 <==> name in listeners)
    {
      count := if name in listeners then |listeners[name]| else 0;
    }
  }
}
