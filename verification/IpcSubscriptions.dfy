/** The event subscriptions of renderer processes, as the Electron main process keeps them
    (ElectronClient.ts). */
module IpcSubscriptions {
  import opened Base
  import opened Emitter

  /** Message ports by callback id. */
  type Ports = map<string, nat>

  /** The subscription of one event: its broadcast listener, and the ports that posts to. */
  datatype Entry = Entry(listener: nat, ports: Ports)

  datatype State = State(
    listeners: Listeners,           // of the SDK client's emitter
    entries: map<string, Entry>,    // `_ipcEventSubscriptions`
    events: map<string, string>,    // `_ipcCallbackIdToEventName`
    broadcasts: set<nat>,           // the broadcast listeners ever made
    closed: set<nat>,               // ports closed
    next: nat)                      // identities of functions not made yet

  datatype Action =
    | Add(callback: string, event: string, port: Option<nat>)
    | Remove(callback: string)
    | AppOn(event: string)                    // the application listens with a new function
    | AppOff(event: string, only: Option<nat>)

  /** The entry of an event, made if there is none. */
  function Subscribed(s: State, event: string): (s': State)
    ensures event in s'.entries
  {
    if event in s.entries then s
    else s.(listeners := On(s.listeners, event, s.next), entries := s.entries[event := Entry(s.next, map[])],
            broadcasts := s.broadcasts + {s.next}, next := s.next + 1)
  }

  function WithPort(s: State, callback: string, event: string, port: nat): State
    requires event in s.entries
  {
    var entry := s.entries[event];
    s.(entries := s.entries[event := entry.(ports := entry.ports[callback := port])], events := s.events[callback := event])
  }

  /** `_applyAdd` */
  function Added(s: State, callback: string, event: string, port: Option<nat>): State {
    if port.None? then s else WithPort(Subscribed(s, event), callback, event, port.value)
  }

  function PortsOf(s: State, event: string): Ports {
    if event in s.entries then s.entries[event].ports else map[]
  }

  predicate Removable(s: State, callback: string) {
    callback in s.events && s.events[callback] != "" && callback in PortsOf(s, s.events[callback])
  }

  function WithoutPort(s: State, callback: string, event: string): State
    requires event in s.entries && callback in s.entries[event].ports
  {
    var entry := s.entries[event];
    s.(entries := s.entries[event := entry.(ports := entry.ports - {callback})], events := s.events - {callback},
       closed := s.closed + {entry.ports[callback]})
  }

  /** An entry without ports goes, with its listener. */
  function Dropped(s: State, event: string): State {
    if event in s.entries && s.entries[event].ports == map[]
    then s.(listeners := Off(s.listeners, event, s.entries[event].listener), entries := s.entries - {event})
    else s
  }

  /** `_applyRemove` */
  function Removed(s: State, callback: string): State {
    if !Removable(s, callback) then s
    else Dropped(WithoutPort(s, callback, s.events[callback]), s.events[callback])
  }

  /** The application cannot name a broadcast listener, which only its entry holds. */
  function Step(s: State, a: Action): State {
    match a
    case Add(callback, event, port) => Added(s, callback, event, port)
    case Remove(callback) => Removed(s, callback)
    case AppOn(event) => s.(listeners := On(s.listeners, event, s.next), next := s.next + 1)
    case AppOff(event, only) =>
      if only.Some? && only.value in s.broadcasts then s else s.(listeners := Unsubscribed(s.listeners, event, only))
  }

  function Run(s: State, actions: seq<Action>): State {
    if |actions| == 0 then s else Step(Run(s, actions[..|actions| - 1]), actions[|actions| - 1])
  }

  // ----- One table instead of two indexes -----

  /** Each callback id with its event and port. */
  type Table = map<string, (string, nat)>

  function Applied(t: Table, a: Action): Table {
    match a
    case Add(callback, event, port) => if port.None? then t else t[callback := (event, port.value)]
    case Remove(callback) => t - {callback}
    case _ => t
  }

  function AppliedAll(t: Table, actions: seq<Action>): Table {
    if |actions| == 0 then t else Applied(AppliedAll(t, actions[..|actions| - 1]), actions[|actions| - 1])
  }

  /** A callback id is new, or known for the same event, and the application removes all
      listeners only of an event nobody has subscribed to. */
  predicate Admissible(t: Table, a: Action) {
    match a
    case Add(callback, event, port) => port.Some? ==> event != "" && (callback in t ==> t[callback].0 == event)
    case AppOff(event, only) => only.None? ==> forall callback <- t :: t[callback].0 != event
    case _ => true
  }

  predicate AllAdmissible(t: Table, actions: seq<Action>) {
    |actions| > 0 ==>
      AllAdmissible(t, actions[..|actions| - 1]) && Admissible(AppliedAll(t, actions[..|actions| - 1]), actions[|actions| - 1])
  }

  /** The two indexes hold exactly the table. */
  ghost predicate Indexes(s: State, t: Table) {
    && (forall callback :: callback in s.events <==> callback in t)
    && (forall callback <- t :: s.events[callback] == t[callback].0 && t[callback].0 != "")
    && (forall event :: Holds(s, t, event))
  }

  ghost predicate Holds(s: State, t: Table, event: string) {
    && (event in s.entries ==> s.entries[event].ports != map[])
    && forall callback ::
         (callback in PortsOf(s, event) <==> callback in t && t[callback].0 == event)
         && (callback in PortsOf(s, event) ==> PortsOf(s, event)[callback] == t[callback].1)
  }

  lemma AddKeepsIndexes(s: State, t: Table, a: Action)
    requires Indexes(s, t) && a.Add? && Admissible(t, a)
    ensures Indexes(Step(s, a), Applied(t, a))
  {
    if a.port.Some? {
      var s', t' := Step(s, a), Applied(t, a);
      forall event ensures Holds(s', t', event) {
        assert Holds(s, t, event);
        if event == a.event { assert a.callback in PortsOf(s', event); }
      }
    }
  }

  lemma RemoveHolds(s: State, t: Table, callback: string, event: string)
    requires Removable(s, callback) && callback in t && s.events[callback] == t[callback].0
    requires Holds(s, t, event)
    ensures Holds(Removed(s, callback), t - {callback}, event)
  {
    var s' := Removed(s, callback);
    assert PortsOf(s', event) == if event == t[callback].0 then PortsOf(s, event) - {callback} else PortsOf(s, event);
  }

  lemma RemoveKeepsIndexes(s: State, t: Table, callback: string)
    requires Indexes(s, t)
    ensures Indexes(Removed(s, callback), t - {callback})
    ensures Removable(s, callback) <==> callback in t
  {
    if callback in t {
      assert Holds(s, t, t[callback].0);
      forall event ensures Holds(Removed(s, callback), t - {callback}, event) {
        RemoveHolds(s, t, callback, event);
      }
    } else {
      assert t - {callback} == t;
    }
  }

  /** A callback id known for another event leaves its old port behind, and one added for the
      empty event name cannot be removed: no table describes the indexes any more. */
  lemma InadmissibleAddBreaks(s: State, t: Table, a: Action, t': Table)
    requires Indexes(s, t) && a.Add? && !Admissible(t, a)
    ensures !Indexes(Step(s, a), t')
    ensures a.event == "" ==> !Removable(Step(s, a), a.callback) && a.callback in PortsOf(Step(s, a), "")
  {
    assert a.port.Some? && Step(s, a).events[a.callback] == a.event;
    if a.event != "" {
      var was := t[a.callback].0;
      assert Holds(s, t, was);
      assert a.callback in PortsOf(Step(s, a), was) && a.event != was;
      assert Indexes(Step(s, a), t') ==> Holds(Step(s, a), t', was);
    }
  }

  // ----- Who is listening -----

  /** On an event with an entry its broadcast listener is there once; no other is on any. */
  ghost predicate Listens(s: State, event: string) {
    && (event in s.entries ==>
          && s.entries[event].listener in s.broadcasts
          && Count(ListenersOf(s.listeners, event), s.entries[event].listener) == 1)
    && forall l: nat :: Count(ListenersOf(s.listeners, event), l) > 0 ==>
         l < s.next && (l in s.broadcasts ==> event in s.entries && s.entries[event].listener == l)
  }

  ghost predicate Listening(s: State) {
    (forall l <- s.broadcasts :: l < s.next) && forall event :: Listens(s, event)
  }

  lemma SubscribedListens(s: State, event: string, e: string)
    requires Listening(s)
    ensures Listens(Subscribed(s, event), e)
  {
    assert Listens(s, e) && Listens(s, event);
    var s' := Subscribed(s, event);
    if event !in s.entries {
      forall l: nat
        ensures Count(ListenersOf(s'.listeners, e), l) ==
                  Count(ListenersOf(s.listeners, e), l) + if e == event && l == s.next then 1 else 0
      {
        OnOffCounts(s.listeners, event, s.next, e, l);
      }
    }
  }

  lemma AddListens(s: State, a: Action)
    requires Listening(s) && a.Add?
    ensures Listening(Step(s, a))
  {
    forall e ensures Listens(Step(s, a), e) {
      SubscribedListens(s, a.event, e);
      assert Listens(s, e);
    }
  }

  lemma DroppedListens(s: State, event: string, e: string)
    requires Listening(s)
    ensures Listens(Dropped(s, event), e)
  {
    assert Listens(s, e) && Listens(s, event);
    var s' := Dropped(s, event);
    if event in s.entries && s.entries[event].ports == map[] {
      var listener := s.entries[event].listener;
      forall l: nat
        ensures Count(ListenersOf(s'.listeners, e), l) ==
                  if e == event && l == listener then 0 else Count(ListenersOf(s.listeners, e), l)
      {
        OnOffCounts(s.listeners, event, listener, e, l);
      }
    }
  }

  lemma RemoveListens(s: State, callback: string)
    requires Listening(s)
    ensures Listening(Removed(s, callback))
  {
    if Removable(s, callback) {
      var s' := WithoutPort(s, callback, s.events[callback]);
      forall e ensures Listens(s', e) { assert Listens(s, e); }
      forall e ensures Listens(Dropped(s', s.events[callback]), e) { DroppedListens(s', s.events[callback], e); }
    }
  }

  lemma NoEntry(s: State, t: Table, event: string)
    requires Indexes(s, t) && forall callback <- t :: t[callback].0 != event
    ensures event !in s.entries
  {
    assert Holds(s, t, event);
    assert forall callback :: callback !in PortsOf(s, event);
    assert event in s.entries ==> s.entries[event].ports == map[];
  }

  lemma AppListens(s: State, t: Table, a: Action)
    requires Listening(s) && Indexes(s, t) && Admissible(t, a) && (a.AppOn? || a.AppOff?)
    ensures Listening(Step(s, a))
  {
    forall e ensures Listens(Step(s, a), e) {
      assert Listens(s, e);
      if a.AppOn? {
        forall l: nat
          ensures Count(ListenersOf(Step(s, a).listeners, e), l) ==
                    Count(ListenersOf(s.listeners, e), l) + if e == a.event && l == s.next then 1 else 0
        {
          OnOffCounts(s.listeners, a.event, s.next, e, l);
        }
      } else if a.only.None? {
        NoEntry(s, t, a.event);
        forall l: nat
          ensures Count(ListenersOf(Step(s, a).listeners, e), l) == if e == a.event then 0 else Count(ListenersOf(s.listeners, e), l)
        {
          OnOffCounts(s.listeners, a.event, 0, e, l);
        }
      } else if a.only.value !in s.broadcasts {
        forall l: nat
          ensures Count(ListenersOf(Step(s, a).listeners, e), l) ==
                    if e == a.event && l == a.only.value then 0 else Count(ListenersOf(s.listeners, e), l)
        {
          OnOffCounts(s.listeners, a.event, a.only.value, e, l);
        }
      }
    }
  }

  // ----- Whole runs -----

  predicate Initial(s: State) {
    s.listeners == map[] && s.entries == map[] && s.events == map[] && s.broadcasts == {}
  }

  /** Over every run of admissible requests the two indexes are the one table, and each entry has
      its one listener. */
  lemma {:induction false} RunIsTable(s0: State, actions: seq<Action>)
    requires Initial(s0) && AllAdmissible(map[], actions)
    ensures Indexes(Run(s0, actions), AppliedAll(map[], actions)) && Listening(Run(s0, actions))
  {
    if |actions| > 0 {
      var before, a := actions[..|actions| - 1], actions[|actions| - 1];
      RunIsTable(s0, before);
      var s, t := Run(s0, before), AppliedAll(map[], before);
      match a
      case Add(_, _, _) => AddKeepsIndexes(s, t, a); AddListens(s, a);
      case Remove(callback) => RemoveKeepsIndexes(s, t, callback); RemoveListens(s, callback);
      case AppOn(_) => AppKeepsIndexes(s, t, a); AppListens(s, t, a);
      case AppOff(_, _) => AppKeepsIndexes(s, t, a); AppListens(s, t, a);
    }
  }

  lemma AppKeepsIndexes(s: State, t: Table, a: Action)
    requires Indexes(s, t) && (a.AppOn? || a.AppOff?)
    ensures Indexes(Step(s, a), t)
  {
    forall event ensures Holds(Step(s, a), t, event) { assert Holds(s, t, event); }
  }

  /** How often an event, when emitted, is posted to the port of a callback: the emitter calls
      its listeners one after the other, and the broadcast listener posts to all its ports. */
  function Posts(s: State, event: string, callback: string, port: nat): nat {
    if event in s.entries && callback in s.entries[event].ports && s.entries[event].ports[callback] == port
    then Count(ListenersOf(s.listeners, event), s.entries[event].listener)
    else 0
  }

  /** An event reaches exactly the ports added for it and not removed, each once. */
  lemma EmitReachesExactly(s0: State, actions: seq<Action>, event: string, callback: string, port: nat)
    requires Initial(s0) && AllAdmissible(map[], actions)
    ensures var t := AppliedAll(map[], actions);
      Posts(Run(s0, actions), event, callback, port) == if callback in t && t[callback] == (event, port) then 1 else 0
  {
    RunIsTable(s0, actions);
    assert Holds(Run(s0, actions), AppliedAll(map[], actions), event);
    assert Listens(Run(s0, actions), event);
  }

  /** Removing a callback closes the port it was added with; nothing else closes one. */
  lemma RemoveClosesPort(s: State, t: Table, a: Action)
    requires Indexes(s, t)
    ensures Step(s, a).closed == if a.Remove? && a.callback in t then s.closed + {t[a.callback].1} else s.closed
  {
    if a.Remove? {
      RemoveKeepsIndexes(s, t, a.callback);
      if a.callback in t { assert Holds(s, t, t[a.callback].0); }
    }
  }

  /** The application's own listeners come and go as it says; requests of other processes leave
      them alone. */
  lemma AppListenersStay(s: State, a: Action, event: string, listener: nat)
    requires Listening(s) && listener !in s.broadcasts && listener < s.next + (if a.AppOn? then 1 else 0)
    ensures Count(ListenersOf(Step(s, a).listeners, event), listener) ==
              var before := Count(ListenersOf(s.listeners, event), listener);
              match a
              case AppOn(e) => before + (if e == event && listener == s.next then 1 else 0)
              case AppOff(e, only) => if e == event && (only == None || only == Some(listener)) then 0 else before
              case _ => before
  {
    match a
    case Add(_, e, _) => OnOffCounts(s.listeners, e, s.next, event, listener);
    case Remove(callback) =>
      if Removable(s, callback) {
        var e := s.events[callback];
        assert Listens(s, e);
        OnOffCounts(s.listeners, e, s.entries[e].listener, event, listener);
      }
    case AppOn(e) => OnOffCounts(s.listeners, e, s.next, event, listener);
    case AppOff(e, only) => OnOffCounts(s.listeners, e, if only.Some? then only.value else 0, event, listener);
  }

  /** An event with an entry whose broadcast listener is gone from the emitter. */
  predicate Silent(s: State, event: string) {
    event in s.entries && Count(ListenersOf(s.listeners, event), s.entries[event].listener) == 0
  }

  /** When the application removes all listeners of a subscribed event, the broadcast listener
      goes too: the indexes still hold every port, and none is posted to. */
  lemma InadmissibleOffSilences(s: State, t: Table, a: Action)
    requires Indexes(s, t) && a.AppOff? && !Admissible(t, a)
    ensures var s' := Step(s, a);
      Indexes(s', t) && Silent(s', a.event) && forall callback, port :: Posts(s', a.event, callback, port) == 0
  {
    AppKeepsIndexes(s, t, a);
    var callback :| callback in t && t[callback].0 == a.event;
    assert Holds(s, t, a.event) && callback in PortsOf(s, a.event);
    OnOffCounts(s.listeners, a.event, 0, a.event, s.entries[a.event].listener);
  }

  /** Subscribing again does not help: the event stays silent until its entry goes with the last
      of its ports. */
  lemma SilentUntilDropped(s: State, event: string, a: Action)
    requires Silent(s, event) && s.entries[event].listener < s.next
    ensures var s' := Step(s, a);
      event in s'.entries ==> Silent(s', event) && s'.entries[event].listener == s.entries[event].listener < s'.next
  {
    match a
    case Add(_, e, _) => OnOffCounts(s.listeners, e, s.next, event, s.entries[event].listener);
    case Remove(callback) => SilentRemove(s, event, callback);
    case AppOn(e) => OnOffCounts(s.listeners, e, s.next, event, s.entries[event].listener);
    case AppOff(e, only) => OnOffCounts(s.listeners, e, if only.Some? then only.value else 0, event, s.entries[event].listener);
  }

  lemma SilentRemove(s: State, event: string, callback: string)
    requires Silent(s, event)
    ensures var s' := Removed(s, callback);
      event in s'.entries ==> Silent(s', event) && s'.entries[event].listener == s.entries[event].listener && s'.next == s.next
  {
    if Removable(s, callback) {
      var e := s.events[callback];
      var s' := WithoutPort(s, callback, e);
      assert Silent(s', event) && s'.entries[event].listener == s.entries[event].listener;
      SilentDrop(s', event, e);
    }
  }

  lemma SilentDrop(s: State, event: string, dropped: string)
    requires Silent(s, event)
    ensures var s' := Dropped(s, dropped);
      event in s'.entries ==> Silent(s', event) && s'.entries[event].listener == s.entries[event].listener && s'.next == s.next
  {
    if dropped in s.entries { OnOffCounts(s.listeners, dropped, s.entries[dropped].listener, event, s.entries[event].listener); }
  }

  // ----- The class -----

  /** The part of ElectronClient that serves other processes. */
  class Subscriptions {
    const emitter: LDEmitter
    var entries: map<string, Entry>
    var events: map<string, string>
    var queue: seq<Action>
    ghost var broadcasts: set<nat>
    var closed: set<nat>
    var next: nat

    ghost function View(): State
      reads this, emitter
    {
      State(emitter.listeners, entries, events, broadcasts, closed, next)
    }

    constructor (emitter: LDEmitter)
      requires emitter.listeners == map[]
      ensures this.emitter == emitter && Initial(View()) && queue == []
    {
      this.emitter := emitter;
      entries, events, queue, broadcasts, closed, next := map[], map[], [], {}, {}, 0;
    }

    method ApplyAdd(callback: string, event: string, port: Option<nat>)
      modifies this, emitter
      ensures View() == Added(old(View()), callback, event, port) && queue == old(queue)
    {
      if port.None? { return; }
      if event !in entries {
        var listener := next;
        next := next + 1;
        broadcasts := broadcasts + {listener};
        emitter.AddListener(event, listener);
        entries := entries[event := Entry(listener, map[])];
      }
      var entry := entries[event];
      entries := entries[event := entry.(ports := entry.ports[callback := port.value])];
      events := events[callback := event];
    }

    /** `removed` is what the caller is told. */
    method ApplyRemove(callback: string) returns (removed: bool)
      modifies this, emitter
      ensures View() == Removed(old(View()), callback) && queue == old(queue)
      ensures removed <==> Removable(old(View()), callback)
    {
      if callback !in events || events[callback] == "" { return false; }
      var event := events[callback];
      if event !in entries || callback !in entries[event].ports { return false; }
      var entry := entries[event];
      var ports := entry.ports - {callback};
      entries := entries[event := entry.(ports := ports)];
      events := events - {callback};
      closed := closed + {entry.ports[callback]};
      if ports == map[] {
        emitter.RemoveListener(event, Some(entry.listener));
        entries := entries - {event};
      }
      return true;
    }

    /** The requests are served in the order they came. */
    method ProcessQueue()
      requires forall a <- queue :: a.Add? || a.Remove?
      modifies this, emitter
      ensures View() == Run(old(View()), old(queue)) && queue == []
    {
      ghost var all, start := queue, View();
      ghost var n := 0;
      while |queue| > 0
        invariant n <= |all| && queue == all[n..] && forall a <- queue :: a.Add? || a.Remove?
        invariant View() == Run(start, all[..n])
        decreases |queue|
      {
        var op := queue[0];
        queue := queue[1..];
        assert all[..n + 1][..n] == all[..n] && op == all[n];
        if op.Add? {
          ApplyAdd(op.callback, op.event, op.port);
        } else {
          var _ := ApplyRemove(op.callback);
        }
        n := n + 1;
      }
      assert all[..n] == all;
    }

    /** Takes the broadcast listener of one entry off the emitter and closes its ports. */
    method CloseEntry(event: string, entry: Entry)
      modifies this`closed, emitter
      ensures closed == old(closed) + entry.ports.Values
      ensures forall e, l: nat :: Count(ListenersOf(emitter.listeners, e), l) ==
                if e == event && l == entry.listener then 0 else Count(ListenersOf(old(emitter.listeners), e), l)
    {
      emitter.RemoveListener(event, Some(entry.listener));
      forall e, l: nat ensures Count(ListenersOf(emitter.listeners, e), l) ==
        if e == event && l == entry.listener then 0 else Count(ListenersOf(old(emitter.listeners), e), l) {
        OnOffCounts(old(emitter.listeners), event, entry.listener, e, l);
      }
      closed := closed + entry.ports.Values;
    }

    /** Closes every port and takes the broadcast listeners, and nothing else, off the emitter. */
    method CloseChannels()
      modifies this, emitter
      ensures entries == map[] && events == map[] && queue == []
      ensures forall port :: port in closed <==> port in old(closed) || PortAmong(old(entries), old(entries).Keys, port)
      ensures forall event, l: nat :: Count(ListenersOf(emitter.listeners, event), l) ==
                if event in old(entries) && old(entries)[event].listener == l then 0 else Count(ListenersOf(old(emitter.listeners), event), l)
    {
      ghost var done: set<string> := {};
      var left := entries.Keys;
      while left != {}
        invariant done + left == entries.Keys && done !! left && entries == old(entries)
        invariant forall port :: port in closed <==> port in old(closed) || PortAmong(entries, done, port)
        invariant forall event, l: nat :: Count(ListenersOf(emitter.listeners, event), l) ==
                    if event in done && entries[event].listener == l then 0 else Count(ListenersOf(old(emitter.listeners), event), l)
        decreases |left|
      {
        var event :| event in left;
        CloseEntry(event, entries[event]);
        forall port
          ensures PortAmong(entries, done + {event}, port) <==> PortAmong(entries, done, port) || port in entries[event].ports.Values
        {
        }
        left, done := left - {event}, done + {event};
      }
      entries, events, queue := map[], map[], [];
    }
  }

  ghost predicate PortAmong(entries: map<string, Entry>, names: set<string>, port: nat) {
    exists name <- names :: name in entries && port in entries[name].ports.Values
  }
}
