/** When the browser client keeps a stream open (BrowserDataManager.ts, BrowserClient.ts). */
module BrowserStreaming {
  import opened Base
  import opened Emitter

  /** A stream ever opened. */
  datatype Stream = Stream(context: string, open: bool)

  /** Parsed JSON; a scalar is a string, a number or a Boolean. */
  datatype Json = Null | Scalar | Array(elements: seq<Json>) | Object(members: seq<(string, Json)>)

  /** How a poll ends: with an error, or with a payload and what it parses to, if it does. */
  datatype Poll = NetworkError | Payload(parsed: Option<Json>)

  /** The promise of an identify: in `identify`, waiting for its flags to be stored, settled, or
      left by `identify` without anything that will settle it. */
  datatype Promise = Identifying | Storing | Resolved | Rejected | Hung {
    predicate Settled() { Resolved? || Rejected? }
  }

  datatype State = State(
    forced: Option<bool>,           // `_forcedStreaming`
    automatic: bool,                // `_automaticStreamingState`
    listeners: Listeners,
    context: Option<string>,
    streams: seq<Stream>,
    processor: Option<nat>,         // `updateProcessor`
    identifying: bool,              // an identify awaits its cache or its poll
    loadFailed: bool,               // the last identify failed inside `loadCached`, and no stream
                                    // has been started or stopped since
    closed: bool,
    promises: seq<Promise>)         // of the identifies begun, in order

  datatype Action =
    | On(name: string, listener: nat)
    | Off(name: string, only: Option<nat>)
    | SetStreaming(streaming: Option<bool>)
    | Identify(context: string, bootstrap: bool)
    | Polled(poll: Poll)            // the cache is loaded and the poll has ended
    | Stored(good: bool)            // storing the flags of a poll has resolved or rejected
    | LoadFailed                    // `loadCached` rejects
    | Close

  predicate IsChange(name: string) {
    name == "change" || "change:" <= name
  }

  /** `_updateAutomaticStreamingState` asks the emitter. */
  predicate HasChangeListener(listeners: Listeners) {
    exists name <- listeners :: IsChange(name)
  }

  predicate ShouldStream(s: State) {
    s.forced == Some(true) || (s.automatic && s.forced.None?)
  }

  function StopDataSource(s: State): State {
    CloseStream(s).(processor := None, loadFailed := false)
  }

  /** `this.updateProcessor?.close()` */
  function CloseStream(s: State): State {
    if s.processor.None? || s.processor.value >= |s.streams| then s
    else s.(streams := s.streams[s.processor.value := s.streams[s.processor.value].(open := false)])
  }

  function StartDataSource(s: State): State {
    if s.processor.Some? || s.context.None? then s
    else s.(streams := s.streams + [Stream(s.context.value, true)], processor := Some(|s.streams|), loadFailed := false)
  }

  function UpdateStreaming(s: State): State {
    if ShouldStream(s) then StartDataSource(s) else StopDataSource(s)
  }

  function Listened(s: State, listeners: Listeners): State {
    UpdateStreaming(s.(listeners := listeners, automatic := HasChangeListener(listeners)))
  }

  /** The client queue starts an identify when the one before has returned and settled. */
  predicate CanIdentify(s: State) {
    !s.identifying && forall promise <- s.promises :: promise.Settled()
  }

  /** What becomes of the promise of the identify under way. */
  function Promised(s: State, promise: Promise): State {
    if |s.promises| == 0 then s else s.(promises := s.promises[|s.promises| - 1 := promise])
  }

  /** The values of `Object.entries`, where a string has only its characters. */
  function EntryValues(json: Json): seq<Json>
    requires !json.Null?
  {
    match json
    case Scalar => []
    case Array(elements) => elements
    case Object(members) => seq(|members|, i requires 0 <= i < |members| => members[i].1)
  }

  /** Nothing can be made of the payload: it does not parse, or it parses to `null` or to
      something with a `null` entry, of which `handlePut` cannot read the version. */
  predicate Unusable(parsed: Option<Json>) {
    parsed.None? || parsed.value.Null? || Null in EntryValues(parsed.value)
  }

  function PromiseAfter(poll: Poll): Promise {
    match poll
    case NetworkError => Rejected
    case Payload(parsed) => if Unusable(parsed) then Hung else Storing
  }

  /** A closed client returns from `identify` without settling it. */
  function Identified(s: State, context: string, bootstrap: bool): State {
    if s.closed then s.(promises := s.promises + [Hung])
    else
      var s' := s.(context := Some(context), loadFailed := false);
      if bootstrap then UpdateStreaming(StopDataSource(s'.(promises := s.promises + [Resolved])))
      else s'.(identifying := true, promises := s.promises + [Identifying])
  }

  function Step(s: State, a: Action): State {
    match a
    case On(name, listener) => Listened(s, Emitter.On(s.listeners, name, listener))
    case Off(name, only) => Listened(s, Unsubscribed(s.listeners, name, only))
    case SetStreaming(streaming) => UpdateStreaming(s.(forced := streaming))
    case Identify(context, bootstrap) => if CanIdentify(s) then Identified(s, context, bootstrap) else s
    case Polled(poll) =>
      if s.identifying then UpdateStreaming(StopDataSource(Promised(s.(identifying := false), PromiseAfter(poll)))) else s
    case Stored(good) =>
      if |s.promises| > 0 && s.promises[|s.promises| - 1].Storing? then Promised(s, if good then Resolved else Hung) else s
    case LoadFailed => if s.identifying then Promised(s.(identifying := false, loadFailed := true), Rejected) else s
    case Close => CloseStream(s).(closed := true)
  }

  function Run(s: State, actions: seq<Action>): State {
    if |actions| == 0 then s else Step(Run(s, actions[..|actions| - 1]), actions[|actions| - 1])
  }

  predicate Initial(s: State) {
    && !s.automatic && s.listeners == map[] && s.context.None? && s.streams == [] && s.processor.None?
    && !s.identifying && !s.loadFailed && !s.closed && s.promises == []
  }

  /** At most one stream is open, the installed one. */
  predicate Sole(s: State) {
    && (s.processor.Some? ==> s.processor.value < |s.streams| && s.streams[s.processor.value].open)
    && forall i :: 0 <= i < |s.streams| && s.streams[i].open ==> s.processor == Some(i)
  }

  /** A stream is open only if it should be, and between identifies whenever it should be, for
      the current context. */
  predicate Serves(s: State) {
    && (s.processor.Some? ==> ShouldStream(s) && s.context.Some?)
    && (s.identifying || s.loadFailed ==> s.context.Some?)
    && (!s.identifying && !s.loadFailed ==>
          && (ShouldStream(s) && s.context.Some? ==> s.processor.Some?)
          && (s.processor.Some? && s.processor.value < |s.streams| ==> Some(s.streams[s.processor.value].context) == s.context))
  }

  predicate Invariant(s: State) {
    Sole(s) && Serves(s) && !s.closed && NoEmpty(s.listeners) && s.automatic == HasChangeListener(s.listeners)
  }

  lemma StoppedIsSole(s: State)
    requires Sole(s)
    ensures var s' := StopDataSource(s);
      s' == s.(streams := s'.streams, processor := None, loadFailed := false) && forall i :: 0 <= i < |s'.streams| ==> !s'.streams[i].open
  {
  }

  lemma UpdateKeeps(s: State)
    requires Sole(s) && !s.closed && NoEmpty(s.listeners) && s.automatic == HasChangeListener(s.listeners)
    requires s.processor.Some? || s.identifying || s.loadFailed ==> s.context.Some?
    requires !s.identifying && !s.loadFailed && s.processor.Some? ==> Some(s.streams[s.processor.value].context) == s.context
    ensures Invariant(UpdateStreaming(s))
  {
    if !ShouldStream(s) { StoppedIsSole(s); }
  }

  lemma StepKeepsInvariant(s: State, a: Action)
    requires Invariant(s) && !a.Close?
    ensures Invariant(Step(s, a))
  {
    match a
    case On(name, listener) =>
      var listeners := Emitter.On(s.listeners, name, listener);
      UpdateKeeps(s.(listeners := listeners, automatic := HasChangeListener(listeners)));
    case Off(name, only) =>
      var listeners := Unsubscribed(s.listeners, name, only);
      UpdateKeeps(s.(listeners := listeners, automatic := HasChangeListener(listeners)));
    case SetStreaming(streaming) => UpdateKeeps(s.(forced := streaming));
    case Identify(context, bootstrap) =>
      if CanIdentify(s) && bootstrap {
        var s' := s.(context := Some(context), loadFailed := false, promises := s.promises + [Resolved]);
        StoppedIsSole(s');
        UpdateKeeps(StopDataSource(s'));
      }
    case Polled(poll) =>
      if s.identifying {
        var s' := Promised(s.(identifying := false), PromiseAfter(poll));
        StoppedIsSole(s');
        UpdateKeeps(StopDataSource(s'));
      }
    case Stored(_) =>
    case LoadFailed =>
  }

  lemma {:induction false} RunKeepsInvariant(s0: State, actions: seq<Action>)
    requires Initial(s0) && forall i :: 0 <= i < |actions| ==> !actions[i].Close?
    ensures Invariant(Run(s0, actions))
  {
    if |actions| > 0 {
      RunKeepsInvariant(s0, actions[..|actions| - 1]);
      StepKeepsInvariant(Run(s0, actions[..|actions| - 1]), actions[|actions| - 1]);
    }
  }

  /** Some listener is registered for 'change' or for the changes of one flag. */
  predicate HasListenedChange(listeners: Listeners) {
    exists name <- listeners :: listeners[name] != [] && (name == "change" || (|name| >= 7 && name[..7] == "change:"))
  }

  predicate Open(s: State) {
    exists i :: 0 <= i < |s.streams| && s.streams[i].open
  }

  /** After any run on an unclosed client, between identifies: a stream is open exactly when a
      context is set and streaming is forced on, or is not forced and some change listener is
      registered; there is one at most, and it is for the latest context. */
  lemma StreamOpenExactly(s0: State, actions: seq<Action>)
    requires Initial(s0) && forall i :: 0 <= i < |actions| ==> !actions[i].Close?
    requires !Run(s0, actions).identifying && !Run(s0, actions).loadFailed
    ensures var s := Run(s0, actions);
      && (Open(s) <==> (s.context.Some? && (s.forced == Some(true) || (s.forced.None? && HasListenedChange(s.listeners)))))
      && (forall i, j :: 0 <= i < j < |s.streams| ==> !(s.streams[i].open && s.streams[j].open))
      && (forall i :: 0 <= i < |s.streams| && s.streams[i].open ==> Some(s.streams[i].context) == s.context)
  {
    RunKeepsInvariant(s0, actions);
  }

  /** In particular a listener for the changes of one flag keeps the stream open. */
  lemma FlagListenerStreams(s0: State, actions: seq<Action>, flag: string)
    requires Initial(s0) && forall i :: 0 <= i < |actions| ==> !actions[i].Close?
    requires !Run(s0, actions).identifying && !Run(s0, actions).loadFailed
    requires var s := Run(s0, actions); s.context.Some? && s.forced.None? && ListenersOf(s.listeners, "change:" + flag) != []
    ensures Open(Run(s0, actions))
  {
    var s, name := Run(s0, actions), "change:" + flag;
    assert name in s.listeners && name[..7] == "change:";
    StreamOpenExactly(s0, actions);
  }

  /** The streaming last forced. */
  function LastForced(actions: seq<Action>, initial: Option<bool>): Option<bool> {
    if |actions| == 0 then initial
    else if actions[|actions| - 1].SetStreaming? then actions[|actions| - 1].streaming
    else LastForced(actions[..|actions| - 1], initial)
  }

  /** How often a listener was added for an event and not removed since. */
  function Registered(actions: seq<Action>, name: string, listener: nat): nat {
    if |actions| == 0 then 0
    else
      var before := Registered(actions[..|actions| - 1], name, listener);
      match actions[|actions| - 1]
      case On(n, l) => before + if n == name && l == listener then 1 else 0
      case Off(n, only) => if n == name && (only == None || only == Some(listener)) then 0 else before
      case _ => before
  }

  /** The settings and the listeners are those the application asked for. */
  lemma {:induction false} RunKeepsInputs(s0: State, actions: seq<Action>, name: string, listener: nat)
    requires Initial(s0)
    ensures Run(s0, actions).forced == LastForced(actions, s0.forced)
    ensures Count(ListenersOf(Run(s0, actions).listeners, name), listener) == Registered(actions, name, listener)
  {
    if |actions| > 0 {
      var before, a := actions[..|actions| - 1], actions[|actions| - 1];
      RunKeepsInputs(s0, before, name, listener);
      StepKeepsInputs(Run(s0, before), a);
      StepRegisters(Run(s0, before).listeners, a, name, listener);
    }
  }

  /** What a step makes of the listeners. */
  function ListenersAfter(listeners: Listeners, a: Action): Listeners {
    match a
    case On(name, listener) => Emitter.On(listeners, name, listener)
    case Off(name, only) => Unsubscribed(listeners, name, only)
    case _ => listeners
  }

  lemma StepRegisters(listeners: Listeners, a: Action, name: string, listener: nat)
    ensures Count(ListenersOf(ListenersAfter(listeners, a), name), listener) ==
              var before := Count(ListenersOf(listeners, name), listener);
              match a
              case On(n, l) => before + (if n == name && l == listener then 1 else 0)
              case Off(n, only) => if n == name && (only == None || only == Some(listener)) then 0 else before
              case _ => before
  {
    match a
    case On(n, l) => OnOffCounts(listeners, n, l, name, listener);
    case Off(n, only) => OnOffCounts(listeners, n, if only.Some? then only.value else 0, name, listener);
    case _ =>
  }

  predicate SameInputs(s: State, s': State) {
    s'.forced == s.forced && s'.listeners == s.listeners && s'.context == s.context && s'.closed == s.closed
  }

  lemma UpdateKeepsInputs(s: State)
    ensures SameInputs(s, UpdateStreaming(s)) && SameInputs(s, StopDataSource(s))
  {
  }

  /** Each input changes in its own steps alone; the context is that of the last identify that
      begins on an open client. */
  lemma StepKeepsInputs(s: State, a: Action)
    ensures var s' := Step(s, a);
      && s'.forced == (if a.SetStreaming? then a.streaming else s.forced)
      && s'.listeners == ListenersAfter(s.listeners, a)
      && s'.context == (if a.Identify? && !s.closed && !s.identifying && (forall promise <- s.promises :: promise in {Resolved, Rejected})
                        then Some(a.context) else s.context)
      && s'.closed == (s.closed || a.Close?)
  {
    match a
    case On(name, listener) => ListenedKeepsInputs(s, Emitter.On(s.listeners, name, listener));
    case Off(name, only) => ListenedKeepsInputs(s, Unsubscribed(s.listeners, name, only));
    case SetStreaming(streaming) => UpdateKeepsInputs(s.(forced := streaming));
    case Identify(context, bootstrap) => IdentifyKeepsInputs(s, context, bootstrap);
    case Polled(poll) => PolledKeepsInputs(s, poll);
    case Stored(_) =>
    case LoadFailed =>
    case Close =>
  }

  lemma ListenedKeepsInputs(s: State, listeners: Listeners)
    ensures SameInputs(s.(listeners := listeners), Listened(s, listeners))
  {
    UpdateKeepsInputs(s.(listeners := listeners, automatic := HasChangeListener(listeners)));
  }

  lemma IdentifyKeepsInputs(s: State, context: string, bootstrap: bool)
    ensures SameInputs(if s.closed then s else s.(context := Some(context)), Identified(s, context, bootstrap))
  {
    var s' := s.(context := Some(context), loadFailed := false, promises := s.promises + [Resolved]);
    UpdateKeepsInputs(s');
    UpdateKeepsInputs(StopDataSource(s'));
  }

  lemma PolledKeepsInputs(s: State, poll: Poll)
    ensures SameInputs(s, Step(s, Polled(poll)))
  {
    var s' := Promised(s.(identifying := false), PromiseAfter(poll));
    UpdateKeepsInputs(s');
    UpdateKeepsInputs(StopDataSource(s'));
  }

  /** Closing ends the stream. */
  lemma CloseEndsStream(s0: State, actions: seq<Action>)
    requires Initial(s0) && forall i :: 0 <= i < |actions| ==> !actions[i].Close?
    ensures !Open(Step(Run(s0, actions), Close))
  {
    RunKeepsInvariant(s0, actions);
  }

  predicate InstalledServes(s: State) {
    s.processor.Some? && s.processor.value < |s.streams| && Some(s.streams[s.processor.value].context) == s.context
  }

  /** A stream is open exactly when it should be, and it is for the latest context. */
  predicate StreamIsRight(s: State) {
    && (Open(s) <==> ShouldStream(s) && s.context.Some?)
    && forall i :: 0 <= i < |s.streams| && s.streams[i].open ==> Some(s.streams[i].context) == s.context
  }

  lemma RightIff(s: State)
    requires Invariant(s) && s.context.Some?
    ensures StreamIsRight(s) <==> !ShouldStream(s) || InstalledServes(s)
  {
  }

  /** Until a stream is started or stopped after a failed load, or a new identify begins, nothing
      about streams changes. */
  lemma FailedStepChangesNothing(s: State, a: Action)
    requires Invariant(s) && s.loadFailed && !s.identifying && !a.Close? && Step(s, a).loadFailed
    ensures var s' := Step(s, a);
      && Invariant(s') && !s'.identifying && s'.streams == s.streams && s'.processor == s.processor && s'.context == s.context
      && ShouldStream(s') == ShouldStream(s)
  {
    StepKeepsInvariant(s, a);
  }

  predicate StaysFailed(s: State, more: seq<Action>) {
    forall n :: 0 <= n <= |more| ==> Run(s, more[..n]).loadFailed && (n < |more| ==> !more[n].Close?)
  }

  lemma {:induction false} FailedRunChangesNothing(s: State, more: seq<Action>)
    requires Invariant(s) && !s.identifying && StaysFailed(s, more)
    ensures var s' := Run(s, more);
      && Invariant(s') && !s'.identifying && s'.streams == s.streams && s'.processor == s.processor && s'.context == s.context
      && ShouldStream(s') == ShouldStream(s)
  {
    if |more| > 0 {
      var n := |more| - 1;
      var before := more[..n];
      forall m | 0 <= m <= n ensures Run(s, before[..m]).loadFailed && (m < n ==> !before[m].Close?) {
        assert before[..m] == more[..m];
      }
      FailedRunChangesNothing(s, before);
      assert more[..n + 1] == more && Run(s, more[..n]).loadFailed && Run(s, more[..n + 1]).loadFailed;
      FailedStepChangesNothing(Run(s, before), more[n]);
    }
  }

  /** After any run on an unclosed client in which an identify fails inside `loadCached`: from
      there until a stream is started or stopped or an identify begins, the stream is right
      exactly when, before the failure, none was wanted or the installed one was already for the
      context of that identify. */
  lemma LoadFailureIsStaleIff(s0: State, actions: seq<Action>, more: seq<Action>)
    requires Initial(s0) && (forall i :: 0 <= i < |actions| ==> !actions[i].Close?) && Run(s0, actions).identifying
    requires StaysFailed(Step(Run(s0, actions), LoadFailed), more)
    ensures var s := Run(s0, actions);
      StreamIsRight(Run(Step(s, LoadFailed), more)) <==> !ShouldStream(s) || InstalledServes(s)
  {
    var s := Run(s0, actions);
    RunKeepsInvariant(s0, actions);
    StepKeepsInvariant(s, LoadFailed);
    FailedRunChangesNothing(Step(s, LoadFailed), more);
    RightIff(Run(Step(s, LoadFailed), more));
  }

  // ----- Closed clients -----

  /** A data source starts only where there is none; `close` leaves the one it has closed in
      place. */
  predicate Starts(s: State) {
    ShouldStream(s) && s.context.Some? && s.processor.None?
  }

  /** What makes a closed client open a stream. */
  predicate Reopens(s: State, a: Action) {
    match a
    case On(name, listener) =>
      var listeners := Emitter.On(s.listeners, name, listener);
      Starts(s.(listeners := listeners, automatic := HasChangeListener(listeners)))
    case Off(name, only) =>
      var listeners := Unsubscribed(s.listeners, name, only);
      Starts(s.(listeners := listeners, automatic := HasChangeListener(listeners)))
    case SetStreaming(streaming) => Starts(s.(forced := streaming))
    case Polled(_) => s.identifying && ShouldStream(s) && s.context.Some?
    case _ => false
  }

  /** Closed, with no stream open. */
  predicate Shut(s: State) {
    s.closed && !Open(s) && (s.processor.Some? ==> s.processor.value < |s.streams|)
  }

  lemma UpdateOpensIff(s: State)
    requires Shut(s)
    ensures var s' := UpdateStreaming(s);
      && (Open(s') <==> Starts(s)) && s'.closed
      && (!Open(s') ==> Shut(s'))
  {
    if Starts(s) { assert UpdateStreaming(s).streams[|s.streams|].open; }
  }

  /** A closed client without an open stream opens one exactly in these steps. */
  lemma ClosedReopensIff(s: State, a: Action)
    requires Shut(s)
    ensures Open(Step(s, a)) <==> Reopens(s, a)
    ensures Step(s, a).closed && (!Open(Step(s, a)) ==> Shut(Step(s, a)))
  {
    match a
    case On(name, listener) =>
      var listeners := Emitter.On(s.listeners, name, listener);
      UpdateOpensIff(s.(listeners := listeners, automatic := HasChangeListener(listeners)));
    case Off(name, only) =>
      var listeners := Unsubscribed(s.listeners, name, only);
      UpdateOpensIff(s.(listeners := listeners, automatic := HasChangeListener(listeners)));
    case SetStreaming(streaming) => UpdateOpensIff(s.(forced := streaming));
    case Identify(_, _) =>
    case Polled(poll) =>
      if s.identifying { UpdateOpensIff(StopDataSource(Promised(s.(identifying := false), PromiseAfter(poll)))); }
    case Stored(_) =>
    case LoadFailed =>
    case Close =>
  }

  /** Some step of the run makes the client open a stream. */
  predicate SomeReopens(s: State, more: seq<Action>) {
    exists n :: 0 <= n < |more| && Reopens(Run(s, more[..n]), more[n])
  }

  /** At some moment of the run a stream is open. */
  predicate SomeOpen(s: State, more: seq<Action>) {
    exists n :: 0 <= n <= |more| && OpenAt(s, more, n)
  }

  predicate OpenAt(s: State, more: seq<Action>, n: nat)
    requires n <= |more|
  {
    Open(Run(s, more[..n]))
  }

  lemma SomeReopensSnoc(s: State, before: seq<Action>, a: Action)
    ensures SomeReopens(s, before + [a]) <==> SomeReopens(s, before) || Reopens(Run(s, before), a)
  {
    var more := before + [a];
    assert more[..|before|] == before;
    if n :| 0 <= n < |before| && Reopens(Run(s, before[..n]), before[n]) {
      assert more[..n] == before[..n] && more[n] == before[n];
    }
    if n :| 0 <= n < |more| && Reopens(Run(s, more[..n]), more[n]) {
      if n < |before| { assert more[..n] == before[..n] && more[n] == before[n]; }
    }
  }

  lemma SomeOpenSnoc(s: State, before: seq<Action>, a: Action)
    ensures SomeOpen(s, before + [a]) <==> SomeOpen(s, before) || Open(Run(s, before + [a]))
  {
    var more := before + [a];
    assert OpenAt(s, more, |more|) <==> Open(Run(s, more)) by { assert more[..|more|] == more; }
    forall n: nat | n <= |before| ensures OpenAt(s, more, n) <==> OpenAt(s, before, n) {
      assert more[..n] == before[..n];
    }
    SplitLast(s, before, more);
  }

  lemma SplitLast(s: State, before: seq<Action>, more: seq<Action>)
    requires |more| == |before| + 1 && forall n: nat :: n <= |before| ==> (OpenAt(s, more, n) <==> OpenAt(s, before, n))
    ensures SomeOpen(s, more) <==> SomeOpen(s, before) || OpenAt(s, more, |more|)
  {
  }

  lemma RunSnoc(s: State, before: seq<Action>, a: Action)
    ensures Run(s, before + [a]) == Step(Run(s, before), a)
  {
    assert (before + [a])[..|before|] == before;
  }

  lemma ReopensSnoc(s: State, before: seq<Action>, a: Action)
    requires SomeOpen(s, before) <==> SomeReopens(s, before)
    requires !SomeReopens(s, before) ==> Shut(Run(s, before))
    ensures SomeOpen(s, before + [a]) <==> SomeReopens(s, before + [a])
    ensures !SomeReopens(s, before + [a]) ==> Shut(Run(s, before + [a]))
  {
    SomeReopensSnoc(s, before, a);
    SomeOpenSnoc(s, before, a);
    RunSnoc(s, before, a);
    if !SomeReopens(s, before) { ClosedReopensIff(Run(s, before), a); }
  }

  /** After closing, a stream is open at some moment of the run exactly when the run has one of
      those steps. */
  lemma {:induction false} ClosedRunReopensIff(s: State, more: seq<Action>)
    requires Shut(s)
    ensures SomeOpen(s, more) <==> SomeReopens(s, more)
    ensures !SomeReopens(s, more) ==> Shut(Run(s, more))
  {
    if more == [] {
      NoStepsOpenNothing(s);
    } else {
      var before, a := more[..|more| - 1], more[|more| - 1];
      assert more == before + [a];
      ClosedRunReopensIff(s, before);
      ReopensSnoc(s, before, a);
    }
  }

  lemma NoStepsOpenNothing(s: State)
    requires Shut(s)
    ensures !SomeOpen(s, []) && !SomeReopens(s, []) && Shut(Run(s, []))
  {
    var none: seq<Action> := [];
    assert none[..0] == none && !OpenAt(s, none, 0);
  }

  /** So for every run that closes the client. */
  lemma CloseThenReopensIff(s0: State, actions: seq<Action>, more: seq<Action>)
    requires Initial(s0) && forall i :: 0 <= i < |actions| ==> !actions[i].Close?
    ensures var s := Step(Run(s0, actions), Close); !Open(s) && (SomeOpen(s, more) <==> SomeReopens(s, more))
  {
    RunKeepsInvariant(s0, actions);
    ClosedRunReopensIff(Step(Run(s0, actions), Close), more);
  }

  /** A listener registered after closing starts a stream on a client that had none. */
  lemma ListeningReopensClosed(s0: State, context: string, listener: nat)
    requires Initial(s0) && s0.forced.None?
    ensures var s := Run(s0, [Identify(context, true), Close, On("change", listener)]); s.closed && Open(s)
  {
    var run := [Identify(context, true), Close, On("change", listener)];
    assert run[..2] == [run[0], run[1]] && run[..2][..1] == [run[0]] && [run[0]][..0] == [];
    var s1 := Step(s0, run[0]);
    assert Run(s0, [run[0]]) == s1 && !ShouldStream(s1) && s1.processor.None?;
    var s2 := Step(s1, Close);
    assert Run(s0, run[..2]) == s2;
    assert "change" in Emitter.On(s2.listeners, "change", listener) && IsChange("change");
    assert Reopens(s2, run[2]);
    ClosedReopensIff(s2, run[2]);
  }

  /** A client that was streaming when it was closed stays shut as long as it should stream and
      no poll ends, whatever listeners come and go. */
  lemma {:induction false} StreamingClosedStaysShut(s: State, more: seq<Action>)
    requires Shut(s) && s.processor.Some?
    requires forall n :: 0 <= n < |more| ==> !more[n].Polled? && ShouldStream(Run(s, more[..n + 1]))
    ensures Shut(Run(s, more)) && Run(s, more).processor == s.processor
  {
    if |more| > 0 {
      var n := |more| - 1;
      var before := more[..n];
      forall m | 0 <= m < n ensures !before[m].Polled? && ShouldStream(Run(s, before[..m + 1])) {
        assert before[..m + 1] == more[..m + 1];
      }
      StreamingClosedStaysShut(s, before);
      assert more[..n + 1] == more;
      StreamingClosedStep(Run(s, before), more[n]);
    }
  }

  lemma StreamingClosedStep(s: State, a: Action)
    requires Shut(s) && s.processor.Some? && !a.Polled? && ShouldStream(Step(s, a))
    ensures Shut(Step(s, a)) && Step(s, a).processor == s.processor
  {
    ClosedReopensIff(s, a);
  }

  // ----- Identifies that hang -----

  /** Only the last identify may be unsettled; it is in `identify` exactly while one is under way. */
  predicate OneOpenPromise(s: State) {
    && (forall i :: 0 <= i < |s.promises| - 1 ==> s.promises[i].Settled())
    && (s.identifying <==> |s.promises| > 0 && s.promises[|s.promises| - 1].Identifying?)
  }

  predicate SomeHang(s: State) {
    exists promise <- s.promises :: promise.Hung?
  }

  /** The payload does not parse, or is `null`, or has a `null` among its values. */
  predicate Unreadable(parsed: Option<Json>) {
    match parsed
    case None => true
    case Some(Null) => true
    case Some(Scalar) => false
    case Some(Array(elements)) => exists i :: 0 <= i < |elements| && elements[i] == Null
    case Some(Object(members)) => exists i :: 0 <= i < |members| && members[i].1 == Null
  }

  lemma UnreadableIff(parsed: Option<Json>)
    ensures Unusable(parsed) <==> Unreadable(parsed)
  {
    if parsed.Some? && parsed.value.Object? {
      var values, members := EntryValues(parsed.value), parsed.value.members;
      if i :| 0 <= i < |members| && members[i].1 == Null { assert values[i] == Null; }
    }
  }

  /** The three ways an identify is left unsettled: the client is closed when it begins, nothing
      can be made of the payload of its poll, or the flags cannot be stored. `identify` awaits
      neither the put handler nor the storing, and nobody sees them reject. */
  predicate Hangs(s: State, a: Action) {
    match a
    case Identify(_, _) => s.closed && !s.identifying && forall promise <- s.promises :: promise in {Resolved, Rejected}
    case Polled(poll) => s.identifying && poll.Payload? && Unreadable(poll.parsed)
    case Stored(good) => |s.promises| > 0 && s.promises[|s.promises| - 1].Storing? && !good
    case _ => false
  }

  lemma UpdateKeepsPromises(s: State)
    ensures UpdateStreaming(s).promises == s.promises && UpdateStreaming(s).identifying == s.identifying
    ensures StopDataSource(s).promises == s.promises && StopDataSource(s).identifying == s.identifying
  {
  }

  /** No identify hangs in any other way, and once one hangs, no other ever begins. */
  lemma HangsIff(s: State, a: Action)
    requires OneOpenPromise(s)
    ensures OneOpenPromise(Step(s, a))
    ensures SomeHang(Step(s, a)) <==> SomeHang(s) || Hangs(s, a)
    ensures SomeHang(s) ==> Step(s, a).promises == s.promises
  {
    var s', n := Step(s, a), |s.promises|;
    PromisesAfter(s, a);
    match a
    case Identify(_, _) => if CanIdentify(s) { NewLast(s, s', s'.promises[n]); }
    case Polled(_) => if s.identifying { OtherLast(s, s', s'.promises[n - 1]); }
    case LoadFailed => if s.identifying { OtherLast(s, s', s'.promises[n - 1]); }
    case Stored(_) => if n > 0 && s.promises[n - 1].Storing? { OtherLast(s, s', s'.promises[n - 1]); }
    case _ =>
  }

  lemma OtherLast(s: State, s': State, promise: Promise)
    requires OneOpenPromise(s) && |s.promises| > 0 && !s.promises[|s.promises| - 1].Hung?
    requires s'.promises == s.promises[|s.promises| - 1 := promise] && (s'.identifying <==> promise.Identifying?)
    ensures OneOpenPromise(s') && !SomeHang(s) && (SomeHang(s') <==> promise.Hung?)
  {
    assert s'.promises[|s.promises| - 1] in s'.promises;
  }

  lemma NewLast(s: State, s': State, promise: Promise)
    requires CanIdentify(s) && s'.promises == s.promises + [promise] && (s'.identifying <==> promise.Identifying?)
    ensures OneOpenPromise(s') && !SomeHang(s) && (SomeHang(s') <==> promise.Hung?)
  {
    assert s'.promises[|s.promises|] in s'.promises;
  }

  /** What each step does to the promises. An identify begins when none is under way or unsettled:
      a closed client loses it, a bootstrap resolves it. A poll that fails rejects it, one with a
      payload nothing can be made of loses it, and after any other it waits for the flags to be
      stored: that resolves it, or loses it. A cache load that fails rejects it. */
  lemma PromisesAfter(s: State, a: Action)
    requires OneOpenPromise(s)
    ensures var s', n := Step(s, a), |s.promises|;
      match a
      case Identify(_, bootstrap) =>
        if s.identifying || exists promise <- s.promises :: promise != Resolved && promise != Rejected then
          s'.promises == s.promises && s'.identifying == s.identifying
        else
          && s'.promises == s.promises + [if s.closed then Hung else if bootstrap then Resolved else Identifying]
          && s'.identifying == (!s.closed && !bootstrap)
      case Polled(poll) =>
        if !s.identifying then s' == s
        else
          && s'.promises == s.promises[n - 1 := if poll == NetworkError then Rejected else if Unreadable(poll.parsed) then Hung else Storing]
          && !s'.identifying
      case LoadFailed =>
        if !s.identifying then s' == s else s'.promises == s.promises[n - 1 := Rejected] && !s'.identifying
      case Stored(good) =>
        && s'.promises == (if n > 0 && s.promises[n - 1].Storing? then s.promises[n - 1 := if good then Resolved else Hung] else s.promises)
        && s'.identifying == s.identifying
      case _ => s'.promises == s.promises && s'.identifying == s.identifying
  {
    match a
    case On(name, listener) =>
      var listeners := Emitter.On(s.listeners, name, listener);
      UpdateKeepsPromises(s.(listeners := listeners, automatic := HasChangeListener(listeners)));
    case Off(name, only) =>
      var listeners := Unsubscribed(s.listeners, name, only);
      UpdateKeepsPromises(s.(listeners := listeners, automatic := HasChangeListener(listeners)));
    case SetStreaming(streaming) => UpdateKeepsPromises(s.(forced := streaming));
    case Identify(context, bootstrap) =>
      var s' := s.(context := Some(context), loadFailed := false, promises := s.promises + [Resolved]);
      UpdateKeepsPromises(s');
      UpdateKeepsPromises(StopDataSource(s'));
    case Polled(poll) =>
      if poll.Payload? { UnreadableIff(poll.parsed); }
      var s' := Promised(s.(identifying := false), PromiseAfter(poll));
      UpdateKeepsPromises(s');
      UpdateKeepsPromises(StopDataSource(s'));
    case Stored(_) =>
    case LoadFailed =>
    case Close =>
  }

  predicate SomeStepHangs(s0: State, actions: seq<Action>) {
    exists n :: 0 <= n < |actions| && Hangs(Run(s0, actions[..n]), actions[n])
  }

  lemma SomeStepHangsSnoc(s0: State, before: seq<Action>, a: Action)
    ensures SomeStepHangs(s0, before + [a]) <==> SomeStepHangs(s0, before) || Hangs(Run(s0, before), a)
  {
    var actions := before + [a];
    assert actions[..|before|] == before;
    if n :| 0 <= n < |before| && Hangs(Run(s0, before[..n]), before[n]) {
      assert actions[..n] == before[..n] && actions[n] == before[n];
    }
    if n :| 0 <= n < |actions| && Hangs(Run(s0, actions[..n]), actions[n]) {
      if n < |before| { assert actions[..n] == before[..n] && actions[n] == before[n]; }
    }
  }

  /** Over whole runs: an identify hangs exactly when one of those three things happens, and then
      it is the last identify of the client. */
  lemma {:induction false} IdentifyHangsIff(s0: State, actions: seq<Action>)
    requires Initial(s0)
    ensures OneOpenPromise(Run(s0, actions))
    ensures SomeHang(Run(s0, actions)) <==> SomeStepHangs(s0, actions)
  {
    if |actions| > 0 {
      var before, a := actions[..|actions| - 1], actions[|actions| - 1];
      IdentifyHangsIff(s0, before);
      HangsSnoc(s0, before, a, Run(s0, before), Run(s0, before + [a]));
      assert actions == before + [a];
    }
  }

  lemma HangsSnoc(s0: State, before: seq<Action>, a: Action, s: State, s': State)
    requires s == Run(s0, before) && s' == Run(s0, before + [a])
    requires OneOpenPromise(s) && (SomeHang(s) <==> SomeStepHangs(s0, before))
    ensures OneOpenPromise(s') && (SomeHang(s') <==> SomeStepHangs(s0, before + [a]))
  {
    RunSnoc(s0, before, a);
    SomeStepHangsSnoc(s0, before, a);
    HangsIff(s, a);
  }

  /** On a client that is idle and open, an identify hangs on a `null` payload, and on one with
      a `null` flag. */
  lemma NullPayloadHangs(s0: State, context: string, json: Json, key: string)
    requires Initial(s0) && (json == Null || json == Object([(key, Null)]))
    ensures SomeHang(Run(s0, [Identify(context, false), Polled(Payload(Some(json)))]))
  {
    var run := [Identify(context, false), Polled(Payload(Some(json)))];
    assert run[..1] == [run[0]] && [run[0]][..0] == [];
    var s1 := Step(s0, run[0]);
    assert Run(s0, run[..1]) == s1 && s1.promises == [Identifying];
    assert json.Object? ==> EntryValues(json)[0] == Null;
    HangsIff(s1, run[1]);
  }

  // ----- The class -----

  /** The client and its data manager. */
  class BrowserClient {
    const emitter: LDEmitter
    var forcedStreaming: Option<bool>
    var automaticStreamingState: bool
    var context: Option<string>
    var streams: seq<Stream>
    var updateProcessor: Option<nat>
    var identifying: bool
    ghost var loadFailed: bool
    var closed: bool
    var promises: seq<Promise>

    ghost function View(): State
      reads this, emitter
    {
      State(forcedStreaming, automaticStreamingState, emitter.listeners, context, streams, updateProcessor, identifying, loadFailed, closed, promises)
    }

    constructor (emitter: LDEmitter, streaming: Option<bool>)
      requires emitter.listeners == map[]
      ensures this.emitter == emitter && Initial(View()) && forcedStreaming == streaming
    {
      this.emitter, forcedStreaming, automaticStreamingState := emitter, streaming, false;
      context, streams, updateProcessor, identifying, loadFailed, closed := None, [], None, false, false, false;
      promises := [];
    }

    method CloseProcessor()
      modifies this`streams
      ensures View() == CloseStream(old(View()))
    {
      if updateProcessor.Some? && updateProcessor.value < |streams| {
        streams := streams[updateProcessor.value := streams[updateProcessor.value].(open := false)];
      }
    }

    method Stop()
      modifies this`streams, this`updateProcessor, this`loadFailed
      ensures View() == StopDataSource(old(View()))
    {
      CloseProcessor();
      updateProcessor, loadFailed := None, false;
    }

    method Start()
      modifies this`streams, this`updateProcessor, this`loadFailed
      ensures View() == StartDataSource(old(View()))
    {
      if updateProcessor.Some? { return; }
      if context.None? { return; }
      updateProcessor, loadFailed := Some(|streams|), false;
      streams := streams + [Stream(context.value, true)];
    }

    method UpdateStreamingState()
      modifies this`streams, this`updateProcessor, this`loadFailed
      ensures View() == UpdateStreaming(old(View()))
    {
      if forcedStreaming == Some(true) || (automaticStreamingState && forcedStreaming.None?) {
        Start();
      } else {
        Stop();
      }
    }

    method UpdateAutomaticStreamingState()
      modifies this
      ensures View() == Listened(old(View()), old(emitter.listeners))
    {
      automaticStreamingState := HasChangeListener(emitter.listeners);
      UpdateStreamingState();
    }

    method AddListener(name: string, listener: nat)
      modifies this, emitter
      ensures View() == Step(old(View()), On(name, listener))
    {
      emitter.AddListener(name, listener);
      UpdateAutomaticStreamingState();
    }

    method RemoveListener(name: string, listener: Option<nat>)
      modifies this, emitter
      ensures View() == Step(old(View()), Off(name, listener))
    {
      emitter.RemoveListener(name, listener);
      UpdateAutomaticStreamingState();
    }

    method SetForcedStreaming(streaming: Option<bool>)
      modifies this
      ensures View() == Step(old(View()), SetStreaming(streaming))
    {
      forcedStreaming := streaming;
      UpdateStreamingState();
    }

    method BeginIdentify(forContext: string, bootstrap: bool)
      requires CanIdentify(View())
      modifies this
      ensures View() == Step(old(View()), Identify(forContext, bootstrap))
    {
      if closed {
        promises := promises + [Hung];
        return;
      }
      context, loadFailed := Some(forContext), false;
      if bootstrap {
        promises := promises + [Resolved];
        Stop();
        UpdateStreamingState();
      } else {
        promises := promises + [Identifying];
        identifying := true;
      }
    }

    /** The promise of the identify under way. */
    method SetPromise(promise: Promise)
      modifies this`promises
      ensures View() == Promised(old(View()), promise)
    {
      if |promises| > 0 { promises := promises[|promises| - 1 := promise]; }
    }

    /** `handlePut` up to the storing of the flags: it reads the version of every entry. */
    method HandlePut(flags: Json) returns (throws: bool)
      ensures throws <==> Unusable(Some(flags))
    {
      if flags.Null? { return true; }
      var values := EntryValues(flags);
      for i := 0 to |values|
        invariant Null !in values[..i]
      {
        if values[i].Null? { return true; }
      }
      return false;
    }

    /** The end of `identify`, once its poll has ended. */
    method FinishIdentify(poll: Poll)
      requires identifying
      modifies this
      ensures View() == Step(old(View()), Polled(poll))
    {
      identifying := false;
      match poll {
        case NetworkError => SetPromise(Rejected);
        case Payload(None) => SetPromise(Hung);
        case Payload(Some(json)) =>
          var throws := HandlePut(json);
          SetPromise(if throws then Hung else Storing);
      }
      Stop();
      UpdateStreamingState();
    }

    /** The promise resolves when the flags have been stored, and not at all when that rejects. */
    method FinishStoring(good: bool)
      modifies this
      ensures View() == Step(old(View()), Stored(good))
    {
      if |promises| > 0 && promises[|promises| - 1].Storing? { SetPromise(if good then Resolved else Hung); }
    }

    method FailIdentify()
      requires identifying
      modifies this
      ensures View() == Step(old(View()), LoadFailed)
    {
      identifying, loadFailed := false, true;
      SetPromise(Rejected);
    }

    method CloseClient()
      modifies this
      ensures View() == Step(old(View()), Close)
    {
      CloseProcessor();
      closed := true;
    }
  }
}
