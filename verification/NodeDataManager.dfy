/** How the Node client SDK identifies contexts and changes connection mode (NodeDataManager.ts
    on top of BaseDataManager). Steps are the synchronous segments between awaits. */
module NodeDataManager {
  import opened Base

  datatype Mode = Offline | Streaming | Polling

  datatype Outcome = Resolved | Rejected

  /** A processor ever created: what it fetches, for which context, and the identify whose
      callbacks it carries. */
  datatype Processor = Processor(kind: Mode, context: string, callbacks: Option<nat>, live: bool)

  /** An identify inside `loadCached`. */
  datatype Load = Load(id: nat, context: string, startedOffline: bool, waitForNetwork: bool)

  datatype State = State(
    mode: Mode,                     // `connectionMode`
    context: Option<string>,
    closed: bool,
    pendingReject: Option<nat>,     // `_pendingIdentifyReject`, by the identify it rejects
    processors: seq<Processor>,
    installed: Option<nat>,         // `updateProcessor`
    eventSending: bool,
    modeQueue: seq<Mode>,           // transitions chained on `_connectionModeQueue`
    flushing: bool,                 // a transition to offline awaits the flush
    loading: Option<Load>,
    started: nat,                   // identifies begun; they are numbered from 0
    settled: map<nat, Outcome>)     // promises resolved or rejected

  datatype Action =
    | Identify(context: string, bootstrap: bool, waitForNetwork: bool)
    | Loaded(found: bool)           // `loadCached` resolves; its storage never rejects
    | RequestMode(mode: Mode)       // `setConnectionMode` is called
    | BeginMode                     // the next transition runs, up to its flush if it has one
    | Flushed(ok: bool)             // the flush ends
    | Put                           // the installed processor delivers the flags
    | Error                         // the installed processor reports an error
    | Close

  /** A promise keeps its first outcome. */
  function Settle(s: State, id: nat, outcome: Outcome): State {
    if id in s.settled then s else s.(settled := s.settled[id := outcome])
  }

  function RejectPending(s: State): State {
    if s.pendingReject.None? then s
    else Settle(s.(pendingReject := None), s.pendingReject.value, Rejected)
  }

  /** `this.updateProcessor?.close()` */
  function CloseInstalled(s: State): State {
    if s.installed.None? || s.installed.value >= |s.processors| then s
    else s.(processors := s.processors[s.installed.value := s.processors[s.installed.value].(live := false)])
  }

  /** `_setupConnection`; `callbacks` is the identify whose callbacks the processor gets. */
  function SetupConnection(s: State, context: string, callbacks: Option<nat>): State {
    var s' := CloseInstalled(s.(pendingReject := callbacks));
    if s.mode.Offline? then RejectPending(s'.(installed := None))
    else s'.(processors := s'.processors + [Processor(s.mode, context, callbacks, true)], installed := Some(|s'.processors|))
  }

  /** Connects unless offline. */
  function Connect(s: State, context: string, callbacks: Option<nat>): State {
    if s.mode.Offline? then s else SetupConnection(s, context, callbacks)
  }

  /** The client queue starts an identify only when the one before has returned and settled. */
  predicate CanIdentify(s: State) {
    s.loading.None? && forall id: nat :: id < s.started ==> id in s.settled
  }

  function Admitted(s: State, context: string): State {
    s.(started := s.started + 1, context := Some(context))
  }

  /** `_finishIdentifyFromBootstrap` resolves the identify before the connection is set up. */
  function Bootstrapped(s: State, context: string): State {
    Connect(Settle(Admitted(s, context), s.started, Resolved), context, None)
  }

  /** `identify` up to its await. */
  function IdentifyStarted(s: State, context: string, bootstrap: bool, waitForNetwork: bool): State {
    if s.closed then Settle(s.(started := s.started + 1), s.started, Rejected)
    else if bootstrap then Bootstrapped(s, context)
    else Admitted(s, context).(loading := Some(Load(s.started, context, s.mode.Offline?, waitForNetwork)))
  }

  /** `identify` after its await. */
  function IdentifyResumed(s: State, load: Load, found: bool): State {
    var s' := s.(loading := None);
    if s.closed then Settle(s', load.id, Rejected)
    else
      var fromCache := found && !(load.waitForNetwork && !load.startedOffline);
      var s'' := if fromCache then Settle(s', load.id, Resolved) else s';
      if s.mode.Offline? && !fromCache then Settle(s'', load.id, if load.startedOffline then Resolved else Rejected)
      else Connect(s'', load.context, if fromCache then None else Some(load.id))
  }

  /** The `finally` of a transition. */
  function SyncEvents(s: State): State {
    if s.closed then s else s.(eventSending := !s.mode.Offline?)
  }

  /** A transition from the point where the mode is set. */
  function ModeSet(s: State, mode: Mode): State {
    var s' := s.(mode := mode);
    if mode.Offline? then SyncEvents(CloseInstalled(RejectPending(s')).(installed := None))
    else if s.context.Some? then SyncEvents(SetupConnection(RejectPending(s'), s.context.value, None))
    else SyncEvents(s')
  }

  predicate CanBeginMode(s: State) {
    |s.modeQueue| > 0 && !s.flushing
  }

  /** A transition leaves the queue when it ends. */
  function ModeBegun(s: State): State {
    var mode := if CanBeginMode(s) then s.modeQueue[0] else s.mode;
    if !CanBeginMode(s) then s
    else if s.closed || s.mode == mode then SyncEvents(s.(modeQueue := s.modeQueue[1..]))
    else if mode.Offline? then s.(flushing := true)
    else ModeSet(s.(modeQueue := s.modeQueue[1..]), mode)
  }

  predicate CanFlush(s: State) {
    s.flushing && |s.modeQueue| > 0
  }

  function FlushEnded(s: State, ok: bool): State {
    if !CanFlush(s) then s
    else
      var s' := s.(flushing := false, modeQueue := s.modeQueue[1..]);
      if ok then ModeSet(s'.(eventSending := false), Offline) else SyncEvents(s')
  }

  predicate InstalledLive(s: State) {
    s.installed.Some? && s.installed.value < |s.processors| && s.processors[s.installed.value].live
  }

  /** The wrapped callbacks clear the pending reject before they settle the identify. */
  function CalledBack(s: State, outcome: Outcome): State {
    if !InstalledLive(s) || s.processors[s.installed.value].callbacks.None? then s
    else Settle(s.(pendingReject := None), s.processors[s.installed.value].callbacks.value, outcome)
  }

  function Closed(s: State): State {
    CloseInstalled(RejectPending(s)).(closed := true)
  }

  function Step(s: State, a: Action): State {
    match a
    case Identify(context, bootstrap, wait) =>
      if CanIdentify(s) then IdentifyStarted(s, context, bootstrap, wait) else s
    case Loaded(found) => if s.loading.Some? then IdentifyResumed(s, s.loading.value, found) else s
    case RequestMode(mode) => s.(modeQueue := s.modeQueue + [mode])
    case BeginMode => ModeBegun(s)
    case Flushed(ok) => FlushEnded(s, ok)
    case Put => CalledBack(s, Resolved)
    case Error => CalledBack(s, Rejected)
    case Close => Closed(s)
  }

  function Run(s: State, actions: seq<Action>): State {
    if |actions| == 0 then s
    else Step(Run(s, actions[..|actions| - 1]), actions[|actions| - 1])
  }

  /** A new client: events are sent unless it starts offline. */
  predicate Initial(s: State) {
    && s.context.None? && !s.closed && s.pendingReject.None? && s.processors == [] && s.installed.None?
    && s.eventSending == !s.mode.Offline? && s.modeQueue == [] && !s.flushing
    && s.loading.None? && s.started == 0 && s.settled == map[]
  }

  // ----- What every run keeps -----

  /** At most one processor is live: the installed one. */
  predicate Sole(s: State) {
    && (s.installed.Some? ==> s.installed.value < |s.processors|)
    && forall i :: 0 <= i < |s.processors| && s.processors[i].live ==> s.installed == Some(i)
  }

  /** It fetches as the mode says, and there is none offline or after closing. */
  predicate FollowsMode(s: State) {
    InstalledLive(s) ==> s.processors[s.installed.value].kind == s.mode && !s.mode.Offline? && !s.closed
  }

  predicate EventsFollowMode(s: State) {
    !s.closed ==> s.eventSending == !s.mode.Offline?
  }

  /** The live processor serves the current context, except while an identify loads its cache. */
  predicate ServesContext(s: State) {
    InstalledLive(s) && s.loading.None? ==> s.context == Some(s.processors[s.installed.value].context)
  }

  /** Online, the current context is being fetched for, with the same exception. */
  predicate OnlineIsServed(s: State) {
    !s.closed && !s.mode.Offline? && s.context.Some? && s.loading.None? ==> InstalledLive(s)
  }

  /** The pending identify is unsettled, and its callbacks are those of the live processor,
      which carries no other unsettled one. */
  predicate PendingIsServed(s: State) {
    && (s.pendingReject.Some? ==>
          && s.loading.None? && s.pendingReject.value < s.started && s.pendingReject.value !in s.settled
          && InstalledLive(s) && s.processors[s.installed.value].callbacks == s.pendingReject)
    && (InstalledLive(s) && s.processors[s.installed.value].callbacks.Some? ==>
          var id := s.processors[s.installed.value].callbacks.value;
          id in s.settled || s.pendingReject == Some(id))
  }

  /** No identify is left hanging. */
  predicate NoneHangs(s: State) {
    && (forall id <- s.settled :: id < s.started)
    && (s.loading.Some? ==>
          && s.loading.value.id < s.started && s.loading.value.id !in s.settled
          && s.context == Some(s.loading.value.context))
    && forall id: nat :: id < s.started ==>
         id in s.settled || s.pendingReject == Some(id) || (s.loading.Some? && s.loading.value.id == id)
  }

  predicate Transition(s: State) {
    s.flushing ==> |s.modeQueue| > 0 && s.modeQueue[0].Offline?
  }

  predicate Invariant(s: State) {
    && Sole(s) && FollowsMode(s) && EventsFollowMode(s) && ServesContext(s) && OnlineIsServed(s)
    && PendingIsServed(s) && NoneHangs(s) && Transition(s)
    && (s.context.None? ==> s.installed.None? && s.loading.None?)
  }

  lemma ClosingInstalled(s: State)
    requires Sole(s)
    ensures var s' := CloseInstalled(s);
      && s' == s.(processors := s'.processors) && |s'.processors| == |s.processors|
      && forall i :: 0 <= i < |s'.processors| ==> !s'.processors[i].live
  {
  }

  lemma Setup(s: State, context: string, callbacks: Option<nat>)
    requires Sole(s) && !s.mode.Offline?
    ensures var s' := SetupConnection(s, context, callbacks);
      && s' == s.(pendingReject := callbacks, processors := s'.processors, installed := s'.installed)
      && Sole(s') && InstalledLive(s')
      && s'.processors[s'.installed.value] == Processor(s.mode, context, callbacks, true)
      && s'.installed == Some(|s.processors|) && |s'.processors| == |s.processors| + 1
  {
    ClosingInstalled(s.(pendingReject := callbacks));
  }

  lemma BootstrapKeeps(s: State, context: string)
    requires Invariant(s) && CanIdentify(s) && !s.closed
    ensures Invariant(Bootstrapped(s, context))
  {
    if !s.mode.Offline? { Setup(Settle(Admitted(s, context), s.started, Resolved), context, None); }
  }

  lemma IdentifyKeeps(s: State, context: string, bootstrap: bool, wait: bool)
    requires Invariant(s) && CanIdentify(s)
    ensures Invariant(IdentifyStarted(s, context, bootstrap, wait))
  {
    if !s.closed && bootstrap { BootstrapKeeps(s, context); }
  }

  lemma LoadedKeeps(s: State, found: bool)
    requires Invariant(s) && s.loading.Some?
    ensures Invariant(IdentifyResumed(s, s.loading.value, found))
  {
    var load := s.loading.value;
    if !s.closed && !s.mode.Offline? {
      var s' := s.(loading := None);
      var fromCache := found && !(load.waitForNetwork && !load.startedOffline);
      Setup(if fromCache then Settle(s', load.id, Resolved) else s', load.context, if fromCache then None else Some(load.id));
    }
  }

  /** What holds between the moments a transition changes the mode and the processor. */
  predicate Unsettled(s: State) {
    && Sole(s) && ServesContext(s) && PendingIsServed(s) && NoneHangs(s) && Transition(s)
    && (s.context.None? ==> s.installed.None? && s.loading.None?)
  }

  lemma RejectKeeps(s: State)
    requires Unsettled(s)
    ensures var s' := RejectPending(s);
      Unsettled(s') && s' == s.(pendingReject := None, settled := s'.settled)
  {
  }

  lemma GoOnline(s: State)
    requires Unsettled(s) && s.pendingReject.None? && !s.mode.Offline? && !s.closed && s.context.Some?
    ensures Invariant(SyncEvents(SetupConnection(s, s.context.value, None)))
  {
    Setup(s, s.context.value, None);
  }

  lemma GoOffline(s: State)
    requires Unsettled(s) && s.pendingReject.None? && s.mode.Offline?
    ensures Invariant(SyncEvents(CloseInstalled(s).(installed := None)))
  {
    ClosingInstalled(s);
  }

  lemma ModeSetKeeps(s: State, mode: Mode)
    requires Unsettled(s)
    requires s.closed ==> mode.Offline?
    ensures Invariant(ModeSet(s, mode))
  {
    var s' := s.(mode := mode);
    RejectKeeps(s');
    if mode.Offline? { GoOffline(RejectPending(s')); } else if s.context.Some? { GoOnline(RejectPending(s')); }
  }

  lemma CalledBackKeeps(s: State, outcome: Outcome)
    requires Invariant(s)
    ensures Invariant(CalledBack(s, outcome))
  {
  }

  lemma ClosedKeeps(s: State)
    requires Invariant(s)
    ensures Invariant(Closed(s))
  {
    ClosingInstalled(RejectPending(s));
  }

  lemma StepKeepsInvariant(s: State, a: Action)
    requires Invariant(s)
    ensures Invariant(Step(s, a))
  {
    match a
    case Identify(context, bootstrap, wait) => if CanIdentify(s) { IdentifyKeeps(s, context, bootstrap, wait); }
    case Loaded(found) => if s.loading.Some? { LoadedKeeps(s, found); }
    case RequestMode(_) =>
    case BeginMode => BeginKeeps(s);
    case Flushed(ok) => FlushedKeeps(s, ok);
    case Put => CalledBackKeeps(s, Resolved);
    case Error => CalledBackKeeps(s, Rejected);
    case Close => ClosedKeeps(s);
  }

  lemma BeginKeeps(s: State)
    requires Invariant(s)
    ensures Invariant(ModeBegun(s))
  {
    if CanBeginMode(s) && !s.closed && s.mode != s.modeQueue[0] && !s.modeQueue[0].Offline? {
      ModeSetKeeps(s.(modeQueue := s.modeQueue[1..]), s.modeQueue[0]);
    }
  }

  lemma FlushedKeeps(s: State, ok: bool)
    requires Invariant(s)
    ensures Invariant(FlushEnded(s, ok))
  {
    if CanFlush(s) && ok {
      ModeSetKeeps(s.(flushing := false, modeQueue := s.modeQueue[1..]).(eventSending := false), Offline);
    }
  }

  lemma {:induction false} RunKeepsInvariant(s0: State, actions: seq<Action>)
    requires Initial(s0)
    ensures Invariant(Run(s0, actions))
  {
    if |actions| > 0 {
      RunKeepsInvariant(s0, actions[..|actions| - 1]);
      StepKeepsInvariant(Run(s0, actions[..|actions| - 1]), actions[|actions| - 1]);
    }
  }

  // ----- What a caller may rely on -----

  /** At every await point: at most one processor is live, the installed one; it fetches as the
      mode says and for the current context, unless an identify is loading its cache; there is
      none offline or after closing; and events are sent exactly when the mode is not offline, whatever the flush did. */
  lemma OneProcessorAsTheModeSays(s0: State, actions: seq<Action>)
    requires Initial(s0)
    ensures var s := Run(s0, actions);
      && (forall i :: 0 <= i < |s.processors| && s.processors[i].live ==>
            && s.installed == Some(i) && s.processors[i].kind == s.mode && !s.mode.Offline? && !s.closed
            && (s.loading.None? ==> s.context == Some(s.processors[i].context)))
      && (!s.closed && !s.mode.Offline? && s.context.Some? && s.loading.None? ==>
            exists i :: 0 <= i < |s.processors| && s.processors[i].live)
      && (!s.closed ==> s.eventSending == !s.mode.Offline?)
  {
    RunKeepsInvariant(s0, actions);
  }

  /** Every identify begun is settled, inside `loadCached`, or pending with its callbacks on the
      live processor. */
  lemma NoIdentifyHangs(s0: State, actions: seq<Action>, id: nat)
    requires Initial(s0)
    requires id < Run(s0, actions).started
    ensures var s := Run(s0, actions);
      || id in s.settled
      || (s.loading.Some? && s.loading.value.id == id)
      || (s.pendingReject == Some(id) && InstalledLive(s) && s.processors[s.installed.value].callbacks == Some(id))
  {
    RunKeepsInvariant(s0, actions);
  }

  /** A transition that changes the mode, seen from the step that completes it. */
  predicate ChangesMode(s: State, a: Action) {
    match a
    case BeginMode => !s.closed && |s.modeQueue| > 0 && !s.flushing && s.modeQueue[0] != s.mode && s.modeQueue[0] != Offline
    case Flushed(ok) => |s.modeQueue| > 0 && s.flushing && ok
    case _ => false
  }

  /** A pending identify is rejected by a mode change, by closing and by an error, and resolved
      by the flags; nothing else settles it. */
  lemma PendingIsSettledBy(s0: State, actions: seq<Action>, a: Action)
    requires Initial(s0)
    requires Run(s0, actions).pendingReject.Some?
    ensures var s := Run(s0, actions);
      var id, s' := s.pendingReject.value, Step(s, a);
      if ChangesMode(s, a) || a.Close? || a.Error? then s'.settled == s.settled[id := Rejected] && s'.pendingReject.None?
      else if a.Put? then s'.settled == s.settled[id := Resolved] && s'.pendingReject.None?
      else s'.settled == s.settled && s'.pendingReject == s.pendingReject
  {
    RunKeepsInvariant(s0, actions);
    var s := Run(s0, actions);
    assert s.context.Some?;
    if a.BeginMode? && ChangesMode(s, a) { ModeSetRejects(s.(modeQueue := s.modeQueue[1..]), s.modeQueue[0]); }
    if a.Flushed? && ChangesMode(s, a) {
      ModeSetRejects(s.(flushing := false, modeQueue := s.modeQueue[1..], eventSending := false), Offline);
    }
  }

  lemma ModeSetRejects(s: State, mode: Mode)
    requires s.pendingReject.Some? && s.pendingReject.value !in s.settled && s.context.Some?
    ensures var s' := ModeSet(s, mode);
      s'.pendingReject.None? && s'.settled == s.settled[s.pendingReject.value := Rejected]
  {
    ModeSetFrame(s, mode);
  }

  /** With no identify pending, only those steps settle one that begin it or end its cache load. */
  lemma OthersSettleNothing(s0: State, actions: seq<Action>, a: Action)
    requires Initial(s0) && !a.Identify? && !a.Loaded?
    requires Run(s0, actions).pendingReject.None?
    ensures var s, s' := Run(s0, actions), Step(Run(s0, actions), a); s'.settled == s.settled && s'.pendingReject.None?
  {
    RunKeepsInvariant(s0, actions);
    var s := Run(s0, actions);
    if a.BeginMode? && ChangesMode(s, a) { ModeSetFrame(s.(modeQueue := s.modeQueue[1..]), s.modeQueue[0]); }
    if a.Flushed? && ChangesMode(s, a) {
      ModeSetFrame(s.(flushing := false, modeQueue := s.modeQueue[1..], eventSending := false), Offline);
    }
  }

  /** What `identify` does before its await, in any reachable state: a closed client rejects it, a
      bootstrap resolves it, and otherwise it stays open and loads its cache. */
  lemma IdentifyBegins(s0: State, actions: seq<Action>, context: string, bootstrap: bool, wait: bool)
    requires Initial(s0)
    requires Run(s0, actions).loading.None? && forall id: nat :: id < Run(s0, actions).started ==> id in Run(s0, actions).settled
    ensures var s := Run(s0, actions);
      var id, s' := s.started, Step(s, Identify(context, bootstrap, wait));
      && id !in s.settled && s'.started == id + 1
      && s'.settled == (if s.closed then s.settled[id := Rejected] else if bootstrap then s.settled[id := Resolved] else s.settled)
      && s'.context == (if s.closed then s.context else Some(context))
      && s'.loading == (if s.closed || bootstrap then None else Some(Load(id, context, s.mode == Offline, wait)))
      && (if bootstrap && !s.closed && s.mode != Offline then
            s'.installed == Some(|s.processors|) && s'.pendingReject.None?
            && |s'.processors| == |s.processors| + 1 && s'.processors[|s.processors|] == Processor(s.mode, context, None, true)
          else s'.installed == s.installed && s'.processors == s.processors && s'.pendingReject == s.pendingReject)
  {
    RunKeepsInvariant(s0, actions);
    var s := Run(s0, actions);
    if bootstrap && !s.closed && s.mode != Offline { Setup(Settle(Admitted(s, context), s.started, Resolved), context, None); }
  }

  /** What `identify` does after its await, in any reachable state: a client closed meanwhile rejects
      it; flags from the cache resolve it, unless the caller waits for the network and began
      online; offline it resolves if it began so, and is rejected otherwise; and online its
      outcome is left to the processor that is started for it. */
  lemma LoadEnds(s0: State, actions: seq<Action>, found: bool)
    requires Initial(s0) && Run(s0, actions).loading.Some?
    ensures var s := Run(s0, actions);
      var load, s' := s.loading.value, Step(s, Loaded(found));
      var cached := found && (!load.waitForNetwork || load.startedOffline);
      && load.id !in s.settled && s'.loading.None? && s'.context == Some(load.context)
      && s'.settled == (if s.closed then s.settled[load.id := Rejected]
                        else if cached then s.settled[load.id := Resolved]
                        else if s.mode != Offline then s.settled
                        else s.settled[load.id := if load.startedOffline then Resolved else Rejected])
      && (if s.closed || s.mode == Offline then
            s'.installed == s.installed && s'.processors == s.processors && s'.pendingReject == s.pendingReject
          else
            var waiting := if cached then None else Some(load.id);
            s'.installed == Some(|s.processors|) && s'.pendingReject == waiting
            && |s'.processors| == |s.processors| + 1 && s'.processors[|s.processors|] == Processor(s.mode, load.context, waiting, true))
  {
    RunKeepsInvariant(s0, actions);
    var s := Run(s0, actions);
    var load, s' := s.loading.value, s.(loading := None);
    if !s.closed && s.mode != Offline {
      var cached := found && (!load.waitForNetwork || load.startedOffline);
      Setup(if cached then Settle(s', load.id, Resolved) else s', load.context, if cached then None else Some(load.id));
    }
  }

  /** The transition to offline at the head of the queue first has to flush. */
  predicate StartsFlush(s: State, a: Action) {
    a.BeginMode? && |s.modeQueue| > 0 && !s.flushing && !s.closed && s.mode != Offline && s.modeQueue[0] == Offline
  }

  predicate TakesTurn(s: State, a: Action, s': State) {
    && s'.mode == (if ChangesMode(s, a) then s.modeQueue[0] else s.mode)
    && s'.flushing == (StartsFlush(s, a) || (s.flushing && !a.Flushed?))
    && s'.modeQueue == (
         if a.RequestMode? then s.modeQueue + [a.mode]
         else if |s.modeQueue| > 0 && ((a.Flushed? && s.flushing) || (a.BeginMode? && !s.flushing && !StartsFlush(s, a)))
         then s.modeQueue[1..] else s.modeQueue)
    && s'.closed == (s.closed || a.Close?)
  }

  lemma BeginTakesTurn(s: State)
    requires Transition(s)
    ensures TakesTurn(s, BeginMode, Step(s, BeginMode))
  {
    if ChangesMode(s, BeginMode) { ModeSetFrame(s.(modeQueue := s.modeQueue[1..]), s.modeQueue[0]); }
  }

  lemma FlushTakesTurn(s: State, ok: bool)
    requires Transition(s)
    ensures TakesTurn(s, Flushed(ok), Step(s, Flushed(ok)))
  {
    if CanFlush(s) && ok { ModeSetFrame(s.(flushing := false, modeQueue := s.modeQueue[1..]).(eventSending := false), Offline); }
  }

  /** Requests queue up, and each takes effect in its turn: the mode is what the head of the queue
      asks for, offline only after a flush that went well; a transition to the
      mode the client is in, of a client closed before it begins, or whose flush failed, changes
      nothing. */
  lemma ModesTakeTurns(s0: State, actions: seq<Action>, a: Action)
    requires Initial(s0)
    ensures TakesTurn(Run(s0, actions), a, Step(Run(s0, actions), a))
  {
    RunKeepsInvariant(s0, actions);
    var s := Run(s0, actions);
    match a
    case Identify(context, bootstrap, wait) => IdentifyFrame(s, context, bootstrap, wait);
    case Loaded(found) => if s.loading.Some? { ResumedFrame(s, s.loading.value, found); }
    case RequestMode(_) =>
    case BeginMode => BeginTakesTurn(s);
    case Flushed(ok) => FlushTakesTurn(s, ok);
    case Put =>
    case Error =>
    case Close => RejectFrame(s); CloseInstalledFrame(RejectPending(s));
  }

  /** A change of mode online reconnects for the current context; the other steps that are no
      identify neither start nor replace a processor. */
  lemma ModesReconnect(s0: State, actions: seq<Action>, a: Action)
    requires Initial(s0) && !a.Identify? && !a.Loaded?
    ensures Reconnects(Run(s0, actions), a, Step(Run(s0, actions), a))
  {
    RunKeepsInvariant(s0, actions);
    var s := Run(s0, actions);
    match a
    case RequestMode(_) =>
    case BeginMode => BeginReconnects(s);
    case Flushed(ok) => FlushReconnects(s, ok);
    case Put =>
    case Error =>
    case Close => CloseReconnects(s);
  }

  lemma BeginReconnects(s: State)
    requires Sole(s)
    ensures Reconnects(s, BeginMode, Step(s, BeginMode))
  {
    if ChangesMode(s, BeginMode) { ModeSetProcessors(s.(modeQueue := s.modeQueue[1..]), s.modeQueue[0]); }
  }

  lemma FlushReconnects(s: State, ok: bool)
    requires Sole(s)
    ensures Reconnects(s, Flushed(ok), Step(s, Flushed(ok)))
  {
    if CanFlush(s) && ok { ModeSetProcessors(s.(flushing := false, modeQueue := s.modeQueue[1..]).(eventSending := false), Offline); }
  }

  lemma CloseReconnects(s: State)
    requires Sole(s)
    ensures Reconnects(s, Close, Step(s, Close))
  {
    RejectFrame(s);
    ClosingInstalled(RejectPending(s));
  }

  predicate Reconnects(s: State, a: Action, s': State) {
    && s'.context == s.context && s'.loading == s.loading && s'.started == s.started
    && (if a.BeginMode? && ChangesMode(s, a) && s.context.Some? then
          s'.installed == Some(|s.processors|) && |s'.processors| == |s.processors| + 1
          && s'.processors[|s.processors|] == Processor(s.modeQueue[0], s.context.value, None, true)
        else |s'.processors| == |s.processors|)
    && (!ChangesMode(s, a) && !a.Close? ==> s'.processors == s.processors && s'.installed == s.installed)
  }

  lemma ModeSetProcessors(s: State, mode: Mode)
    requires Sole(s)
    ensures var s' := ModeSet(s, mode);
      && s'.context == s.context && s'.loading == s.loading && s'.started == s.started
      && (if mode != Offline && s.context.Some? then
            s'.installed == Some(|s.processors|) && |s'.processors| == |s.processors| + 1
            && s'.processors[|s.processors|] == Processor(mode, s.context.value, None, true)
          else |s'.processors| == |s.processors|)
  {
    var s' := s.(mode := mode);
    RejectFrame(s');
    if mode.Offline? { ClosingInstalled(RejectPending(s')); }
    else if s.context.Some? { Setup(RejectPending(s'), s.context.value, None); }
  }

  /** Promises that were settled keep their outcome. */
  predicate Grows(s: State, s': State) {
    forall id <- s.settled :: id in s'.settled && s'.settled[id] == s.settled[id]
  }

  predicate SameModes(s: State, s': State) {
    s'.mode == s.mode && s'.closed == s.closed && s'.modeQueue == s.modeQueue && s'.flushing == s.flushing
  }

  lemma CloseInstalledFrame(s: State)
    ensures CloseInstalled(s) == s.(processors := CloseInstalled(s).processors)
  {
  }

  lemma RejectFrame(s: State)
    ensures var s' := RejectPending(s);
      && s' == s.(pendingReject := None, settled := s'.settled) && Grows(s, s')
      && s'.settled == if s.pendingReject.None? || s.pendingReject.value in s.settled then s.settled
                       else s.settled[s.pendingReject.value := Rejected]
  {
  }

  /** Connecting online settles nothing by itself. */
  lemma SetupFrame(s: State, context: string, callbacks: Option<nat>)
    requires !s.mode.Offline?
    ensures var s' := SetupConnection(s, context, callbacks);
      s' == s.(pendingReject := callbacks, processors := s'.processors, installed := s'.installed)
  {
    CloseInstalledFrame(s.(pendingReject := callbacks));
  }

  lemma ConnectFrame(s: State, context: string, callbacks: Option<nat>)
    ensures var s' := Connect(s, context, callbacks);
      SameModes(s, s') && s'.settled == s.settled
  {
    if !s.mode.Offline? { SetupFrame(s, context, callbacks); }
  }

  lemma ModeSetFrame(s: State, mode: Mode)
    ensures var s' := ModeSet(s, mode);
      && SameModes(s.(mode := mode), s') && Grows(s, s')
      && (mode.Offline? || s.context.Some? ==> s'.pendingReject.None? && s'.settled == RejectPending(s).settled)
  {
    var s' := s.(mode := mode);
    RejectFrame(s);
    RejectFrame(s');
    if mode.Offline? { CloseInstalledFrame(RejectPending(s')); }
    else if s.context.Some? { SetupFrame(RejectPending(s'), s.context.value, None); }
  }

  lemma BootstrapFrame(s: State, context: string)
    ensures Grows(s, Bootstrapped(s, context)) && SameModes(s, Bootstrapped(s, context))
  {
    ConnectFrame(Settle(Admitted(s, context), s.started, Resolved), context, None);
  }

  lemma IdentifyFrame(s: State, context: string, bootstrap: bool, wait: bool)
    ensures Grows(s, IdentifyStarted(s, context, bootstrap, wait)) && SameModes(s, IdentifyStarted(s, context, bootstrap, wait))
  {
    if !s.closed && bootstrap { BootstrapFrame(s, context); }
  }

  lemma ResumedFrame(s: State, load: Load, found: bool)
    ensures Grows(s, IdentifyResumed(s, load, found)) && SameModes(s, IdentifyResumed(s, load, found))
  {
    var s' := s.(loading := None);
    var fromCache := found && !(load.waitForNetwork && !load.startedOffline);
    ConnectFrame(if fromCache then Settle(s', load.id, Resolved) else s', load.context, if fromCache then None else Some(load.id));
  }

  lemma ModeBegunFrame(s: State)
    ensures Grows(s, ModeBegun(s))
    ensures Transition(s) && !s.closed ==> !ModeBegun(s).closed && Target(ModeBegun(s)) == Target(s)
  {
    if CanBeginMode(s) && !s.closed && s.mode != s.modeQueue[0] && !s.modeQueue[0].Offline? {
      ModeSetFrame(s.(modeQueue := s.modeQueue[1..]), s.modeQueue[0]);
    }
  }

  lemma FlushEndedFrame(s: State, ok: bool)
    ensures Grows(s, FlushEnded(s, ok))
    ensures Transition(s) && !s.closed && ok ==> !FlushEnded(s, ok).closed && Target(FlushEnded(s, ok)) == Target(s)
  {
    if CanFlush(s) && ok {
      ModeSetFrame(s.(flushing := false, modeQueue := s.modeQueue[1..]).(eventSending := false), Offline);
    }
  }

  /** Once the client is closed and the cache load in progress has ended, no identify is left. */
  lemma CloseSettlesAll(s0: State, actions: seq<Action>, load: Action)
    requires Initial(s0) && load.Loaded?
    ensures var s := Step(Step(Run(s0, actions), Close), load);
      forall id: nat :: id < s.started ==> id in s.settled
  {
    RunKeepsInvariant(s0, actions);
    var s := Run(s0, actions);
    ClosedKeeps(s);
    StepKeepsInvariant(Closed(s), load);
    ClosingInstalled(RejectPending(s));
  }

  /** Promises keep their outcome. */
  lemma {:induction false} SettledOnce(s0: State, actions: seq<Action>, more: seq<Action>)
    ensures Grows(Run(s0, actions), Run(s0, actions + more))
  {
    if more == [] {
      assert actions + more == actions;
    } else {
      var before, a := actions + more[..|more| - 1], more[|more| - 1];
      assert actions + more == before + [a];
      SettledOnce(s0, actions, more[..|more| - 1]);
      SettledSnoc(s0, before, a);
      GrowsOn(Run(s0, actions), Run(s0, before), Run(s0, before + [a]));
    }
  }

  lemma SettledSnoc(s0: State, before: seq<Action>, a: Action)
    ensures Grows(Run(s0, before), Run(s0, before + [a]))
  {
    assert (before + [a])[..|before|] == before;
    StepSettlesOnce(Run(s0, before), a);
  }

  lemma GrowsOn(s: State, s': State, s'': State)
    requires Grows(s, s') && Grows(s', s'')
    ensures Grows(s, s'')
  {
  }

  lemma StepSettlesOnce(s: State, a: Action)
    ensures Grows(s, Step(s, a))
  {
    match a
    case Identify(context, bootstrap, wait) => IdentifyFrame(s, context, bootstrap, wait);
    case Loaded(found) => if s.loading.Some? { ResumedFrame(s, s.loading.value, found); }
    case RequestMode(_) =>
    case BeginMode => ModeBegunFrame(s);
    case Flushed(ok) => FlushEndedFrame(s, ok);
    case Put =>
    case Error =>
    case Close => RejectFrame(s); CloseInstalledFrame(RejectPending(s));
  }

  /** The mode the client will be in once the transitions asked for have run. */
  function Target(s: State): Mode {
    if |s.modeQueue| > 0 then s.modeQueue[|s.modeQueue| - 1] else s.mode
  }

  /** A mode may fail to be reached only by closing the client or by a failed flush. */
  predicate Spoils(a: Action) {
    a.Close? || a == Flushed(false)
  }

  function LastRequest(actions: seq<Action>, mode: Mode): Mode {
    if |actions| == 0 then mode
    else if actions[|actions| - 1].RequestMode? then actions[|actions| - 1].mode
    else LastRequest(actions[..|actions| - 1], mode)
  }

  /** Transitions asked for at any moments, in any number, leave the mode asked for last. */
  lemma {:induction false} LastRequestWins(s0: State, actions: seq<Action>)
    requires Initial(s0) && forall i :: 0 <= i < |actions| ==> !Spoils(actions[i])
    ensures var s := Run(s0, actions);
      && !s.closed && Target(s) == LastRequest(actions, s0.mode)
      && (s.modeQueue == [] ==> s.mode == LastRequest(actions, s0.mode))
  {
    if |actions| > 0 {
      var before := actions[..|actions| - 1];
      LastRequestWins(s0, before);
      RunKeepsInvariant(s0, before);
      StepKeepsTarget(Run(s0, before), actions[|actions| - 1]);
    }
  }

  lemma StepKeepsTarget(s: State, a: Action)
    requires Transition(s) && !s.closed && !Spoils(a)
    ensures !Step(s, a).closed && Target(Step(s, a)) == if a.RequestMode? then a.mode else Target(s)
  {
    match a
    case Identify(context, bootstrap, wait) => IdentifyFrame(s, context, bootstrap, wait);
    case Loaded(found) => if s.loading.Some? { ResumedFrame(s, s.loading.value, found); }
    case RequestMode(_) =>
    case BeginMode => ModeBegunFrame(s);
    case Flushed(ok) => FlushEndedFrame(s, ok);
    case Put =>
    case Error =>
  }

  // ----- The class -----

  /** NodeDataManager, with the client queue that serializes its identifies and the promises its
      callers hold. */
  class DataManager {
    var connectionMode: Mode
    var context: Option<string>
    var closed: bool
    var pendingIdentifyReject: Option<nat>
    var processors: seq<Processor>
    var updateProcessor: Option<nat>
    var eventSending: bool
    var connectionModeQueue: seq<Mode>
    var flushing: bool
    var loading: Option<Load>
    var started: nat
    var settled: map<nat, Outcome>

    ghost function View(): State
      reads this
    {
      State(connectionMode, context, closed, pendingIdentifyReject, processors, updateProcessor, eventSending,
            connectionModeQueue, flushing, loading, started, settled)
    }

    constructor (initial: Mode)
      ensures Initial(View()) && connectionMode == initial
    {
      connectionMode, eventSending := initial, initial != Offline;
      context, closed, pendingIdentifyReject, processors, updateProcessor := None, false, None, [], None;
      connectionModeQueue, flushing, loading, started, settled := [], false, None, 0, map[];
    }

    method SettleIdentify(id: nat, outcome: Outcome)
      modifies this`settled
      ensures View() == Settle(old(View()), id, outcome)
    {
      if id !in settled { settled := settled[id := outcome]; }
    }

    /** Captures and clears the pending reject before invoking it. */
    method RejectPendingIdentify()
      modifies this`pendingIdentifyReject, this`settled
      ensures View() == RejectPending(old(View()))
    {
      if pendingIdentifyReject.Some? {
        var id := pendingIdentifyReject.value;
        pendingIdentifyReject := None;
        SettleIdentify(id, Rejected);
      }
    }

    method CloseProcessor()
      modifies this`processors
      ensures View() == CloseInstalled(old(View()))
    {
      if updateProcessor.Some? && updateProcessor.value < |processors| {
        var i := updateProcessor.value;
        processors := processors[i := processors[i].(live := false)];
      }
    }

    method SetupProcessor(forContext: string, callbacks: Option<nat>)
      modifies this`pendingIdentifyReject, this`processors, this`updateProcessor, this`settled
      ensures View() == SetupConnection(old(View()), forContext, callbacks)
    {
      pendingIdentifyReject := callbacks;
      CloseProcessor();
      match connectionMode
      case Offline =>
        updateProcessor := None;
        RejectPendingIdentify();
      case _ =>
        updateProcessor := Some(|processors|);
        processors := processors + [Processor(connectionMode, forContext, callbacks, true)];
    }

    method FinishFromBootstrap(id: nat, forContext: string)
      modifies this`pendingIdentifyReject, this`processors, this`updateProcessor, this`settled
      ensures View() == Connect(Settle(old(View()), id, Resolved), forContext, None)
    {
      SettleIdentify(id, Resolved);
      if connectionMode != Offline { SetupProcessor(forContext, None); }
    }

    method BeginIdentify(forContext: string, bootstrap: bool, waitForNetwork: bool)
      requires CanIdentify(View())
      modifies this
      ensures View() == Step(old(View()), Identify(forContext, bootstrap, waitForNetwork))
    {
      var id := started;
      if closed {
        started := id + 1;
        SettleIdentify(id, Rejected);
        return;
      }
      started, context := id + 1, Some(forContext);
      assert View() == Admitted(old(View()), forContext);
      if bootstrap {
        FinishFromBootstrap(id, forContext);
        return;
      }
      loading := Some(Load(id, forContext, connectionMode == Offline, waitForNetwork));
    }

    method ResumeIdentify(loadedFromCache: bool)
      requires loading.Some?
      modifies this
      ensures View() == Step(old(View()), Loaded(loadedFromCache))
    {
      var load := loading.value;
      loading := None;
      if closed {
        SettleIdentify(load.id, Rejected);
        return;
      }
      var offline := connectionMode == Offline;
      var identifyResolved := false;
      if loadedFromCache && !(load.waitForNetwork && !load.startedOffline) {
        SettleIdentify(load.id, Resolved);
        identifyResolved := true;
      }
      if offline {
        if !load.startedOffline {
          if !identifyResolved { SettleIdentify(load.id, Rejected); }
          return;
        }
        if !loadedFromCache { SettleIdentify(load.id, Resolved); }
        return;
      }
      SetupProcessor(load.context, if identifyResolved then None else Some(load.id));
    }

    method SetConnectionMode(mode: Mode)
      modifies this`connectionModeQueue
      ensures View() == Step(old(View()), RequestMode(mode))
    {
      connectionModeQueue := connectionModeQueue + [mode];
    }

    /** The `finally` of a transition. */
    method ResyncEvents()
      modifies this`eventSending
      ensures View() == SyncEvents(old(View()))
    {
      if !closed { eventSending := connectionMode != Offline; }
    }

    method ChangeMode(mode: Mode)
      modifies this
      ensures View() == ModeSet(old(View()), mode)
    {
      connectionMode := mode;
      if mode == Offline {
        RejectPendingIdentify();
        CloseProcessor();
        updateProcessor := None;
      } else if context.Some? {
        RejectPendingIdentify();
        SetupProcessor(context.value, None);
      }
      ResyncEvents();
    }

    method BeginTransition()
      modifies this
      ensures View() == Step(old(View()), BeginMode)
    {
      if |connectionModeQueue| == 0 || flushing { return; }
      var mode := connectionModeQueue[0];
      if !closed && connectionMode != mode && mode == Offline {
        flushing := true;
        return;
      }
      connectionModeQueue := connectionModeQueue[1..];
      if closed || connectionMode == mode { ResyncEvents(); } else { ChangeMode(mode); }
    }

    method ResumeTransition(flushed: bool)
      modifies this
      ensures View() == Step(old(View()), Flushed(flushed))
    {
      if !flushing || |connectionModeQueue| == 0 { return; }
      flushing, connectionModeQueue := false, connectionModeQueue[1..];
      if flushed {
        eventSending := false;
        ChangeMode(Offline);
      } else {
        ResyncEvents();
      }
    }

    /** A callback of the installed processor. */
    method CallBack(outcome: Outcome)
      modifies this
      ensures View() == Step(old(View()), if outcome.Resolved? then Put else Error)
    {
      if updateProcessor.Some? && updateProcessor.value < |processors| && processors[updateProcessor.value].live {
        var callbacks := processors[updateProcessor.value].callbacks;
        if callbacks.Some? {
          pendingIdentifyReject := None;
          SettleIdentify(callbacks.value, outcome);
        }
      }
    }

    method CloseManager()
      modifies this
      ensures View() == Step(old(View()), Close)
    {
      RejectPendingIdentify();
      CloseProcessor();
      closed := true;
    }
  }
}
