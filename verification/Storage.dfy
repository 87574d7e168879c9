/** The write-behind flag cache of the Node and Electron client SDKs (NodeStorage.ts and
    ElectronStorage.ts). Steps are the synchronous segments between awaits; a crash is a run
    that stops anywhere. */
module Storage {
  import opened Base

  type Content = map<string, string>

  /** The two storages differ in how they write the temporary file and in what a failure does
      to the calls that wait for it. */
  datatype Flavour = Node | Electron

  /** The next operation of `_atomicWriteToFile`. */
  datatype Phase = Unlink | Open | Write | Close | Rename | Cleanup

  /** The calls that await one flush: the one that scheduled it holds its promise, the others
      hold `_flushQueue`, which swallows the error. A call is known by how many changes the
      cache had seen once it had made its own. */
  datatype Waiting = Waiting(leader: nat, followers: set<nat>) {
    function Members(): set<nat> { {leader} + followers }
  }

  /** A flush under way, with the copy of the cache it writes. */
  datatype Flight = Flight(phase: Phase, snapshot: Content, waiting: Waiting)

  datatype Temp = Absent | Partial | Complete(content: Content)

  /** The storage file and its temporary neighbour. */
  datatype Disk = Disk(file: Option<Content>, temp: Temp)

  datatype Change = Set(key: string, value: string) | Clear(key: string)

  /** How the flush of a call ended. */
  datatype Settlement = Settlement(leader: bool, wrote: bool)

  datatype State = State(
    flavour: Flavour,
    disabled: bool,                  // initialization failed
    cache: Content,
    flushPending: bool,
    queue: seq<Waiting>,             // flushes chained on `_flushQueue` that have not begun
    running: Option<Flight>,
    disk: Disk,
    changes: seq<Change>,            // every change made, in order
    started: nat,                    // changes in the snapshot of the last flush begun
    durable: Option<nat>,            // changes in the file, once a flush has written it
    finished: nat,                   // changes in the snapshot of the last flush ended
    lastOk: bool,                    // whether that flush wrote the file
    settled: map<nat, Settlement>)   // calls that have been answered

  datatype Action =
    | Apply(change: Change)    // the segment of `set` or `clear` after initialization
    | Begin                    // the next chained flush starts
    | Advance(ok: bool)        // the next file operation of the running flush ends

  function ApplyChange(c: Content, change: Change): Content {
    match change
    case Set(k, v) => c[k := v]
    case Clear(k) => c - {k}
  }

  function Replay(base: Content, changes: seq<Change>): Content {
    if |changes| == 0 then base
    else ApplyChange(Replay(base, changes[..|changes| - 1]), changes[|changes| - 1])
  }

  /** `_scheduleFlush`, called by the call `w`. */
  function Scheduled(s: State, w: nat): State {
    if !s.flushPending then s.(flushPending := true, queue := s.queue + [Waiting(w, {})])
    else if |s.queue| > 0 then
      var last := s.queue[|s.queue| - 1];
      s.(queue := s.queue[..|s.queue| - 1] + [last.(followers := last.followers + {w})])
    else s
  }

  /** `clear` of a key that is not cached does nothing, and after a failed initialization the
      Electron storage throws before touching the cache. */
  predicate Ignored(s: State, change: Change) {
    (change.Clear? && change.key !in s.cache) || (s.disabled && s.flavour.Electron?)
  }

  function Changed(s: State, change: Change): State {
    if Ignored(s, change) then s
    else
      var s' := s.(cache := ApplyChange(s.cache, change), changes := s.changes + [change]);
      if s.disabled then s' else Scheduled(s', |s'.changes|)
  }

  /** The first operation of a flush: Electron writes the temporary file straight away. */
  function FirstPhase(flavour: Flavour): Phase {
    if flavour.Node? then Unlink else Write
  }

  predicate CanBegin(s: State) {
    |s.queue| > 0 && s.running.None?
  }

  function Begun(s: State): State {
    if !CanBegin(s) then s
    else s.(flushPending := false, queue := s.queue[1..], started := |s.changes|,
            running := Some(Flight(FirstPhase(s.flavour), s.cache, s.queue[0])))
  }

  function Answers(waiting: Waiting, ok: bool): map<nat, Settlement> {
    map w | w in waiting.Members() :: Settlement(w == waiting.leader, ok)
  }

  function Ended(s: State, f: Flight, disk: Disk, ok: bool): State {
    s.(running := None, disk := disk, finished := s.started, lastOk := ok,
       durable := if ok then Some(s.started) else s.durable, settled := s.settled + Answers(f.waiting, ok))
  }

  function To(s: State, f: Flight, phase: Phase, temp: Temp): State {
    s.(running := Some(f.(phase := phase)), disk := s.disk.(temp := temp))
  }

  /** Where the flush goes when its next operation succeeds or fails, and what becomes of the
      temporary file; opening exclusively cannot succeed on one that is still there. */
  function Next(flavour: Flavour, f: Flight, temp: Temp, ok: bool): (Phase, Temp) {
    match f.phase
    case Unlink => (Open, if ok then Absent else temp)
    case Open => if ok && temp.Absent? then (Write, Partial) else (Cleanup, temp)
    case Write => if ok then (if flavour.Node? then Close else Rename, Complete(f.snapshot)) else (Cleanup, Partial)
    case Close => (if ok then Rename else Cleanup, temp)
    case Rename => (Cleanup, temp)
    case Cleanup => (Cleanup, temp)
  }

  /** The rename goes through. */
  predicate Lands(s: State, f: Flight, ok: bool) {
    ok && f.phase.Rename? && s.disk.temp.Complete?
  }

  function Advanced(s: State, ok: bool): State {
    if s.running.None? then s
    else
      var f := s.running.value;
      if Lands(s, f, ok) then Ended(s, f, Disk(Some(s.disk.temp.content), Absent), true)
      else if f.phase.Cleanup? then Ended(s, f, if ok then s.disk.(temp := Absent) else s.disk, false)
      else
        var next := Next(s.flavour, f, s.disk.temp, ok);
        To(s, f, next.0, next.1)
  }

  function Step(s: State, a: Action): State {
    match a
    case Apply(c) => Changed(s, c)
    case Begin => Begun(s)
    case Advance(ok) => Advanced(s, ok)
  }

  function Run(s: State, actions: seq<Action>): State {
    if |actions| == 0 then s
    else Step(Run(s, actions[..|actions| - 1]), actions[|actions| - 1])
  }

  /** After initialization: the cache is what was read from the file, or empty. */
  predicate Initial(s: State) {
    && !s.flushPending && s.queue == [] && s.running.None?
    && s.durable.None? && s.changes == [] && s.started == 0 && s.finished == 0 && s.settled == map[]
  }

  // ----- What every run keeps -----

  /** The cache, the snapshot being written and the file are each the initial content with a
      prefix of the changes. */
  predicate Contents(s0: State, s: State) {
    && s.cache == Replay(s0.cache, s.changes)
    && (s.running.Some? ==>
          && s.started <= |s.changes|
          && s.running.value.snapshot == Replay(s0.cache, s.changes[..s.started]))
    && (match s.durable
        case None => s.disk.file == s0.disk.file
        case Some(n) => n <= |s.changes| && s.disk.file == Some(Replay(s0.cache, s.changes[..n])))
    && (s.running.Some? && s.running.value.phase in {Close, Rename} ==> s.disk.temp == Complete(s.running.value.snapshot))
  }

  /** At most one flush runs and one waits, and one waits whenever the last snapshot is behind
      the cache. */
  predicate Progress(s: State) {
    && s.finished <= s.started <= |s.changes|
    && |s.queue| == (if s.flushPending then 1 else 0)
    && (s.disabled ==> !s.flushPending && s.running.None?)
    && (s.running.None? ==> s.finished == s.started)
    && (!s.flushPending && !s.disabled ==> s.started == |s.changes|)
    && (s.lastOk && s.finished > 0 ==> s.durable == Some(s.finished))
    && (s.durable.Some? ==> s.durable.value <= s.finished)
  }

  predicate Awaiting(s: State, w: nat) {
    || (|s.queue| > 0 && w in s.queue[0].Members())
    || (s.running.Some? && w in s.running.value.waiting.Members())
  }

  predicate Within(waiting: Waiting, low: nat, high: nat) {
    forall w <- waiting.Members() :: low < w <= high
  }

  /** Every call awaits a flush whose snapshot will have its change, or is answered by one whose
      snapshot had it; never both. */
  predicate Calls(s: State) {
    && (|s.queue| > 0 ==> Within(s.queue[0], s.started, |s.changes|))
    && (s.running.Some? ==> Within(s.running.value.waiting, s.finished, s.started))
    && (forall w <- s.settled :: 1 <= w <= s.finished)
    && (forall w <- s.settled :: s.settled[w].wrote ==> s.durable.Some? && s.durable.value >= w)
    && (!s.disabled ==> forall w: nat :: 1 <= w <= |s.changes| ==> Awaiting(s, w) || w in s.settled)
  }

  predicate Invariant(s0: State, s: State) {
    Contents(s0, s) && Progress(s) && Calls(s) && s.flavour == s0.flavour && s.disabled == s0.disabled
  }

  lemma ReplayPrefix(base: Content, changes: seq<Change>, c: Change, n: nat)
    requires n <= |changes|
    ensures (changes + [c])[..n] == changes[..n]
    ensures Replay(base, changes + [c]) == ApplyChange(Replay(base, changes), c)
  {
    assert (changes + [c])[..|changes|] == changes;
  }

  lemma ScheduleOnlyQueues(s: State, w: nat)
    ensures Scheduled(s, w) == s.(flushPending := true, queue := Scheduled(s, w).queue)
  {
  }

  lemma ChangeKeepsContents(s0: State, s: State, c: Change)
    requires Contents(s0, s)
    ensures Contents(s0, Changed(s, c))
  {
    ReplayPrefix(s0.cache, s.changes, c, 0);
    ScheduleOnlyQueues(s.(cache := ApplyChange(s.cache, c), changes := s.changes + [c]), |s.changes| + 1);
    if s.running.Some? { ReplayPrefix(s0.cache, s.changes, c, s.started); }
    if s.durable.Some? { ReplayPrefix(s0.cache, s.changes, c, s.durable.value); }
  }

  lemma ChangeKeepsCalls(s: State, c: Change)
    requires Progress(s) && Calls(s)
    ensures Progress(Changed(s, c)) && Calls(Changed(s, c))
  {
    var s' := Changed(s, c);
    if !Ignored(s, c) && !s.disabled {
      var w' := |s'.changes|;
      assert s'.queue[0] == if s.flushPending then s.queue[0].(followers := s.queue[0].followers + {w'}) else Waiting(w', {});
      forall w <- s'.queue[0].Members() ensures s'.started < w <= w' {
        assert w == w' || w in s.queue[0].Members();
      }
      forall w: nat | 1 <= w <= |s'.changes| ensures Awaiting(s', w) || w in s'.settled {
        if w <= |s.changes| {
          assert Awaiting(s, w) || w in s.settled;
        }
      }
    }
  }

  lemma BeginKeeps(s0: State, s: State)
    requires Invariant(s0, s)
    ensures Invariant(s0, Begun(s))
  {
    assert s.changes[..|s.changes|] == s.changes;
    var s' := Begun(s);
    if CanBegin(s) {
      assert s'.queue == [];
      forall w: nat | !s.disabled && 1 <= w <= |s'.changes| ensures Awaiting(s', w) || w in s'.settled {
        assert Awaiting(s, w) || w in s.settled;
      }
    }
  }

  lemma EndKeepsCalls(s: State, f: Flight, disk: Disk, ok: bool)
    requires Progress(s) && Calls(s) && s.running == Some(f)
    ensures Progress(Ended(s, f, disk, ok)) && Calls(Ended(s, f, disk, ok))
  {
    var s' := Ended(s, f, disk, ok);
    forall w <- s'.settled ensures 1 <= w <= s'.finished {
      assert w in s.settled || w in f.waiting.Members();
    }
    forall w <- s'.settled ensures s'.settled[w].wrote ==> s'.durable.Some? && s'.durable.value >= w {
      assert w in s.settled || w in f.waiting.Members();
    }
    forall w: nat | !s.disabled && 1 <= w <= |s'.changes| ensures Awaiting(s', w) || w in s'.settled {
      assert Awaiting(s, w) || w in s.settled;
    }
  }

  lemma ToKeeps(s0: State, s: State, f: Flight, phase: Phase, temp: Temp)
    requires Invariant(s0, s) && s.running == Some(f)
    requires phase in {Close, Rename} ==> temp == Complete(f.snapshot)
    ensures Invariant(s0, To(s, f, phase, temp))
  {
    var s' := To(s, f, phase, temp);
    forall w: nat | !s.disabled && 1 <= w <= |s'.changes| ensures Awaiting(s', w) || w in s'.settled {
      assert Awaiting(s, w) || w in s.settled;
    }
  }

  lemma AdvanceKeeps(s0: State, s: State, ok: bool)
    requires Invariant(s0, s)
    ensures Invariant(s0, Advanced(s, ok))
  {
    if s.running.Some? {
      var f := s.running.value;
      if Lands(s, f, ok) {
        EndKeepsCalls(s, f, Disk(Some(s.disk.temp.content), Absent), true);
      } else if f.phase.Cleanup? {
        EndKeepsCalls(s, f, if ok then s.disk.(temp := Absent) else s.disk, false);
      } else {
        var next := Next(s.flavour, f, s.disk.temp, ok);
        ToKeeps(s0, s, f, next.0, next.1);
      }
    }
  }

  lemma StepKeepsInvariant(s0: State, s: State, a: Action)
    requires Invariant(s0, s)
    ensures Invariant(s0, Step(s, a))
  {
    match a
    case Apply(c) => ChangeKeepsContents(s0, s, c); ChangeKeepsCalls(s, c);
    case Begin => BeginKeeps(s0, s);
    case Advance(ok) => AdvanceKeeps(s0, s, ok);
  }

  lemma {:induction false} RunKeepsInvariant(s0: State, actions: seq<Action>)
    requires Initial(s0)
    ensures Invariant(s0, Run(s0, actions))
  {
    if |actions| > 0 {
      RunKeepsInvariant(s0, actions[..|actions| - 1]);
      StepKeepsInvariant(s0, Run(s0, actions[..|actions| - 1]), actions[|actions| - 1]);
    }
  }

  // ----- What a caller may rely on -----

  /** A crash anywhere leaves the file as it was at the start or holding one complete snapshot,
      the initial content with the first `n` changes. */
  lemma FileIsOneSnapshot(s0: State, actions: seq<Action>)
    requires Initial(s0)
    ensures var s := Run(s0, actions);
      || s.disk.file == s0.disk.file
      || exists n: nat :: n <= |s.changes| && s.disk.file == Some(Replay(s0.cache, s.changes[..n]))
  {
    RunKeepsInvariant(s0, actions);
  }

  /** A file operation leaves the file alone or replaces it, whole, by the snapshot of the
      running flush; nothing else touches it. */
  lemma FileChangesWhole(s0: State, actions: seq<Action>, a: Action)
    requires Initial(s0)
    ensures var s, s' := Run(s0, actions), Run(s0, actions + [a]);
      || (s'.disk.file == s.disk.file && s'.durable == s.durable)
      || (a.Advance? && a.ok && s.running.Some? && s.running.value.phase.Rename?
          && s'.disk.file == Some(s.running.value.snapshot) && s'.durable == Some(s.started))
  {
    var s := Run(s0, actions);
    RunKeepsInvariant(s0, actions);
    assert (actions + [a])[..|actions|] == actions;
    assert Run(s0, actions + [a]) == Step(s, a);
    match a
    case Apply(c) => ChangeLeavesDisk(s, c);
    case Begin =>
    case Advance(ok) => OnlyRenameWrites(s, ok);
  }

  lemma ChangeLeavesDisk(s: State, c: Change)
    ensures var s' := Changed(s, c);
      s'.disk == s.disk && s'.settled == s.settled && s'.finished == s.finished && s.changes <= s'.changes
  {
  }

  lemma OnlyRenameWrites(s: State, ok: bool)
    requires s.running.Some? && s.running.value.phase.Rename? ==> s.disk.temp == Complete(s.running.value.snapshot)
    ensures var s' := Advanced(s, ok);
      if ok && s.running.Some? && s.running.value.phase.Rename? then
        s'.disk.file == Some(s.running.value.snapshot) && s'.durable == Some(s.started)
      else s'.disk.file == s.disk.file && s'.durable == s.durable
  {
  }

  /** What an operation of the running flush does to the answers. */
  lemma OnlyEndAnswers(s: State, ok: bool)
    ensures var s' := Advanced(s, ok);
      && s'.changes == s.changes && s'.queue == s.queue
      && (s'.finished == s.finished || s'.finished == s.started)
      && forall w <- s.settled :: (s.running.Some? ==> w !in s.running.value.waiting.Members()) ==>
           w in s'.settled && s'.settled[w] == s.settled[w]
  {
    if s.running.Some? {
      var f := s.running.value;
      if Lands(s, f, ok) {
        EndKeepsAnswers(s, f, Disk(Some(s.disk.temp.content), Absent), true);
      } else if f.phase.Cleanup? {
        EndKeepsAnswers(s, f, if ok then s.disk.(temp := Absent) else s.disk, false);
      }
    }
  }

  lemma EndKeepsAnswers(s: State, f: Flight, disk: Disk, ok: bool)
    ensures var s' := Ended(s, f, disk, ok);
      forall w <- s.settled :: w !in f.waiting.Members() ==> w in s'.settled && s'.settled[w] == s.settled[w]
  {
  }

  function Durable(s: State): nat {
    if s.durable.None? then 0 else s.durable.value
  }

  /** Snapshots reach the file in order, answers are never taken back, and changes are only
      added. */
  lemma {:induction false} RunsOnlyAdd(s0: State, actions: seq<Action>, more: seq<Action>)
    requires Initial(s0)
    ensures var s, s' := Run(s0, actions), Run(s0, actions + more);
      && Durable(s) <= Durable(s') && s.finished <= s'.finished && s.changes <= s'.changes
      && forall w <- s.settled :: w in s'.settled && s'.settled[w] == s.settled[w]
  {
    if more == [] {
      assert actions + more == actions;
    } else {
      var before := actions + more[..|more| - 1];
      RunsOnlyAdd(s0, actions, more[..|more| - 1]);
      RunKeepsInvariant(s0, before);
      assert (actions + more)[..|actions + more| - 1] == before;
      StepOnlyAdds(s0, Run(s0, before), more[|more| - 1]);
    }
  }

  lemma StepOnlyAdds(s0: State, s: State, a: Action)
    requires Invariant(s0, s)
    ensures var s' := Step(s, a);
      && Durable(s) <= Durable(s') && s.finished <= s'.finished && s.changes <= s'.changes
      && forall w <- s.settled :: w in s'.settled && s'.settled[w] == s.settled[w]
  {
    match a
    case Apply(c) => ChangeLeavesDisk(s, c);
    case Begin =>
    case Advance(ok) => OnlyRenameWrites(s, ok); OnlyEndAnswers(s, ok);
  }

  /** Whether the promise the caller holds resolves: the Node storage logs a failure instead of
      throwing it, and `_flushQueue` swallows it. */
  predicate Resolves(flavour: Flavour, answer: Settlement) {
    flavour.Node? || !answer.leader || answer.wrote
  }

  /** A call is answered only once a flush whose snapshot has its change has ended, and if that
      flush wrote the file, the change stays in it through the rest of the run. */
  lemma AnsweredAfterFlush(s0: State, actions: seq<Action>, more: seq<Action>, w: nat)
    requires Initial(s0)
    requires w in Run(s0, actions).settled
    ensures var s, s' := Run(s0, actions), Run(s0, actions + more);
      && 1 <= w <= s.finished
      && (s.settled[w].wrote ==>
            && w <= Durable(s') <= |s'.changes|
            && s'.disk.file == Some(Replay(s0.cache, s'.changes[..Durable(s')])))
  {
    RunKeepsInvariant(s0, actions);
    RunKeepsInvariant(s0, actions + more);
    RunsOnlyAdd(s0, actions, more);
  }

  /** So in Electron the call that scheduled a flush resolves only when its change is in the
      file. */
  lemma LeaderResolvesOnceWritten(s0: State, actions: seq<Action>, w: nat)
    requires Initial(s0) && s0.flavour.Electron?
    requires w in Run(s0, actions).settled
    requires Run(s0, actions).settled[w].leader && Resolves(s0.flavour, Run(s0, actions).settled[w])
    ensures var s := Run(s0, actions);
      w <= Durable(s) <= |s.changes| && s.disk.file == Some(Replay(s0.cache, s.changes[..Durable(s)]))
  {
    AnsweredAfterFlush(s0, actions, [], w);
    assert actions + [] == actions;
  }

  /** A call that joined a waiting flush holds the promise that swallows the error: two `set`s
      share a flush whose write fails, the first rejects and the second resolves, and neither
      is in the file. */
  lemma FollowerResolvesUnwritten(s0: State)
    requires Initial(s0) && s0.flavour.Electron? && !s0.disabled
    ensures var s := Run(s0, [Apply(Set("a", "1")), Apply(Set("b", "2")), Begin, Advance(false), Advance(true)]);
      && s.disk.file == s0.disk.file
      && s.settled.Keys == {1, 2} && !Resolves(s.flavour, s.settled[1]) && Resolves(s.flavour, s.settled[2])
  {
    var a, b := Apply(Set("a", "1")), Apply(Set("b", "2"));
    FiveSteps(s0, a, b, Begin, Advance(false), Advance(true));
    TwoSets(s0, a.change, b.change);
    SharedFlushFails(Changed(Changed(s0, a.change), b.change));
  }

  lemma SharedFlushFails(s: State)
    requires s.queue == [Waiting(1, {2})] && s.running.None? && s.settled == map[] && s.flavour.Electron?
    ensures var s' := Advanced(Advanced(Begun(s), false), true);
      && s'.disk.file == s.disk.file && s'.flavour == s.flavour
      && s'.settled == map[1 := Settlement(true, false), 2 := Settlement(false, false)]
  {
    FailedWrite(Begun(s));
    assert Waiting(1, {2}).Members() == {1, 2};
  }

  lemma TwoSets(s0: State, a: Change, b: Change)
    requires Initial(s0) && !s0.disabled && a.Set? && b.Set?
    ensures var s2 := Changed(Changed(s0, a), b);
      s2.queue == [Waiting(1, {2})] && s2.disk == s0.disk && s2.settled == map[] && s2.running.None? && s2.flavour == s0.flavour
  {
    var s1 := Changed(s0, a);
    assert s1.queue == [Waiting(1, {})] && s1.changes == [a];
    var none: set<nat> := {};
    assert none + {2} == {2};
    assert Changed(s1, b).queue == [] + [Waiting(1, none + {2})];
  }

  lemma FailedWrite(s: State)
    requires s.running.Some? && s.running.value.phase.Write?
    ensures var s' := Advanced(Advanced(s, false), true);
      s'.disk.file == s.disk.file && s'.settled == s.settled + Answers(s.running.value.waiting, false) && s'.flavour == s.flavour
  {
  }

  lemma FiveSteps(s: State, a: Action, b: Action, c: Action, d: Action, e: Action)
    ensures Run(s, [a, b, c, d, e]) == Step(Step(Step(Step(Step(s, a), b), c), d), e)
  {
    RunStep(s, [], a);
    RunStep(s, [a], b);
    RunStep(s, [a, b], c);
    RunStep(s, [a, b, c], d);
    RunStep(s, [a, b, c, d], e);
    assert [a] + [b] == [a, b] && [a, b] + [c] == [a, b, c];
    assert [a, b, c] + [d] == [a, b, c, d] && [a, b, c, d] + [e] == [a, b, c, d, e];
  }

  lemma RunStep(s0: State, actions: seq<Action>, a: Action)
    ensures Run(s0, actions + [a]) == Step(Run(s0, actions), a)
  {
    assert (actions + [a])[..|actions|] == actions;
  }

  /** When nothing waits and nothing runs, every call has been answered, and the file holds the
      cache if the last flush wrote it. */
  lemma QuietFileIsCache(s0: State, actions: seq<Action>)
    requires Initial(s0) && !s0.disabled
    requires !Run(s0, actions).flushPending && Run(s0, actions).running.None?
    ensures var s := Run(s0, actions);
      && (forall w: nat :: 1 <= w <= |s.changes| ==> w in s.settled)
      && (s.changes != [] && s.lastOk ==> s.disk.file == Some(s.cache))
  {
    RunKeepsInvariant(s0, actions);
    var s := Run(s0, actions);
    assert s.changes[..|s.changes|] == s.changes;
    forall w: nat | 1 <= w <= |s.changes| ensures w in s.settled {
      assert Awaiting(s, w) || w in s.settled;
    }
  }

  // ----- Flushes end -----

  /** File operations left before nothing waits and nothing runs, at most. */
  function Remaining(s: State): nat {
    7 * |s.queue| + if s.running.None? then 0 else match s.running.value.phase
      case Unlink => 6 case Open => 5 case Write => 4 case Close => 3 case Rename => 2 case Cleanup => 1
  }

  /** The flushes go on without further changes; `oks` says how the operations end. */
  function Drain(s: State, oks: seq<bool>): State
    decreases |oks|
  {
    if oks == [] then s else Drain(if CanBegin(s) then Begun(s) else Advanced(s, oks[0]), oks[1..])
  }

  /** Whatever succeeds and whatever fails, every call is answered after at most thirteen
      steps of the flushes. */
  lemma {:induction false} EveryCallIsAnswered(s0: State, s: State, oks: seq<bool>)
    requires Invariant(s0, s) && Remaining(s) <= |oks|
    ensures Remaining(s) <= 13
    ensures var s' := Drain(s, oks);
      && s'.changes == s.changes && s'.queue == [] && s'.running.None?
      && (!s.disabled ==> forall w: nat :: 1 <= w <= |s.changes| ==> w in s'.settled)
    decreases |oks|
  {
    if oks == [] {
      forall w: nat | !s.disabled && 1 <= w <= |s.changes| ensures w in s.settled {
        assert Awaiting(s, w) || w in s.settled;
      }
    } else {
      var next := if CanBegin(s) then Begun(s) else Advanced(s, oks[0]);
      if CanBegin(s) { BeginKeeps(s0, s); } else { AdvanceKeeps(s0, s, oks[0]); OnlyEndAnswers(s, oks[0]); }
      AdvanceCostsOne(s, oks[0]);
      EveryCallIsAnswered(s0, next, oks[1..]);
    }
  }

  lemma AdvanceCostsOne(s: State, ok: bool)
    ensures s.running.Some? ==> Remaining(Advanced(s, ok)) < Remaining(s) && Advanced(s, ok).queue == s.queue
    ensures CanBegin(s) ==> Remaining(Begun(s)) < Remaining(s)
  {
  }

  /** Nothing has gone wrong so far in the running flush. */
  predicate OnCourse(s: State) {
    && s.queue == [] && s.running.Some?
    && var f := s.running.value;
      && !f.phase.Cleanup?
      && (f.phase.Open? ==> s.disk.temp.Absent?)
      && (f.phase in {Close, Rename} ==> s.disk.temp == Complete(f.snapshot))
  }

  lemma {:induction false} FlightLands(s: State, oks: seq<bool>)
    requires OnCourse(s) && Remaining(s) <= |oks| && forall i :: 0 <= i < |oks| ==> oks[i]
    ensures Drain(s, oks).disk == Disk(Some(s.running.value.snapshot), Absent)
    ensures Drain(s, oks).settled == s.settled + Answers(s.running.value.waiting, true)
    decreases |oks|
  {
    var next := Advanced(s, true);
    AdvanceCostsOne(s, true);
    if next.running.None? {
      DrainedStays(next, oks[1..]);
    } else {
      FlightLands(next, oks[1..]);
    }
  }

  lemma {:induction false} DrainedStays(s: State, oks: seq<bool>)
    requires s.queue == [] && s.running.None?
    ensures Drain(s, oks) == s
  {
    if oks != [] { DrainedStays(s, oks[1..]); }
  }

  /** A flush whose operations all succeed leaves the cache in the file and no temporary one, and
      everybody who waits is told. */
  lemma FlushWritesCache(s: State, oks: seq<bool>)
    requires |s.queue| == 1 && s.running.None?
    requires Remaining(s) <= |oks| && forall i :: 0 <= i < |oks| ==> oks[i]
    ensures var s' := Drain(s, oks);
      && s'.disk == Disk(Some(s.cache), Absent)
      && forall w <- s.queue[0].Members() :: w in s'.settled && s'.settled[w].wrote && (s'.settled[w].leader <==> w == s.queue[0].leader)
  {
    FlightLands(Begun(s), oks[1..]);
  }

  // ----- What `get` answers -----

  function Lookup(c: Content, key: string): Option<string> {
    if key in c then Some(c[key]) else None
  }

  /** The last change made to a key. */
  function LastChange(changes: seq<Change>, key: string): Option<Change> {
    if |changes| == 0 then None
    else if changes[|changes| - 1].key == key then Some(changes[|changes| - 1])
    else LastChange(changes[..|changes| - 1], key)
  }

  lemma {:induction false} ReplayReads(base: Content, changes: seq<Change>, key: string)
    ensures Lookup(Replay(base, changes), key) ==
      match LastChange(changes, key)
      case None => Lookup(base, key)
      case Some(Set(_, value)) => Some(value)
      case Some(Clear(_)) => None
  {
    if |changes| > 0 {
      ReplayReads(base, changes[..|changes| - 1], key);
    }
  }

  /** At any moment, whatever the flushes have done, a key reads as the last `set` or `clear` of
      it left it. */
  lemma GetReadsLastChange(s0: State, actions: seq<Action>, key: string)
    requires Initial(s0)
    ensures var s := Run(s0, actions);
      Lookup(s.cache, key) ==
      match LastChange(s.changes, key)
      case None => Lookup(s0.cache, key)
      case Some(Set(_, value)) => Some(value)
      case Some(Clear(_)) => None
  {
    RunKeepsInvariant(s0, actions);
    ReplayReads(s0.cache, Run(s0, actions).changes, key);
  }

  /** The last `set` or `clear` of a key that was called, whatever came of it. */
  function LastCall(actions: seq<Action>, key: string): Option<Change> {
    if |actions| == 0 then None
    else
      var a := actions[|actions| - 1];
      if a.Apply? && a.change.key == key then Some(a.change) else LastCall(actions[..|actions| - 1], key)
  }

  lemma AdvanceKeepsCache(s: State, ok: bool)
    ensures Advanced(s, ok).flavour == s.flavour && Advanced(s, ok).disabled == s.disabled && Advanced(s, ok).cache == s.cache
  {
  }

  lemma ChangeSetsCache(s: State, c: Change)
    ensures Changed(s, c).flavour == s.flavour && Changed(s, c).disabled == s.disabled
    ensures Changed(s, c).cache == if s.disabled && s.flavour.Electron? then s.cache else ApplyChange(s.cache, c)
  {
    if c.Clear? && c.key !in s.cache { assert s.cache - {c.key} == s.cache; }
  }

  lemma StepReads(s: State, a: Action, key: string)
    ensures Step(s, a).flavour == s.flavour && Step(s, a).disabled == s.disabled
    ensures s.disabled && s.flavour.Electron? ==> Step(s, a).cache == s.cache
    ensures !(s.disabled && s.flavour.Electron?) ==>
              Lookup(Step(s, a).cache, key) ==
              if a.Apply? && a.change.key == key then (if a.change.Set? then Some(a.change.value) else None) else Lookup(s.cache, key)
  {
    match a
    case Apply(c) => ChangeSetsCache(s, c);
    case Begin =>
    case Advance(ok) => AdvanceKeepsCache(s, ok);
  }

  /** So by the calls themselves: a key reads as the last call on it left it, except in a disabled
      Electron storage, which throws and whose cache stays as it began. */
  lemma {:induction false} GetReadsLastCall(s0: State, actions: seq<Action>, key: string)
    ensures var s := Run(s0, actions);
      && s.flavour == s0.flavour && s.disabled == s0.disabled
      && Lookup(s.cache, key) ==
         if s0.disabled && s0.flavour.Electron? then Lookup(s0.cache, key) else
           match LastCall(actions, key)
           case None => Lookup(s0.cache, key)
           case Some(Set(_, value)) => Some(value)
           case Some(Clear(_)) => None
  {
    if |actions| > 0 {
      GetReadsLastCall(s0, actions[..|actions| - 1], key);
      StepReads(Run(s0, actions[..|actions| - 1]), actions[|actions| - 1], key);
    }
  }

  /** Exactly the `set`s and the `clear`s of cached keys are changes that somebody waits for. */
  lemma CallsAreChanges(s0: State, actions: seq<Action>, change: Change)
    requires Initial(s0)
    ensures var s, s' := Run(s0, actions), Step(Run(s0, actions), Apply(change));
      var made := !(s.disabled && s.flavour.Electron?) && (change.Set? || change.key in s.cache);
      && s'.changes == (if made then s.changes + [change] else s.changes)
      && (made && !s.disabled ==> Awaiting(s', |s'.changes|))
      && (!made ==> s' == s)
  {
    RunKeepsInvariant(s0, actions);
    var s := Run(s0, actions);
    if !s.disabled && (change.Set? || change.key in s.cache) {
      NewCallAwaits(s, change);
    }
  }

  lemma NewCallAwaits(s: State, change: Change)
    requires Progress(s) && !s.disabled && !Ignored(s, change)
    ensures Awaiting(Changed(s, change), |s.changes| + 1)
  {
    var s', w := Changed(s, change), |s.changes| + 1;
    assert s'.queue[0] == if s.flushPending then s.queue[0].(followers := s.queue[0].followers + {w}) else Waiting(w, {});
  }

  /** A storage whose initialization failed never touches the disk. */
  lemma {:induction false} DisabledLeavesDisk(s0: State, actions: seq<Action>)
    requires Initial(s0) && s0.disabled
    ensures Run(s0, actions).disk == s0.disk
  {
    if |actions| > 0 {
      DisabledLeavesDisk(s0, actions[..|actions| - 1]);
      RunKeepsInvariant(s0, actions[..|actions| - 1]);
    }
  }

  /** Removing an old temporary file may fail; after any other failure the flush removes its own,
      ends without writing, and everybody who waits is told so. */
  lemma FailureEndsFlush(s: State, ok: bool)
    requires s.running.Some? && s.running.value.phase !in {Unlink, Cleanup}
    ensures var s' := Advanced(Advanced(s, false), ok);
      && s'.running.None? && s'.disk.file == s.disk.file && s'.cache == s.cache
      && (ok ==> s'.disk.temp == Absent)
      && forall w <- s.running.value.waiting.Members() ::
           w in s'.settled && !s'.settled[w].wrote && (s'.settled[w].leader <==> w == s.running.value.waiting.leader)
  {
    FailureCleansUp(s);
    CleanupEnds(Advanced(s, false), ok);
  }

  lemma FailureCleansUp(s: State)
    requires s.running.Some? && s.running.value.phase !in {Unlink, Cleanup}
    ensures var s' := Advanced(s, false);
      && s'.running == Some(s.running.value.(phase := Cleanup)) && s'.disk.file == s.disk.file && s'.cache == s.cache
      && s'.settled == s.settled
  {
  }

  lemma CleanupEnds(s: State, ok: bool)
    requires s.running.Some? && s.running.value.phase == Cleanup
    ensures var s' := Advanced(s, ok);
      && s'.running.None? && s'.disk.file == s.disk.file && s'.cache == s.cache && (ok ==> s'.disk.temp == Absent)
      && s'.settled == s.settled + Answers(s.running.value.waiting, false)
  {
  }

  /** The file operations of a flush that goes well: the Node storage removes an old temporary file
      and creates its own, the Electron storage writes over it. */
  lemma FlushOperations(s: State)
    requires CanBegin(s)
    ensures s.flavour.Node? ==> Operations(Begun(s), 5) == [Unlink, Open, Write, Close, Rename] && Went(Begun(s), 5).running.None?
    ensures s.flavour.Electron? ==> Operations(Begun(s), 2) == [Write, Rename] && Went(Begun(s), 2).running.None?
  {
    if s.flavour.Node? { FiveOperations(Begun(s)); } else { TwoOperations(Begun(s)); }
  }

  /** After `n` more operations that go well. */
  function Went(s: State, n: nat): State {
    if n == 0 then s else Advanced(Went(s, n - 1), true)
  }

  function Operations(s: State, n: nat): seq<Phase> {
    if n == 0 then []
    else Operations(s, n - 1) + if Went(s, n - 1).running.None? then [] else [Went(s, n - 1).running.value.phase]
  }

  lemma FiveOperations(s: State)
    requires s.flavour.Node? && s.running.Some? && s.running.value.phase == Unlink
    ensures Operations(s, 5) == [Unlink, Open, Write, Close, Rename] && Went(s, 5).running.None?
  {
    var f := s.running.value;
    assert Went(s, 0) == s && Operations(s, 0) == [];
    var s1 := To(s, f, Open, Absent);
    assert Went(s, 1) == s1 && Operations(s, 1) == [Unlink];
    var s2 := To(s1, s1.running.value, Write, Partial);
    assert Went(s, 2) == s2 && Operations(s, 2) == [Unlink, Open];
    var s3 := To(s2, s2.running.value, Close, Complete(f.snapshot));
    assert Went(s, 3) == s3 && Operations(s, 3) == [Unlink, Open, Write];
    var s4 := To(s3, s3.running.value, Rename, Complete(f.snapshot));
    assert Went(s, 4) == s4 && Operations(s, 4) == [Unlink, Open, Write, Close];
    assert Went(s, 5) == Advanced(s4, true);
  }

  lemma TwoOperations(s: State)
    requires s.flavour.Electron? && s.running.Some? && s.running.value.phase == Write
    ensures Operations(s, 2) == [Write, Rename] && Went(s, 2).running.None?
  {
    var f := s.running.value;
    assert Went(s, 0) == s && Operations(s, 0) == [];
    var s1 := To(s, f, Rename, Complete(f.snapshot));
    assert Went(s, 1) == s1 && Operations(s, 1) == [Write];
    assert Went(s, 2) == Advanced(s1, true);
  }

  /** When there is no old temporary file, removing it fails, which does no harm. */
  lemma NoOldTempNeeded(s: State)
    requires CanBegin(s) && s.flavour.Node? && s.disk.temp == Absent
    ensures var s' := Went(Advanced(Begun(s), false), 4);
      s'.running.None? && s'.disk == Disk(Some(s.cache), Absent)
  {
    var s0 := Advanced(Begun(s), false);
    var f := s0.running.value;
    assert f.phase == Open && f.snapshot == s.cache && s0.disk.temp == Absent;
    assert Went(s0, 0) == s0;
    var s1 := To(s0, f, Write, Partial);
    assert Went(s0, 1) == s1;
    var s2 := To(s1, s1.running.value, Close, Complete(f.snapshot));
    assert Went(s0, 2) == s2;
    var s3 := To(s2, s2.running.value, Rename, Complete(f.snapshot));
    assert Went(s0, 3) == s3;
    assert Went(s0, 4) == Advanced(s3, true);
  }

  /** A temporary file that could not be removed is never written to: opening it fails, and the
      flush ends. */
  lemma OpensExclusively(s: State, ok: bool)
    requires s.running.Some? && s.running.value.phase == Open && (!ok || s.disk.temp != Absent)
    ensures var s' := Advanced(s, ok); s'.disk == s.disk && s'.running == Some(s.running.value.(phase := Cleanup))
  {
  }

  /** A flush whose last operation succeeds leaves no temporary file. */
  lemma NoTempIsLeft(s: State)
    requires s.running.Some? && Advanced(s, true).running.None?
    ensures Advanced(s, true).disk.temp == Absent
  {
  }

  // ----- Which calls may resolve unwritten -----

  /** The call waits in this group, as the one that scheduled the flush or as one that joined. */
  predicate In(waiting: Waiting, w: nat, leads: bool) {
    w in waiting.Members() && (w == waiting.leader <==> leads)
  }

  /** The part a call has in its flush, until it is answered and after. */
  predicate HasRole(s: State, w: nat, leads: bool) {
    || (|s.queue| > 0 && In(s.queue[0], w, leads))
    || (s.running.Some? && In(s.running.value.waiting, w, leads))
    || (w in s.settled && s.settled[w].leader == leads)
  }

  /** The call that finds no flush pending schedules one, the others join. */
  lemma RoleAtCall(s0: State, s: State, change: Change)
    requires Invariant(s0, s) && !s.disabled && !Ignored(s, change)
    ensures HasRole(Changed(s, change), |s.changes| + 1, !s.flushPending)
  {
    var s', w := Changed(s, change), |s.changes| + 1;
    if s.flushPending {
      assert s.queue[0].leader in s.queue[0].Members();
      assert s'.queue == [s.queue[0].(followers := s.queue[0].followers + {w})];
    } else {
      assert s'.queue == [Waiting(w, {})];
    }
  }

  /** A call never changes its part. */
  lemma StepKeepsRole(s0: State, s: State, a: Action, w: nat, leads: bool)
    requires Invariant(s0, s) && HasRole(s, w, leads) && w <= |s.changes|
    ensures HasRole(Step(s, a), w, leads) && w <= |Step(s, a).changes|
  {
    match a
    case Apply(c) => ChangeKeepsRole(s, c, w, leads);
    case Begin =>
    case Advance(ok) => AdvanceKeepsRole(s, ok, w, leads);
  }

  lemma ChangeKeepsRole(s: State, c: Change, w: nat, leads: bool)
    requires Progress(s) && HasRole(s, w, leads) && w <= |s.changes|
    ensures HasRole(Changed(s, c), w, leads) && w <= |Changed(s, c).changes|
  {
    var s' := Changed(s, c);
    if |s.queue| > 0 && !Ignored(s, c) && !s.disabled {
      assert s'.queue[0] == s.queue[0].(followers := s.queue[0].followers + {|s.changes| + 1});
    }
  }

  lemma AdvanceKeepsRole(s: State, ok: bool, w: nat, leads: bool)
    requires Progress(s) && Calls(s) && HasRole(s, w, leads)
    ensures HasRole(Advanced(s, ok), w, leads)
  {
    if s.running.Some? {
      var f := s.running.value;
      if Lands(s, f, ok) {
        EndKeepsRole(s, f, Disk(Some(s.disk.temp.content), Absent), true, w, leads);
      } else if f.phase.Cleanup? {
        EndKeepsRole(s, f, if ok then s.disk.(temp := Absent) else s.disk, false, w, leads);
      }
    }
  }

  lemma EndKeepsRole(s: State, f: Flight, disk: Disk, ok: bool, w: nat, leads: bool)
    requires Calls(s) && s.running == Some(f) && HasRole(s, w, leads)
    ensures HasRole(Ended(s, f, disk, ok), w, leads)
  {
    EndKeepsAnswers(s, f, disk, ok);
  }

  lemma {:induction false} RunKeepsRole(s0: State, s: State, more: seq<Action>, w: nat, leads: bool)
    requires Invariant(s0, s) && HasRole(s, w, leads) && w <= |s.changes|
    ensures Invariant(s0, Run(s, more)) && HasRole(Run(s, more), w, leads) && w <= |Run(s, more).changes|
  {
    if |more| > 0 {
      var before := more[..|more| - 1];
      RunKeepsRole(s0, s, before, w, leads);
      StepKeepsInvariant(s0, Run(s, before), more[|more| - 1]);
      StepKeepsRole(s0, Run(s, before), more[|more| - 1], w, leads);
    }
  }

  /** The call has been answered, its promise resolves, and its change is not in the file. */
  predicate ResolvedUnwritten(s: State, w: nat) {
    w in s.settled && Resolves(s.flavour, s.settled[w]) && Durable(s) < w
  }

  /** A call in Electron that scheduled its flush never resolves unwritten. */
  lemma LeaderNeverResolvesUnwritten(s0: State, s: State, more: seq<Action>, w: nat)
    requires Invariant(s0, s) && s.flavour.Electron? && HasRole(s, w, true) && w <= |s.changes|
    ensures !ResolvedUnwritten(Run(s, more), w)
  {
    RunKeepsRole(s0, s, more, w, true);
    var s' := Run(s, more);
    if w in s'.settled {
      assert 1 <= w <= s'.finished;
      assert s'.queue != [] ==> Within(s'.queue[0], s'.started, |s'.changes|);
    }
  }

  /** The actions of a drain. */
  function DrainActions(s: State, oks: seq<bool>): seq<Action>
    decreases |oks|
  {
    if oks == [] then []
    else if CanBegin(s) then [Begin] + DrainActions(Begun(s), oks[1..])
    else [Advance(oks[0])] + DrainActions(Advanced(s, oks[0]), oks[1..])
  }

  lemma {:induction false} RunFirst(s: State, a: Action, more: seq<Action>)
    ensures Run(s, [a] + more) == Run(Step(s, a), more)
  {
    if |more| == 0 {
      assert [a] + more == [a] && [a][..0] == [];
    } else {
      RunFirst(s, a, more[..|more| - 1]);
      assert ([a] + more)[..|more|] == [a] + more[..|more| - 1];
    }
  }

  lemma {:induction false} DrainIsRun(s: State, oks: seq<bool>)
    ensures Run(s, DrainActions(s, oks)) == Drain(s, oks)
    decreases |oks|
  {
    if oks != [] {
      if CanBegin(s) {
        DrainIsRun(Begun(s), oks[1..]);
        RunFirst(s, Begin, DrainActions(Begun(s), oks[1..]));
      } else {
        DrainIsRun(Advanced(s, oks[0]), oks[1..]);
        RunFirst(s, Advance(oks[0]), DrainActions(Advanced(s, oks[0]), oks[1..]));
      }
    }
  }

  lemma FailureWritesNothing(s: State)
    ensures Durable(Advanced(s, false)) == Durable(s) && Advanced(s, false).flavour == s.flavour
  {
  }

  /** When every operation fails, nothing more reaches the file. */
  lemma {:induction false} FailingDrainWritesNothing(s: State, oks: seq<bool>)
    requires forall i :: 0 <= i < |oks| ==> !oks[i]
    ensures Durable(Drain(s, oks)) == Durable(s) && Drain(s, oks).flavour == s.flavour
    decreases |oks|
  {
    if oks != [] {
      FailureWritesNothing(s);
      FailingDrainWritesNothing(if CanBegin(s) then Begun(s) else Advanced(s, oks[0]), oks[1..]);
    }
  }

  /** A call may resolve unwritten exactly when it finds a flush pending; in the Node storage,
      which only logs a failure, any call may. */
  lemma ResolvesUnwrittenIff(s0: State, s: State, change: Change)
    requires Invariant(s0, s) && !s.disabled && (change.Set? || change.key in s.cache)
    ensures (exists more :: ResolvedUnwritten(Run(Changed(s, change), more), |s.changes| + 1)) <==> s.flushPending || s.flavour.Node?
  {
    var s', w := Changed(s, change), |s.changes| + 1;
    RoleAtCall(s0, s, change);
    StepKeepsInvariant(s0, s, Apply(change));
    if s.flushPending || s.flavour.Node? {
      var oks := seq(Remaining(s'), _ => false);
      EveryCallIsAnswered(s0, s', oks);
      FailingDrainWritesNothing(s', oks);
      DrainIsRun(s', oks);
      RunKeepsRole(s0, s', DrainActions(s', oks), w, !s.flushPending);
      ChangeLeavesDurable(s, change);
      AnswerHasRole(s0, Drain(s', oks), w, !s.flushPending);
      assert ResolvedUnwritten(Run(s', DrainActions(s', oks)), w);
    } else {
      forall more ensures !ResolvedUnwritten(Run(s', more), w) {
        LeaderNeverResolvesUnwritten(s0, s', more, w);
      }
    }
  }

  lemma ChangeLeavesDurable(s: State, change: Change)
    ensures Durable(Changed(s, change)) == Durable(s) && Changed(s, change).flavour == s.flavour
  {
  }

  lemma AnswerHasRole(s0: State, s: State, w: nat, leads: bool)
    requires Invariant(s0, s) && HasRole(s, w, leads) && s.queue == [] && s.running.None?
    ensures w in s.settled && s.settled[w].leader == leads
  {
  }

  // ----- The classes -----

  /** NodeStorage and ElectronStorage. The file, the running flush and the history are what the
      runtime and the file system hold for the object. */
  class FlagCache {
    const flavour: Flavour
    const disabled: bool
    var cache: Content
    var flushPending: bool
    var flushQueue: seq<Waiting>
    var running: Option<Flight>
    var disk: Disk
    ghost var changes: seq<Change>
    ghost var started: nat
    ghost var durable: Option<nat>
    ghost var finished: nat
    ghost var lastOk: bool
    ghost var settled: map<nat, Settlement>

    ghost function View(): State
      reads this
    {
      State(flavour, disabled, cache, flushPending, flushQueue, running, disk, changes, started, durable, finished, lastOk, settled)
    }

    /** `loaded` is what initialization read from the file. */
    constructor (flavour: Flavour, disabled: bool, loaded: Content, disk: Disk)
      ensures Initial(View())
      ensures this.flavour == flavour && this.disabled == disabled && cache == loaded && this.disk == disk
    {
      this.flavour, this.disabled, cache, this.disk := flavour, disabled, loaded, disk;
      flushPending, flushQueue, running := false, [], None;
      changes, started, durable, finished, settled := [], 0, None, 0, map[];
    }

    /** After a failed initialization the Electron storage throws. */
    method Get(key: string) returns (value: Option<string>, threw: bool)
      ensures threw <==> disabled && flavour == Electron
      ensures !threw ==> value == Lookup(View().cache, key)
    {
      if disabled && flavour.Electron? { return None, true; }
      if key in cache { return Some(cache[key]), false; }
      return None, false;
    }

    /** `call` stands for the promise the caller is handed. */
    method ScheduleFlush(call: nat)
      modifies this`flushPending, this`flushQueue
      ensures View() == Scheduled(old(View()), call)
    {
      if flushPending {
        if |flushQueue| > 0 {
          var last := flushQueue[|flushQueue| - 1];
          flushQueue := flushQueue[..|flushQueue| - 1] + [last.(followers := last.followers + {call})];
        }
        return;
      }
      flushPending := true;
      flushQueue := flushQueue + [Waiting(call, {})];
    }

    method SetItem(key: string, value: string, call: nat)
      requires call == |changes| + 1
      modifies this
      ensures View() == Step(old(View()), Apply(Set(key, value)))
    {
      if disabled && flavour.Electron? { return; }
      cache := cache[key := value];
      changes := changes + [Set(key, value)];
      if disabled { return; }
      ScheduleFlush(call);
    }

    method ClearItem(key: string, call: nat)
      requires call == |changes| + 1
      modifies this
      ensures View() == Step(old(View()), Apply(Clear(key)))
    {
      if disabled && flavour.Electron? { return; }
      if key in cache {
        cache := cache - {key};
        changes := changes + [Clear(key)];
        if disabled { return; }
        ScheduleFlush(call);
      }
    }

    /** The closure `_scheduleFlush` chains on the queue, up to its first await. */
    method BeginFlush()
      modifies this
      ensures View() == Step(old(View()), Begin)
    {
      if |flushQueue| == 0 || running.Some? { return; }
      flushPending := false;
      running := Some(Flight(FirstPhase(flavour), cache, flushQueue[0]));
      flushQueue := flushQueue[1..];
      started := |changes|;
    }

    /** The running flush is over: its callers are answered. */
    method EndFlush(disk: Disk, ghost ok: bool)
      requires running.Some?
      modifies this
      ensures View() == Ended(old(View()), old(running.value), disk, ok)
    {
      settled := settled + Answers(running.value.waiting, ok);
      finished, lastOk := started, ok;
      durable := if ok then Some(started) else durable;
      running, this.disk := None, disk;
    }

    method Continue(phase: Phase, temp: Temp)
      requires running.Some?
      modifies this`running, this`disk
      ensures View() == To(old(View()), old(running.value), phase, temp)
    {
      running, disk := Some(running.value.(phase := phase)), disk.(temp := temp);
    }

    /** What `_atomicWriteToFile` does once its current file operation has ended. */
    method ResumeFlush(ok: bool)
      modifies this
      ensures View() == Step(old(View()), Advance(ok))
    {
      if running.None? { return; }
      var temp := disk.temp;
      match running.value.phase
      case Unlink => Continue(Open, if ok then Absent else temp);
      case Open =>
        if ok && temp.Absent? { Continue(Write, Partial); } else { Continue(Cleanup, temp); }
      case Write =>
        if ok { Continue(if flavour.Node? then Close else Rename, Complete(running.value.snapshot)); }
        else { Continue(Cleanup, Partial); }
      case Close => Continue(if ok then Rename else Cleanup, temp);
      case Rename =>
        if ok && temp.Complete? { EndFlush(Disk(Some(temp.content), Absent), true); } else { Continue(Cleanup, temp); }
      case Cleanup => EndFlush(if ok then disk.(temp := Absent) else disk, false);
    }
  }
}
