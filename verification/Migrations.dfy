/** Reads and writes against two stores during a migration, and the events that report them
    (Migration.ts, MigrationOpTracker.ts). */
module Migrations {
  import opened Base

  datatype Origin = Old | New

  datatype Stage = Off | DualWrite | Shadow | Live | RampDown | Complete

  datatype Op = Read | Write

  /** What a method given by the application does when called: it may return a success or a
      failure, or throw. */
  datatype Reply = Succeeds | Fails | Throws

  /** The replies of the methods of each origin, and how long they take. */
  datatype Replies = Replies(oldReply: Reply, newReply: Reply, oldTook: int, newTook: int) {
    function Of(origin: Origin): Reply { if origin.Old? then oldReply else newReply }
    function Took(origin: Origin): int { if origin.Old? then oldTook else newTook }
    predicate Ok(origin: Origin) { Of(origin).Succeeds? }
  }

  datatype Measurement =
    | Invoked(origins: set<Origin>)
    | Consistent(value: bool)
    | LatencyMs(values: map<Origin, int>)
    | Errors(origins: set<Origin>)

  datatype Event = Event(operation: Op, key: string, stage: Stage, measurements: seq<Measurement>)

  /** How the consistency check of the application ends. */
  datatype Verdict = Says(same: bool) | CheckThrows

  // ----- The tracker -----

  class Tracker {
    const flagKey: string
    const contextValid: bool
    const stage: Stage
    var errors: set<Origin>
    var wasInvoked: set<Origin>
    var latencyMeasurement: map<Origin, int>
    var consistencyCheck: Option<bool>
    var operation: Option<Op>

    constructor (flagKey: string, contextValid: bool, stage: Stage)
      ensures this.flagKey == flagKey && this.contextValid == contextValid && this.stage == stage
      ensures errors == {} && wasInvoked == {} && latencyMeasurement == map[] && consistencyCheck.None? && operation.None?
    {
      this.flagKey, this.contextValid, this.stage := flagKey, contextValid, stage;
      errors, wasInvoked, latencyMeasurement, consistencyCheck, operation := {}, {}, map[], None, None;
    }

    /** What was not invoked was not measured. */
    predicate CoherentAt(origin: Origin)
      reads this
    {
      origin in wasInvoked || (origin !in latencyMeasurement && origin !in errors && consistencyCheck.None?)
    }

    predicate Coherent()
      reads this
    {
      CoherentAt(Old) && CoherentAt(New)
    }

    /** What the event says, in the order it says it. */
    function Measurements(): seq<Measurement>
      reads this
    {
      [Invoked(wasInvoked)]
      + (if consistencyCheck.Some? then [Consistent(consistencyCheck.value)] else [])
      + (if latencyMeasurement != map[] then [LatencyMs(latencyMeasurement)] else [])
      + (if errors != {} then [Errors(errors)] else [])
    }

    /** `shouldSample` decides whether the check runs at all. */
    method Consistency(sampled: bool, verdict: Verdict)
      modifies this`consistencyCheck
      ensures consistencyCheck == if sampled && verdict.Says? then Some(verdict.same) else old(consistencyCheck)
    {
      if sampled && verdict.Says? { consistencyCheck := Some(verdict.same); }
    }

    method CheckOrigin(origin: Origin) returns (ok: bool)
      ensures ok <==> CoherentAt(origin)
    {
      if origin in wasInvoked { return true; }
      if origin in latencyMeasurement { return false; }
      if origin in errors { return false; }
      ok := consistencyCheck.None?;
    }

    method CreateEvent() returns (event: Option<Event>)
      ensures event.Some? <==> flagKey != "" && operation.Some? && contextValid && wasInvoked != {} && Coherent()
      ensures event.Some? ==> event.value == Event(operation.value, flagKey, stage, Measurements())
      ensures event.Some? ==> forall origin :: origin !in wasInvoked ==>
                origin !in latencyMeasurement && origin !in errors && consistencyCheck.None?
      ensures event.None? && flagKey != "" && operation.Some? && contextValid ==>
                wasInvoked == {} || exists origin :: origin !in wasInvoked && (origin in latencyMeasurement || origin in errors || consistencyCheck.Some?)
      ensures event.Some? ==> forall x :: x in event.value.measurements <==>
                match x
                case Invoked(origins) => origins == wasInvoked
                case Consistent(value) => consistencyCheck == Some(value)
                case LatencyMs(values) => values == latencyMeasurement && values != map[]
                case Errors(origins) => origins == errors && origins != {}
    {
      if flagKey == "" || operation.None? || !contextValid || wasInvoked == {} { return None; }
      var oldOk := CheckOrigin(Old);
      var newOk := CheckOrigin(New);
      if !oldOk || !newOk { return None; }
      forall origin | origin !in wasInvoked ensures origin !in latencyMeasurement && origin !in errors && consistencyCheck.None? {
        match origin case Old => assert CoherentAt(Old); case New => assert CoherentAt(New);
      }
      var measurements := [Invoked(wasInvoked)];
      if consistencyCheck.Some? { measurements := measurements + [Consistent(consistencyCheck.value)]; }
      if latencyMeasurement != map[] { measurements := measurements + [LatencyMs(latencyMeasurement)]; }
      if errors != {} { measurements := measurements + [Errors(errors)]; }
      event := Some(Event(operation.value, flagKey, stage, measurements));
    }
  }

  // ----- What an operation should do -----

  function Other(origin: Origin): Origin {
    if origin.Old? then New else Old
  }

  /** The origin whose answer counts. */
  function Authority(stage: Stage): Origin {
    if stage in {Off, DualWrite, Shadow} then Old else New
  }

  predicate WritesBoth(stage: Stage) {
    stage in {DualWrite, Shadow, Live, RampDown}
  }

  predicate ReadsBoth(stage: Stage) {
    stage in {Shadow, Live}
  }

  /** A write that the authority refuses does not go on to the other origin. */
  function WriteInvokes(stage: Stage, replies: Replies): set<Origin> {
    {Authority(stage)} + if WritesBoth(stage) && replies.Ok(Authority(stage)) then {Other(Authority(stage))} else {}
  }

  function ReadInvokes(stage: Stage): set<Origin> {
    if ReadsBoth(stage) then {Old, New} else {Authority(stage)}
  }

  function Failed(invoked: set<Origin>, replies: Replies): set<Origin> {
    set origin | origin in invoked && !replies.Ok(origin)
  }

  datatype Options = Options(errorTracking: bool, latencyTracking: bool)

  function Latencies(invoked: set<Origin>, replies: Replies, options: Options): map<Origin, int> {
    map origin | origin in invoked && options.latencyTracking :: replies.Took(origin)
  }

  /** The measurements of an operation that invoked these origins. */
  function Report(invoked: set<Origin>, replies: Replies, options: Options, consistent: Option<bool>): seq<Measurement> {
    var latencies := Latencies(invoked, replies, options);
    var errors := if options.errorTracking then Failed(invoked, replies) else {};
    [Invoked(invoked)]
    + (if consistent.Some? then [Consistent(consistent.value)] else [])
    + (if latencies != map[] then [LatencyMs(latencies)] else [])
    + (if errors != {} then [Errors(errors)] else [])
  }

  /** The measurements say which origins were invoked, how long each took and which failed, as far
      as that is tracked, and the verdict of the consistency check if there is one. */
  predicate Measures(m: seq<Measurement>, old': bool, new': bool, replies: Replies, options: Options, consistent: Option<bool>) {
    var invoked := (if old' then {Old} else {}) + (if new' then {New} else {});
    var took: map<Origin, int> := (if old' then map[Old := replies.oldTook] else map[]) + (if new' then map[New := replies.newTook] else map[]);
    var failed := (if old' && replies.oldReply != Succeeds then {Old} else {}) + (if new' && replies.newReply != Succeeds then {New} else {});
    && (Invoked(invoked) in m)
    && (forall x <- m ::
          match x
          case Invoked(origins) => origins == invoked
          case Consistent(value) => consistent == Some(value)
          case LatencyMs(values) => options.latencyTracking && values == took
          case Errors(origins) => options.errorTracking && origins == failed != {})
    && (consistent.Some? ==> Consistent(consistent.value) in m)
    && (options.latencyTracking && invoked != {} ==> LatencyMs(took) in m)
    && (options.errorTracking && failed != {} ==> Errors(failed) in m)
  }

  lemma OriginsOf(origins: set<Origin>)
    ensures origins == (if Old in origins then {Old} else {}) + (if New in origins then {New} else {})
  {
    forall origin ensures origin in origins <==> origin in (if Old in origins then {Old} else {}) + (if New in origins then {New} else {}) {
      match origin case Old => case New =>
    }
  }

  lemma ReportMeasures(invoked: set<Origin>, replies: Replies, options: Options, consistent: Option<bool>)
    ensures Measures(Report(invoked, replies, options, consistent), Old in invoked, New in invoked, replies, options, consistent)
  {
    OriginsOf(invoked);
    OriginsOf(Failed(invoked, replies));
    if options.latencyTracking { LatenciesOf(invoked, replies, options); }
  }

  lemma LatenciesOf(invoked: set<Origin>, replies: Replies, options: Options)
    requires options.latencyTracking
    ensures Latencies(invoked, replies, options) ==
              (if Old in invoked then map[Old := replies.oldTook] else map[]) + (if New in invoked then map[New := replies.newTook] else map[])
    ensures Latencies(invoked, replies, options) == map[] <==> invoked == {}
  {
    OriginsOf(invoked);
    if invoked != {} {
      var origin :| origin in invoked;
      assert origin in Latencies(invoked, replies, options);
    }
  }

  // ----- The stores -----

  type Store = map<string, string>

  datatype Stores = Stores(oldStore: Store, newStore: Store) {
    function Of(origin: Origin): Store { if origin.Old? then oldStore else newStore }
  }

  function Put(stores: Stores, origin: Origin, key: string, value: string): Stores {
    if origin.Old? then stores.(oldStore := stores.oldStore[key := value]) else stores.(newStore := stores.newStore[key := value])
  }

  datatype WriteCall = WriteCall(stage: Stage, key: string, value: string, replies: Replies)

  /** A write that does not succeed leaves its store as it is. */
  function Written(stores: Stores, w: WriteCall): Stores {
    var first := Authority(w.stage);
    if !w.replies.Ok(first) then stores
    else
      var stores' := Put(stores, first, w.key, w.value);
      if WritesBoth(w.stage) && w.replies.Ok(Other(first)) then Put(stores', Other(first), w.key, w.value) else stores'
  }

  /** The table of stages for writes: which stores a write reaches. */
  predicate Reaches(w: WriteCall, origin: Origin) {
    var oldOk, newOk := w.replies.oldReply == Succeeds, w.replies.newReply == Succeeds;
    match w.stage
    case Off => origin == Old && oldOk
    case DualWrite => oldOk && (origin == Old || newOk)
    case Shadow => oldOk && (origin == Old || newOk)
    case Live => newOk && (origin == New || oldOk)
    case RampDown => newOk && (origin == New || oldOk)
    case Complete => origin == New && newOk
  }

  /** The table of stages for the answers to a write. */
  predicate AnsweredByTable(w: WriteCall, authoritative: Result, nonAuthoritative: Option<Result>) {
    var fromOld, fromNew := Result(Old, w.replies.oldReply == Succeeds, None), Result(New, w.replies.newReply == Succeeds, None);
    match w.stage
    case Off => authoritative == fromOld && nonAuthoritative == None
    case DualWrite => authoritative == fromOld && nonAuthoritative == if fromOld.success then Some(fromNew) else None
    case Shadow => authoritative == fromOld && nonAuthoritative == if fromOld.success then Some(fromNew) else None
    case Live => authoritative == fromNew && nonAuthoritative == if fromNew.success then Some(fromOld) else None
    case RampDown => authoritative == fromNew && nonAuthoritative == if fromNew.success then Some(fromOld) else None
    case Complete => authoritative == fromNew && nonAuthoritative == None
  }

  lemma WriteAnswers(w: WriteCall, authoritative: Result, nonAuthoritative: Option<Result>)
    requires authoritative == Result(Authority(w.stage), w.replies.Ok(Authority(w.stage)), None)
    requires nonAuthoritative.Some? <==> Other(Authority(w.stage)) in WriteInvokes(w.stage, w.replies)
    requires nonAuthoritative.Some? ==>
               nonAuthoritative.value == Result(Other(Authority(w.stage)), w.replies.Ok(Other(Authority(w.stage))), None)
    ensures AnsweredByTable(w, authoritative, nonAuthoritative)
    ensures Old in WriteInvokes(w.stage, w.replies) <==> authoritative.origin == Old || nonAuthoritative.Some?
    ensures New in WriteInvokes(w.stage, w.replies) <==> authoritative.origin == New || nonAuthoritative.Some?
  {
  }

  /** A write puts its value under its key into exactly those. */
  lemma WritesReach(stores: Stores, w: WriteCall)
    ensures var stores' := Written(stores, w);
      && stores'.oldStore == (if Reaches(w, Old) then stores.oldStore[w.key := w.value] else stores.oldStore)
      && stores'.newStore == (if Reaches(w, New) then stores.newStore[w.key := w.value] else stores.newStore)
  {
  }

  function WrittenAll(stores: Stores, writes: seq<WriteCall>): Stores {
    if |writes| == 0 then stores else Written(WrittenAll(stores, writes[..|writes| - 1]), writes[|writes| - 1])
  }

  /** The keys whose last write that took effect did not reach the other store. */
  function Diverged(writes: seq<WriteCall>): set<string> {
    if |writes| == 0 then {}
    else
      var w, before := writes[|writes| - 1], Diverged(writes[..|writes| - 1]);
      if !w.replies.Ok(Authority(w.stage)) then before
      else if w.replies.Ok(Other(Authority(w.stage))) then before - {w.key}
      else before + {w.key}
  }

  predicate AgreeAt(stores: Stores, key: string) {
    (key in stores.oldStore <==> key in stores.newStore) && (key in stores.oldStore ==> stores.oldStore[key] == stores.newStore[key])
  }

  /** From equal stores, any sequence of writes at the stages that write both leaves them equal
      except at those keys. */
  lemma {:induction false} StoresStayEqual(stores: Stores, writes: seq<WriteCall>, key: string)
    requires stores.oldStore == stores.newStore
    requires forall i :: 0 <= i < |writes| ==> WritesBoth(writes[i].stage)
    requires key !in Diverged(writes)
    ensures AgreeAt(WrittenAll(stores, writes), key)
  {
    if |writes| > 0 {
      var before, w := writes[..|writes| - 1], writes[|writes| - 1];
      if key != w.key || !w.replies.Ok(Authority(w.stage)) {
        StoresStayEqual(stores, before, key);
      }
    }
  }

  /** In particular a key on which no non-authoritative write failed. */
  lemma {:induction false} DivergedByFailure(writes: seq<WriteCall>, key: string)
    requires key in Diverged(writes)
    ensures exists i :: 0 <= i < |writes| && writes[i].key == key
              && writes[i].replies.Ok(Authority(writes[i].stage)) && !writes[i].replies.Ok(Other(Authority(writes[i].stage)))
  {
    var n := |writes| - 1;
    if key in Diverged(writes[..n]) {
      DivergedByFailure(writes[..n], key);
      var i :| 0 <= i < n && writes[..n][i].key == key
               && writes[..n][i].replies.Ok(Authority(writes[..n][i].stage)) && !writes[..n][i].replies.Ok(Other(Authority(writes[..n][i].stage)));
      assert writes[i] == writes[..n][i];
    }
  }

  function Lookup(store: Store, key: string): Option<string> {
    if key in store then Some(store[key]) else None
  }

  /** So a check that finds equal values the same finds the stores consistent at every other key
      after any such sequence of writes. */
  lemma ChecksConsistentAfterWrites(stores: Stores, writes: seq<WriteCall>, key: string, check: (Option<string>, Option<string>) -> Verdict)
    requires stores.oldStore == stores.newStore && forall i :: 0 <= i < |writes| ==> WritesBoth(writes[i].stage)
    requires forall value :: check(value, value) == Says(true)
    requires forall i :: 0 <= i < |writes| && writes[i].key == key ==> writes[i].replies.Ok(Old) && writes[i].replies.Ok(New)
    ensures var after := WrittenAll(stores, writes);
      check(Lookup(after.oldStore, key), Lookup(after.newStore, key)) == Says(true)
  {
    if key in Diverged(writes) { DivergedByFailure(writes, key); }
    StoresStayEqual(stores, writes, key);
  }

  // ----- The migration -----

  datatype Execution = Concurrent | SerialFixed | SerialRandom

  datatype Result = Result(origin: Origin, success: bool, value: Option<string>)

  class Migration {
    const execution: Execution
    const options: Options
    const check: Option<(Option<string>, Option<string>) -> Verdict>
    var stores: Stores
    var events: seq<Event>

    constructor (execution: Execution, options: Options, check: Option<(Option<string>, Option<string>) -> Verdict>, stores: Stores)
      ensures this.execution == execution && this.options == options && this.check == check
      ensures this.stores == stores && events == []
    {
      this.execution, this.options, this.check, this.stores, events := execution, options, check, stores, [];
    }

    /** What the tracker holds once these origins have been invoked and have answered. */
    predicate Tracked(tracker: Tracker, invoked: set<Origin>, replies: Replies)
      reads tracker
    {
      TrackedWith(tracker, invoked, replies, None)
    }

    predicate TrackedWith(tracker: Tracker, invoked: set<Origin>, replies: Replies, consistent: Option<bool>)
      reads tracker
    {
      && tracker.wasInvoked == invoked
      && tracker.errors == (if options.errorTracking then Failed(invoked, replies) else {})
      && tracker.latencyMeasurement == Latencies(invoked, replies, options)
      && tracker.consistencyCheck == consistent && tracker.operation.None?
    }

    /** The end of `_doSingleOp`, after the method has answered; a throw is a failure. */
    method Answered(tracker: Tracker, origin: Origin, replies: Replies) returns (success: bool)
      modifies tracker`errors, tracker`latencyMeasurement
      ensures success <==> replies.Ok(origin)
      ensures tracker.errors == old(tracker.errors) + if !success && options.errorTracking then {origin} else {}
      ensures tracker.latencyMeasurement ==
                if options.latencyTracking then old(tracker.latencyMeasurement)[origin := replies.Took(origin)]
                else old(tracker.latencyMeasurement)
    {
      success := replies.Of(origin).Succeeds?;
      if options.latencyTracking {
        tracker.latencyMeasurement := tracker.latencyMeasurement[origin := replies.Took(origin)];
      }
      if !success && options.errorTracking { tracker.errors := tracker.errors + {origin}; }
    }

    method DoSingleOp(tracker: Tracker, origin: Origin, replies: Replies, ghost before: set<Origin>) returns (success: bool)
      requires Tracked(tracker, before, replies)
      modifies tracker
      ensures success <==> replies.Ok(origin)
      ensures Tracked(tracker, before + {origin}, replies)
    {
      tracker.wasInvoked := tracker.wasInvoked + {origin};
      success := Answered(tracker, origin, replies);
    }

    method WriteOne(tracker: Tracker, origin: Origin, key: string, value: string, replies: Replies, ghost before: set<Origin>)
      returns (success: bool)
      requires Tracked(tracker, before, replies)
      modifies tracker, this`stores
      ensures success <==> replies.Ok(origin)
      ensures Tracked(tracker, before + {origin}, replies)
      ensures stores == if success then Put(old(stores), origin, key, value) else old(stores)
    {
      success := DoSingleOp(tracker, origin, replies, before);
      if success { stores := Put(stores, origin, key, value); }
    }

    /** One row of the write table that writes to both origins. */
    method WriteBothOrigins(tracker: Tracker, first: Origin, second: Origin, key: string, value: string, replies: Replies)
      returns (authoritative: Result, nonAuthoritative: Option<Result>)
      requires Tracked(tracker, {}, replies)
      modifies tracker, this`stores
      ensures authoritative == Result(first, replies.Ok(first), None)
      ensures nonAuthoritative == if replies.Ok(first) then Some(Result(second, replies.Ok(second), None)) else None
      ensures Tracked(tracker, {first} + if replies.Ok(first) then {second} else {}, replies)
      ensures stores ==
                if !replies.Ok(first) then old(stores)
                else if replies.Ok(second) then Put(Put(old(stores), first, key, value), second, key, value)
                else Put(old(stores), first, key, value)
    {
      var ok := WriteOne(tracker, first, key, value, replies, {});
      authoritative, nonAuthoritative := Result(first, ok, None), None;
      if !ok { return; }
      ok := WriteOne(tracker, second, key, value, replies, {first});
      nonAuthoritative := Some(Result(second, ok, None));
    }

    method WriteOneOrigin(tracker: Tracker, origin: Origin, key: string, value: string, replies: Replies) returns (authoritative: Result)
      requires Tracked(tracker, {}, replies)
      modifies tracker, this`stores
      ensures authoritative == Result(origin, replies.Ok(origin), None)
      ensures Tracked(tracker, {origin}, replies)
      ensures stores == if replies.Ok(origin) then Put(old(stores), origin, key, value) else old(stores)
    {
      var ok := WriteOne(tracker, origin, key, value, replies, {});
      authoritative := Result(origin, ok, None);
    }

    method SendEvent(tracker: Tracker, op: Op)
      modifies tracker`operation, this`events
      ensures tracker.operation == Some(op)
      ensures events == old(events) +
                if tracker.flagKey != "" && tracker.contextValid && tracker.wasInvoked != {} && tracker.Coherent()
                then [Event(op, tracker.flagKey, tracker.stage, tracker.Measurements())] else []
    {
      tracker.operation := Some(op);
      var event := tracker.CreateEvent();
      if event.Some? { events := events + [event.value]; }
    }

    /** Every write that has a flag key and a valid context sends one event, which reports exactly
        the origins invoked and those that failed, whatever they returned or threw. Up to Shadow
        the old origin is written first and its answer counts, from Live on the new one. */
    method DoWrite(flagKey: string, contextValid: bool, w: WriteCall) returns (authoritative: Result, nonAuthoritative: Option<Result>)
      modifies this
      ensures stores == Written(old(stores), w)
      ensures authoritative == Result(Authority(w.stage), w.replies.Ok(Authority(w.stage)), None)
      ensures nonAuthoritative.Some? <==> Other(Authority(w.stage)) in WriteInvokes(w.stage, w.replies)
      ensures nonAuthoritative.Some? ==>
                nonAuthoritative.value == Result(Other(Authority(w.stage)), w.replies.Ok(Other(Authority(w.stage))), None)
      ensures events == old(events) +
                if flagKey != "" && contextValid
                then [Event(Write, flagKey, w.stage, Report(WriteInvokes(w.stage, w.replies), w.replies, options, None))] else []
      ensures AnsweredByTable(w, authoritative, nonAuthoritative)
      ensures flagKey != "" && contextValid ==>
                |events| == |old(events)| + 1
                && Measures(events[|old(events)|].measurements, authoritative.origin == Old || nonAuthoritative.Some?,
                            authoritative.origin == New || nonAuthoritative.Some?, w.replies, options, None)
    {
      var tracker := new Tracker(flagKey, contextValid, w.stage);
      authoritative, nonAuthoritative := WriteByStage(tracker, w);
      WriteAnswers(w, authoritative, nonAuthoritative);
      ReportMeasures(WriteInvokes(w.stage, w.replies), w.replies, options, None);
      SendEvent(tracker, Write);
    }

    /** The table of writes. */
    method WriteByStage(tracker: Tracker, w: WriteCall) returns (authoritative: Result, nonAuthoritative: Option<Result>)
      requires Tracked(tracker, {}, w.replies)
      modifies tracker, this`stores
      ensures stores == Written(old(stores), w)
      ensures authoritative == Result(Authority(w.stage), w.replies.Ok(Authority(w.stage)), None)
      ensures nonAuthoritative.Some? <==> Other(Authority(w.stage)) in WriteInvokes(w.stage, w.replies)
      ensures nonAuthoritative.Some? ==>
                nonAuthoritative.value == Result(Other(Authority(w.stage)), w.replies.Ok(Other(Authority(w.stage))), None)
      ensures Tracked(tracker, WriteInvokes(w.stage, w.replies), w.replies)
    {
      nonAuthoritative := None;
      match w.stage {
        case Off => authoritative := WriteOneOrigin(tracker, Old, w.key, w.value, w.replies);
        case DualWrite => authoritative, nonAuthoritative := WriteBothOrigins(tracker, Old, New, w.key, w.value, w.replies);
        case Shadow => authoritative, nonAuthoritative := WriteBothOrigins(tracker, Old, New, w.key, w.value, w.replies);
        case Live => authoritative, nonAuthoritative := WriteBothOrigins(tracker, New, Old, w.key, w.value, w.replies);
        case RampDown => authoritative, nonAuthoritative := WriteBothOrigins(tracker, New, Old, w.key, w.value, w.replies);
        case Complete => authoritative := WriteOneOrigin(tracker, New, w.key, w.value, w.replies);
      }
    }

    /** Both origins are read, one after the other in an order the coin may decide, or at once:
        then both are invoked before either answers. */
    method DoRead(tracker: Tracker, replies: Replies, coin: bool, newAnswersFirst: bool) returns (oldOk: bool, newOk: bool)
      requires Tracked(tracker, {}, replies)
      modifies tracker
      ensures oldOk == replies.Ok(Old) && newOk == replies.Ok(New)
      ensures Tracked(tracker, {Old, New}, replies)
    {
      match execution {
        case SerialFixed =>
          oldOk := DoSingleOp(tracker, Old, replies, {});
          newOk := DoSingleOp(tracker, New, replies, {Old});
        case SerialRandom =>
          if coin {
            oldOk := DoSingleOp(tracker, Old, replies, {});
            newOk := DoSingleOp(tracker, New, replies, {Old});
          } else {
            newOk := DoSingleOp(tracker, New, replies, {});
            oldOk := DoSingleOp(tracker, Old, replies, {New});
          }
        case Concurrent =>
          tracker.wasInvoked := tracker.wasInvoked + {Old};
          tracker.wasInvoked := tracker.wasInvoked + {New};
          if newAnswersFirst {
            newOk := Answered(tracker, New, replies);
            oldOk := Answered(tracker, Old, replies);
          } else {
            oldOk := Answered(tracker, Old, replies);
            newOk := Answered(tracker, New, replies);
          }
      }
    }

    /** What the event of a read says about consistency: nothing, unless there is a check, both
        reads succeed, the check is sampled and it does not throw. */
    function Checked(stage: Stage, replies: Replies, found: Found, sampled: bool): Option<bool> {
      if ReadsBoth(stage) && check.Some? && replies.Ok(Old) && replies.Ok(New) && sampled && check.value(found.oldValue, found.newValue).Says?
      then Some(check.value(found.oldValue, found.newValue).same)
      else None
    }

    /** One row of the read table; `success` is that of the origin whose answer counts. */
    method ReadOrigins(tracker: Tracker, stage: Stage, replies: Replies, found: Found,
                       sampled: bool, coin: bool, newAnswersFirst: bool) returns (success: bool)
      requires Tracked(tracker, {}, replies)
      modifies tracker
      ensures success == replies.Ok(Authority(stage))
      ensures TrackedWith(tracker, ReadInvokes(stage), replies, Checked(stage, replies, found, sampled))
      ensures tracker.Coherent() && tracker.Measurements() == Report(ReadInvokes(stage), replies, options, Checked(stage, replies, found, sampled))
    {
      if ReadsBoth(stage) {
        var oldOk, newOk := DoRead(tracker, replies, coin, newAnswersFirst);
        if check.Some? && oldOk && newOk {
          tracker.Consistency(sampled, check.value(found.oldValue, found.newValue));
        }
        success := if stage.Shadow? then oldOk else newOk;
      } else {
        success := DoSingleOp(tracker, Authority(stage), replies, {});
      }
    }

    /** Every read that has a flag key and a valid context answers with the authority's result and
        sends one event, which reports exactly the origins invoked and those that failed. Up to
        Shadow the old origin answers, from Live on the new one; Shadow and Live read both, and
        only they compare. */
    method ReadKey(flagKey: string, contextValid: bool, stage: Stage, replies: Replies, found: Found,
                   sampled: bool, coin: bool, newAnswersFirst: bool) returns (result: Result)
      modifies this
      ensures stores == old(stores)
      ensures result == Result(Authority(stage), replies.Ok(Authority(stage)),
                               if replies.Ok(Authority(stage)) then found.Of(Authority(stage)) else None)
      ensures events == old(events) +
                if flagKey != "" && contextValid
                then [Event(Read, flagKey, stage, Report(ReadInvokes(stage), replies, options, Checked(stage, replies, found, sampled)))] else []
      ensures stage in {Off, DualWrite, Shadow} ==>
                result == Result(Old, replies.oldReply == Succeeds, if replies.oldReply == Succeeds then found.oldValue else None)
      ensures stage in {Live, RampDown, Complete} ==>
                result == Result(New, replies.newReply == Succeeds, if replies.newReply == Succeeds then found.newValue else None)
      ensures flagKey != "" && contextValid ==>
                |events| == |old(events)| + 1
                && Measures(events[|old(events)|].measurements, stage in {Off, DualWrite, Shadow, Live},
                            stage in {Shadow, Live, RampDown, Complete}, replies, options,
                            if stage in {Shadow, Live} && check.Some? && replies.oldReply == replies.newReply == Succeeds && sampled
                               && check.value(found.oldValue, found.newValue).Says?
                            then Some(check.value(found.oldValue, found.newValue).same) else None)
    {
      var tracker := new Tracker(flagKey, contextValid, stage);
      assert Tracked(tracker, {}, replies);
      var success := ReadOrigins(tracker, stage, replies, found, sampled, coin, newAnswersFirst);
      ReportMeasures(ReadInvokes(stage), replies, options, Checked(stage, replies, found, sampled));
      result := Result(Authority(stage), success, if success then found.Of(Authority(stage)) else None);
      SendEvent(tracker, Read);
    }
  }

  /** What the two reads find. */
  datatype Found = Found(oldValue: Option<string>, newValue: Option<string>) {
    function Of(origin: Origin): Option<string> { if origin.Old? then oldValue else newValue }
  }
}
