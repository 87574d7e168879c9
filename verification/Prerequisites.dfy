/** Flag evaluation in the client SDKs, with the events of prerequisites (`_variationInternal`
    of LDClientImpl.ts). */
module Prerequisites {
  import opened Base
  import opened Graphs

  datatype Value = Undefined | Null | Json(text: string)

  datatype Flag = Flag(value: Value, variation: Option<nat>, reason: Option<string>, prerequisites: seq<string>, deleted: bool)

  type Flags = map<string, Flag>

  datatype ErrorKind = FlagNotFound | WrongType

  datatype Detail =
    | Success(value: Value, variation: Option<nat>, reason: Option<string>)
    | Failure(kind: ErrorKind, value: Value)

  /** What the event processor is sent; `reasons` says which event factory made the event. */
  datatype Event =
    | Evaluated(key: string, value: Value, default: Value, reasons: bool)
    | Unknown(key: string, default: Value)

  predicate Known(flags: Flags, key: string) {
    key in flags && !flags[key].deleted
  }

  /** `??` */
  function OrNull(v: Value): Value {
    if v.Undefined? then Null else v
  }

  function OrDefault(v: Value, default: Value): Value {
    if v.Undefined? || v.Null? then default else v
  }

  /** The prerequisites as edges between flags. */
  function Dependencies(flags: Flags): Graph {
    map key | key in flags && !flags[key].deleted :: flags[key].prerequisites
  }

  // ----- The chains of prerequisites that are evaluated -----

  function Elements(trail: seq<string>): set<string> {
    set key <- trail
  }

  lemma ElementsSnoc(trail: seq<string>, key: string)
    ensures Elements(trail + [key]) == Elements(trail) + {key}
  {
  }

  /** The chains that start with `trail + [key]`, in the order their last flags finish. */
  function Visits(flags: Flags, trail: seq<string>, key: string): seq<seq<string>>
    requires key !in trail
    decreases flags.Keys - Elements(trail), 0
  {
    if !Known(flags, key) then [trail + [key]]
    else
      ElementsSnoc(trail, key);
      assert key in flags.Keys - Elements(trail);
      VisitAll(flags, trail + [key], flags[key].prerequisites) + [trail + [key]]
  }

  function VisitAll(flags: Flags, trail: seq<string>, keys: seq<string>): seq<seq<string>>
    decreases flags.Keys - Elements(trail), |keys| + 1
  {
    if |keys| == 0 then []
    else (if keys[0] in trail then [] else Visits(flags, trail, keys[0])) + VisitAll(flags, trail, keys[1..])
  }

  // ----- The evaluation -----

  datatype Request = Request(key: string, default: Value, reasons: bool)

  /** The event of one chain: its first flag is the one asked for, the others are
      prerequisites, which have no default and no reasons. */
  function EventOf(flags: Flags, request: Request, chain: seq<string>): Event
    requires |chain| > 0
  {
    var key := chain[|chain| - 1];
    var default := if |chain| == 1 then request.default else Undefined;
    if Known(flags, key) then Evaluated(key, flags[key].value, default, |chain| == 1 && request.reasons)
    else Unknown(key, OrNull(default))
  }

  predicate NonEmpty(chains: seq<seq<string>>) {
    forall i :: 0 <= i < |chains| ==> |chains[i]| > 0
  }

  function EventsOf(flags: Flags, request: Request, chains: seq<seq<string>>): seq<Event>
    requires NonEmpty(chains)
  {
    if |chains| == 0 then [] else [EventOf(flags, request, chains[0])] + EventsOf(flags, request, chains[1..])
  }

  lemma {:induction false} EventsOfConcat(flags: Flags, request: Request, a: seq<seq<string>>, b: seq<seq<string>>)
    requires NonEmpty(a) && NonEmpty(b)
    ensures EventsOf(flags, request, a + b) == EventsOf(flags, request, a) + EventsOf(flags, request, b)
  {
    if |a| == 0 {
      assert a + b == b;
    } else {
      EventsOfConcat(flags, request, a[1..], b);
      assert (a + b)[1..] == a[1..] + b;
    }
  }

  lemma {:induction false} EventsOfAt(flags: Flags, request: Request, chains: seq<seq<string>>, i: nat)
    requires NonEmpty(chains)
    ensures |EventsOf(flags, request, chains)| == |chains|
    ensures i < |chains| ==> EventsOf(flags, request, chains)[i] == EventOf(flags, request, chains[i])
  {
    if |chains| > 0 {
      EventsOfAt(flags, request, chains[1..], if i > 0 then i - 1 else 0);
    }
  }

  lemma {:induction false} VisitsAreNonEmpty(flags: Flags, trail: seq<string>, key: string)
    requires key !in trail
    ensures NonEmpty(Visits(flags, trail, key))
    decreases flags.Keys - Elements(trail), 0
  {
    if Known(flags, key) {
      ElementsSnoc(trail, key);
      assert key in flags.Keys - Elements(trail);
      VisitAllAreNonEmpty(flags, trail + [key], flags[key].prerequisites);
    }
  }

  lemma {:induction false} VisitAllAreNonEmpty(flags: Flags, trail: seq<string>, keys: seq<string>)
    ensures NonEmpty(VisitAll(flags, trail, keys))
    decreases flags.Keys - Elements(trail), |keys| + 1
  {
    if |keys| > 0 {
      if keys[0] !in trail { VisitsAreNonEmpty(flags, trail, keys[0]); }
      VisitAllAreNonEmpty(flags, trail, keys[1..]);
    }
  }

  /** The events of some chains, none before the client has a context. */
  function Sent(flags: Flags, hasContext: bool, request: Request, chains: seq<seq<string>>): seq<Event>
    requires NonEmpty(chains)
  {
    if hasContext then EventsOf(flags, request, chains) else []
  }

  lemma EventsOfOne(flags: Flags, request: Request, chain: seq<string>)
    requires |chain| > 0
    ensures EventsOf(flags, request, [chain]) == [EventOf(flags, request, chain)]
  {
    assert EventsOf(flags, request, [chain][1..]) == [];
  }

  lemma SentConcat(flags: Flags, hasContext: bool, request: Request, a: seq<seq<string>>, b: seq<seq<string>>)
    requires NonEmpty(a) && NonEmpty(b)
    ensures NonEmpty(a + b)
    ensures Sent(flags, hasContext, request, a + b) == Sent(flags, hasContext, request, a) + Sent(flags, hasContext, request, b)
  {
    EventsOfConcat(flags, request, a, b);
  }

  /** The events of a prerequisite list, its first member apart. */
  lemma SentStep(flags: Flags, hasContext: bool, request: Request, trail: seq<string>, keys: seq<string>)
    requires |keys| > 0
    ensures NonEmpty(VisitAll(flags, trail, keys)) && NonEmpty(VisitAll(flags, trail, keys[1..]))
    ensures keys[0] !in trail ==> NonEmpty(Visits(flags, trail, keys[0]))
    ensures Sent(flags, hasContext, request, VisitAll(flags, trail, keys)) ==
              (if keys[0] in trail then [] else Sent(flags, hasContext, request, Visits(flags, trail, keys[0])))
              + Sent(flags, hasContext, request, VisitAll(flags, trail, keys[1..]))
  {
    VisitAllAreNonEmpty(flags, trail, keys);
    VisitAllAreNonEmpty(flags, trail, keys[1..]);
    if keys[0] in trail {
      assert VisitAll(flags, trail, keys) == VisitAll(flags, trail, keys[1..]);
    } else {
      VisitsAreNonEmpty(flags, trail, keys[0]);
      SentConcat(flags, hasContext, request, Visits(flags, trail, keys[0]), VisitAll(flags, trail, keys[1..]));
    }
  }

  /** The event of a flag comes after those of its prerequisites. */
  lemma SentLast(flags: Flags, hasContext: bool, request: Request, trail: seq<string>, key: string)
    requires key !in trail && Known(flags, key)
    ensures NonEmpty(Visits(flags, trail, key)) && NonEmpty(VisitAll(flags, trail + [key], flags[key].prerequisites))
    ensures Sent(flags, hasContext, request, Visits(flags, trail, key)) ==
              Sent(flags, hasContext, request, VisitAll(flags, trail + [key], flags[key].prerequisites))
              + if hasContext then [EventOf(flags, request, trail + [key])] else []
  {
    VisitsAreNonEmpty(flags, trail, key);
    ElementsSnoc(trail, key);
    VisitAllAreNonEmpty(flags, trail + [key], flags[key].prerequisites);
    SentConcat(flags, hasContext, request, VisitAll(flags, trail + [key], flags[key].prerequisites), [trail + [key]]);
    EventsOfOne(flags, request, trail + [key]);
  }

  lemma Regroup(a: seq<Event>, b: seq<Event>, c: seq<Event>)
    ensures (a + b) + c == a + (b + c)
  {
  }

  /** The detail of a flag; its prerequisites play no part. */
  function DetailOf(flags: Flags, key: string, default: Value, accepts: Option<Value -> bool>): Detail {
    if !Known(flags, key) then Failure(FlagNotFound, OrNull(default))
    else if accepts.Some? && !accepts.value(flags[key].value) then Failure(WrongType, OrNull(default))
    else Success(OrDefault(flags[key].value, default), flags[key].variation, flags[key].reason)
  }

  /** What the application is answered: the flag's own value, unless it has none, is unknown or is
      of a type the caller refuses. */
  predicate Answered(flags: Flags, key: string, default: Value, accepts: Option<Value -> bool>, detail: Detail) {
    if key !in flags || flags[key].deleted then
      detail == Failure(FlagNotFound, if default == Undefined then Null else default)
    else
      var flag := flags[key];
      && (accepts.Some? && !accepts.value(flag.value) ==> detail == Failure(WrongType, if default == Undefined then Null else default))
      && (accepts.None? || accepts.value(flag.value) ==>
            detail == Success(if flag.value.Json? then flag.value else default, flag.variation, flag.reason))
  }

  lemma DetailAnswers(flags: Flags, key: string, default: Value, accepts: Option<Value -> bool>)
    ensures Answered(flags, key, default, accepts, DetailOf(flags, key, default, accepts))
  {
  }

  /** The event of the flag asked for has its value, the default and, when they are asked for,
      the reasons. */
  predicate ReportsRequested(flags: Flags, request: Request, event: Event) {
    var key := request.key;
    if key in flags && !flags[key].deleted then event == Evaluated(key, flags[key].value, request.default, request.reasons)
    else event == Unknown(key, if request.default == Undefined then Null else request.default)
  }

  /** The event of a prerequisite has its value, and neither default nor reasons. */
  predicate ReportsPrerequisite(flags: Flags, key: string, event: Event) {
    if key in flags && !flags[key].deleted then event == Evaluated(key, flags[key].value, Undefined, false)
    else event == Unknown(key, Null)
  }

  /** One event for each chain, in order: those of the prerequisites, then that of the flag asked
      for. */
  predicate Reports(flags: Flags, request: Request, sent: seq<Event>) {
    var chains := Visits(flags, [], request.key);
    && |sent| == |chains| > 0 && ReportsRequested(flags, request, sent[|sent| - 1])
    && forall i :: 0 <= i < |sent| - 1 ==> |chains[i]| > 1 && ReportsPrerequisite(flags, chains[i][|chains[i]| - 1], sent[i])
  }

  lemma EventsReport(flags: Flags, request: Request)
    ensures NonEmpty(Visits(flags, [], request.key))
    ensures Reports(flags, request, EventsOf(flags, request, Visits(flags, [], request.key)))
  {
    var chains := Visits(flags, [], request.key);
    VisitsAreNonEmpty(flags, [], request.key);
    RootLast(flags, request.key);
    EventsOfAt(flags, request, chains, |chains| - 1);
    forall i | 0 <= i < |chains| - 1
      ensures ReportsPrerequisite(flags, chains[i][|chains[i]| - 1], EventsOf(flags, request, chains)[i])
    {
      EventsOfAt(flags, request, chains, i);
    }
  }

  predicate Mistyped(detail: Detail) {
    detail.Failure? && detail.kind.WrongType?
  }

  class Client {
    const flags: Flags
    const hasContext: bool
    var events: seq<Event>
    var ancestors: set<string>

    constructor (flags: Flags, hasContext: bool)
      ensures this.flags == flags && this.hasContext == hasContext && events == [] && ancestors == {}
    {
      this.flags, this.hasContext, events, ancestors := flags, hasContext, [], {};
    }

    method SendEvent(event: Event)
      modifies this`events
      ensures events == old(events) + if hasContext then [event] else []
    {
      if hasContext { events := events + [event]; }
    }

    /** `trail` lists the ancestors in order; `request` is the evaluation they belong to. */
    method VariationInternal(key: string, default: Value, reasons: bool, accepts: Option<Value -> bool>,
                             ghost trail: seq<string>, ghost request: Request)
      returns (detail: Detail)
      requires ancestors == Elements(trail) && key !in ancestors
      requires if trail == [] then request == Request(key, default, reasons) else default.Undefined? && !reasons && accepts.None?
      modifies this
      ensures ancestors == old(ancestors)
      ensures detail == DetailOf(flags, key, default, accepts) && Answered(flags, key, default, accepts, detail)
      ensures NonEmpty(Visits(flags, trail, key))
      ensures !Mistyped(detail) ==> events == old(events) + Sent(flags, hasContext, request, Visits(flags, trail, key))
      ensures Mistyped(detail) ==> events == old(events) + if hasContext then [Evaluated(key, default, default, reasons)] else []
      decreases flags.Keys - ancestors, 1
    {
      DetailAnswers(flags, key, default, accepts);
      VisitsAreNonEmpty(flags, trail, key);
      assert key !in trail && (|trail + [key]| == 1 <==> trail == []);
      if !Known(flags, key) {
        EventsOfOne(flags, request, trail + [key]);
        SendEvent(Unknown(key, OrNull(default)));
        return Failure(FlagNotFound, OrNull(default));
      }
      var flag := flags[key];
      if accepts.Some? && !accepts.value(flag.value) {
        SendEvent(Evaluated(key, default, default, reasons));
        return Failure(WrongType, OrNull(default));
      }
      detail := Success(flag.value, flag.variation, flag.reason);
      if flag.value.Undefined? || flag.value.Null? { detail := Success(default, flag.variation, flag.reason); }
      SentLast(flags, hasContext, request, trail, key);
      EvaluatePrerequisites(key, trail, request);
      SendEvent(Evaluated(key, flag.value, default, reasons));
    }

    method EvaluatePrerequisites(key: string, ghost trail: seq<string>, ghost request: Request)
      requires ancestors == Elements(trail) && key !in ancestors && Known(flags, key)
      modifies this
      ensures ancestors == old(ancestors)
      ensures NonEmpty(VisitAll(flags, trail + [key], flags[key].prerequisites))
      ensures events == old(events) + Sent(flags, hasContext, request, VisitAll(flags, trail + [key], flags[key].prerequisites))
      decreases flags.Keys - ancestors, 0
    {
      var prerequisites := flags[key].prerequisites;
      ghost var chain := trail + [key];
      ElementsSnoc(trail, key);
      VisitAllAreNonEmpty(flags, chain, prerequisites);
      if |prerequisites| == 0 { return; }
      assert key in flags.Keys - ancestors;
      ancestors := ancestors + {key};
      ghost var all := old(events) + Sent(flags, hasContext, request, VisitAll(flags, chain, prerequisites));
      for i := 0 to |prerequisites|
        invariant ancestors == Elements(chain)
        invariant NonEmpty(VisitAll(flags, chain, prerequisites[i..]))
        invariant all == events + Sent(flags, hasContext, request, VisitAll(flags, chain, prerequisites[i..]))
      {
        var prerequisite := prerequisites[i];
        ghost var rest := prerequisites[i..];
        assert rest[0] == prerequisite && rest[1..] == prerequisites[i + 1..];
        SentStep(flags, hasContext, request, chain, rest);
        if prerequisite !in ancestors {
          ghost var sent := events;
          var _ := VariationInternal(prerequisite, Undefined, false, None, chain, request);
          Regroup(sent, Sent(flags, hasContext, request, Visits(flags, chain, prerequisite)),
                  Sent(flags, hasContext, request, VisitAll(flags, chain, rest[1..])));
        }
      }
      assert prerequisites[|prerequisites|..] == [];
      ancestors := ancestors - {key};
    }

    /** An evaluation asked for by the application. Without a context no events are sent; a value
        of a refused type is reported with the default in its place, and without prerequisites. */
    method Variation(key: string, default: Value, reasons: bool, accepts: Option<Value -> bool>) returns (detail: Detail)
      requires ancestors == {}
      modifies this
      ensures ancestors == {}
      ensures Answered(flags, key, default, accepts, detail)
      ensures !hasContext ==> events == old(events)
      ensures hasContext && detail.Failure? && detail.kind == WrongType ==>
                events == old(events) + [Evaluated(key, default, default, reasons)]
      ensures hasContext && !(detail.Failure? && detail.kind == WrongType) ==>
                old(events) <= events && Reports(flags, Request(key, default, reasons), events[|old(events)|..])
    {
      ghost var request := Request(key, default, reasons);
      detail := VariationInternal(key, default, reasons, accepts, [], request);
      EventsReport(flags, request);
      if hasContext && !Mistyped(detail) {
        assert events[|old(events)|..] == EventsOf(flags, request, Visits(flags, [], key));
      }
    }
  }

  // ----- Which flags an evaluation reaches -----

  /** A chain that goes on from `base` along dependencies without visiting a flag twice. */
  predicate Extends(flags: Flags, base: seq<string>, p: seq<string>) {
    && 0 < |base| <= |p| && p[..|base|] == base && Distinct(p)
    && forall i :: |base| <= i < |p| ==> Edge(Dependencies(flags), p[i - 1], p[i])
  }

  lemma ExtendsItself(flags: Flags, base: seq<string>, p: seq<string>)
    requires 0 < |base| && Distinct(base) && |p| <= |base|
    ensures Extends(flags, base, p) <==> p == base
  {
    if |p| == |base| { assert p[..|base|] == p; }
  }

  lemma TakeOneMore(flags: Flags, base: seq<string>, p: seq<string>)
    requires 0 < |base| < |p|
    ensures Extends(flags, base, p) <==>
              Extends(flags, base + [p[|base|]], p) && Edge(Dependencies(flags), base[|base| - 1], p[|base|])
  {
    var n := |base|;
    assert p[..n + 1] == p[..n] + [p[n]];
    assert p[n - 1] == p[..n][n - 1];
    if p[..n + 1] == base + [p[n]] {
      assert p[..n] == p[..n + 1][..n] == base;
    }
  }

  /** The chains evaluated are exactly those: cycles are cut, nothing else is. */
  lemma {:induction false} VisitsExactly(flags: Flags, trail: seq<string>, key: string, p: seq<string>)
    requires Distinct(trail) && key !in trail
    ensures p in Visits(flags, trail, key) <==> Extends(flags, trail + [key], p)
    decreases flags.Keys - Elements(trail), 0
  {
    var base := trail + [key];
    if |p| > |base| { TakeOneMore(flags, base, p); } else { ExtendsItself(flags, base, p); }
    if Known(flags, key) {
      ElementsSnoc(trail, key);
      assert key in flags.Keys - Elements(trail);
      VisitAllExactly(flags, base, flags[key].prerequisites, p);
    }
  }

  lemma {:induction false} VisitAllExactly(flags: Flags, base: seq<string>, keys: seq<string>, p: seq<string>)
    requires Distinct(base) && |base| > 0
    ensures p in VisitAll(flags, base, keys) <==>
              |p| > |base| && p[|base|] in keys && Extends(flags, base + [p[|base|]], p)
    decreases flags.Keys - Elements(base), |keys| + 1
  {
    if |keys| > 0 {
      VisitAllExactly(flags, base, keys[1..], p);
      if keys[0] !in base {
        VisitsExactly(flags, base, keys[0], p);
      }
      FirstOrRest(flags, base, keys, p);
    }
  }

  lemma FirstOrRest(flags: Flags, base: seq<string>, keys: seq<string>, p: seq<string>)
    requires |keys| > 0
    ensures Extends(flags, base + [keys[0]], p) ==> |p| > |base| && p[|base|] == keys[0] && keys[0] !in base
    ensures |p| > |base| ==> (p[|base|] in keys <==> p[|base|] == keys[0] || p[|base|] in keys[1..])
  {
    if Extends(flags, base + [keys[0]], p) {
      var n := |base|;
      assert p[n] == p[..n + 1][n] == keys[0];
      forall i | 0 <= i < n ensures base[i] != keys[0] {
        assert p[i] == p[..n + 1][i] == base[i];
      }
    }
  }

  /** Evaluating a flag sends an event about another exactly when dependencies lead to it from
      the flag through known ones. */
  lemma EventsReachExactly(flags: Flags, key: string, other: string)
    ensures NonEmpty(Visits(flags, [], key))
    ensures (exists chain <- Visits(flags, [], key) :: chain[|chain| - 1] == other) <==> Reaches(Dependencies(flags), key, other)
  {
    VisitsAreNonEmpty(flags, [], key);
    var g := Dependencies(flags);
    if chain :| chain in Visits(flags, [], key) && chain[|chain| - 1] == other {
      VisitsExactly(flags, [], key, chain);
      assert chain[0] == chain[..1][0] == key;
      assert Path(g, chain);
    }
    if Reaches(g, key, other) {
      var p :| Path(g, p) && p[0] == key && p[|p| - 1] == other;
      var q := SimplePath(g, p);
      assert q[..1] == [] + [key];
      VisitsExactly(flags, [], key, q);
    }
  }

  // ----- In what order -----

  /** No chain is a prefix of a later one: each comes once, and after those that go on from
      it. */
  predicate PostOrder(chains: seq<seq<string>>) {
    forall i, j :: 0 <= i < j < |chains| ==> !(chains[i] <= chains[j])
  }

  predicate NoDuplicates(flags: Flags) {
    forall key <- flags :: Distinct(flags[key].prerequisites)
  }

  lemma PostOrderConcat(a: seq<seq<string>>, b: seq<seq<string>>, n: nat)
    requires PostOrder(a) && PostOrder(b)
    requires forall p <- a :: |p| > n
    requires forall q <- b :: |q| > n
    requires forall p <- a, q <- b :: p[n] != q[n]
    ensures PostOrder(a + b)
  {
    var c := a + b;
    forall i, j | 0 <= i < j < |c| ensures !(c[i] <= c[j]) {
      if i < |a| <= j {
        assert a[i] in a && b[j - |a|] in b;
      }
    }
  }

  lemma PostOrderLast(a: seq<seq<string>>, base: seq<string>)
    requires PostOrder(a) && forall p <- a :: base < p
    ensures PostOrder(a + [base])
  {
    var c := a + [base];
    forall i, j | 0 <= i < j < |c| ensures !(c[i] <= c[j]) {
      assert c[i] == a[i] && a[i] in a;
    }
  }

  lemma {:induction false} VisitsInPostOrder(flags: Flags, trail: seq<string>, key: string)
    requires NoDuplicates(flags) && Distinct(trail) && key !in trail
    ensures PostOrder(Visits(flags, trail, key))
    decreases flags.Keys - Elements(trail), 0
  {
    if Known(flags, key) {
      var base := trail + [key];
      var keys := flags[key].prerequisites;
      ElementsSnoc(trail, key);
      assert key in flags.Keys - Elements(trail);
      VisitAllInPostOrder(flags, base, keys);
      forall p <- VisitAll(flags, base, keys) ensures base < p {
        VisitAllExactly(flags, base, keys, p);
        TakeOneMore(flags, base, p);
      }
      PostOrderLast(VisitAll(flags, base, keys), base);
    }
  }

  lemma {:induction false} VisitAllInPostOrder(flags: Flags, base: seq<string>, keys: seq<string>)
    requires NoDuplicates(flags) && Distinct(base) && |base| > 0 && Distinct(keys)
    ensures PostOrder(VisitAll(flags, base, keys))
    decreases flags.Keys - Elements(base), |keys| + 1
  {
    if |keys| > 0 {
      VisitAllInPostOrder(flags, base, keys[1..]);
      forall q <- VisitAll(flags, base, keys[1..]) ensures |q| > |base| && q[|base|] != keys[0] {
        VisitAllExactly(flags, base, keys[1..], q);
      }
      if keys[0] in base {
        assert VisitAll(flags, base, keys) == VisitAll(flags, base, keys[1..]);
      } else {
        VisitsInPostOrder(flags, base, keys[0]);
        forall p <- Visits(flags, base, keys[0]) ensures |p| > |base| && p[|base|] == keys[0] {
          VisitsExactly(flags, base, keys[0], p);
          FirstOrRest(flags, base, keys, p);
        }
        PostOrderConcat(Visits(flags, base, keys[0]), VisitAll(flags, base, keys[1..]), |base|);
      }
    }
  }

  /** The flag asked for comes last, once, and with duplicate-free prerequisite lists every
      chain comes once and before the chains it goes on from. */
  lemma RootLast(flags: Flags, key: string)
    ensures var chains := Visits(flags, [], key);
      && |chains| > 0 && chains[|chains| - 1] == [key]
      && (forall i :: 0 <= i < |chains| - 1 ==> |chains[i]| > 1)
      && (NoDuplicates(flags) ==> PostOrder(chains))
  {
    var chains := Visits(flags, [], key);
    if Known(flags, key) {
      var before := VisitAll(flags, [key], flags[key].prerequisites);
      assert [] + [key] == [key];
      forall i | 0 <= i < |before| ensures |chains[i]| > 1 {
        VisitAllExactly(flags, [key], flags[key].prerequisites, before[i]);
      }
    }
    if NoDuplicates(flags) { VisitsInPostOrder(flags, [], key); }
  }
}
