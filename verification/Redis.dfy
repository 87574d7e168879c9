/** The Redis store's optimistic `upsert` (RedisCore.ts), run by several clients against one
    server: WATCH, HGET and EXEC are separate steps, and the steps of different clients
    interleave freely. */
module Redis {
  import opened Base

  /** A stored item, as deserialization shows it. */
  datatype Item = Item(version: int, data: Option<string>)

  /** One `upsert` call; `payload` is the serialized item. */
  datatype Request = Request(namespace: string, key: string, version: int, deleted: bool, payload: Option<string>)

  type Cell = (string, string)

  type Store = map<Cell, Item>

  /** Where a client's current `upsert` has got to. */
  datatype Phase =
    | Idle
    | Watched(req: Request)              // WATCH sent; the old item comes next
    | Armed(req: Request, item: Item)    // the write is queued; EXEC comes next
    | Retrying(req: Request)             // EXEC was aborted; `upsert` is called again

  /** A client: its `upsert` calls run one after another. `watching` and `dirty` are the
      server's side of its connection; only EXEC clears them. */
  datatype Client = Client(phase: Phase, watching: set<string>, dirty: bool, queue: seq<Request>)

  datatype Event =
    | Committed(client: nat, req: Request)
    | Stale(client: nat, req: Request)
    | Refused(client: nat, req: Request)
    | Aborted(client: nat, req: Request)

  /** The server, its clients, and what has happened so far. */
  datatype State = State(store: Store, clients: seq<Client>, history: seq<Event>)

  function CellOf(req: Request): Cell {
    (req.namespace, req.key)
  }

  /** A request to write an item that is neither deleted nor has data breaks the contract. */
  predicate Writable(req: Request) {
    req.deleted || (req.payload.Some? && req.payload.value != "")
  }

  function ItemOf(req: Request): Item {
    Item(req.version, if req.deleted then None else req.payload)
  }

  predicate AtLeast(store: Store, cell: Cell, version: int) {
    cell in store && store[cell].version >= version
  }

  function Put(s: State, c: nat, client: Client): State
    requires c < |s.clients|
  {
    s.(clients := s.clients[c := client])
  }

  function Log(s: State, e: Event): State {
    s.(history := s.history + [e])
  }

  /** WATCH on the namespace's hash. */
  function Watch(s: State, c: nat, req: Request, queue: seq<Request>): State
    requires c < |s.clients|
  {
    var me := s.clients[c];
    Put(s, c, Client(Watched(req), me.watching + {req.namespace}, me.dirty, queue))
  }

  /** HGET, and the decision its callback takes. Discarding the transaction is local: the
      server is not told, so the watch stays. */
  function ReadOld(s: State, c: nat, req: Request): State
    requires c < |s.clients|
  {
    var me := s.clients[c];
    if AtLeast(s.store, CellOf(req), req.version) then Log(Put(s, c, me.(phase := Idle)), Stale(c, req))
    else if !Writable(req) then Log(Put(s, c, me.(phase := Idle)), Refused(c, req))
    else Put(s, c, me.(phase := Armed(req, ItemOf(req))))
  }

  /** The other clients that watch a namespace learn that it was written. */
  function Touch(clients: seq<Client>, namespace: string): (r: seq<Client>)
    ensures |r| == |clients|
    ensures forall i :: 0 <= i < |r| ==>
              r[i] == clients[i].(dirty := clients[i].dirty || namespace in clients[i].watching)
  {
    seq(|clients|, i requires 0 <= i < |clients| =>
      clients[i].(dirty := clients[i].dirty || namespace in clients[i].watching))
  }

  /** EXEC. */
  function Exec(s: State, c: nat, req: Request, item: Item): State
    requires c < |s.clients|
  {
    var me := s.clients[c];
    if me.dirty then Log(Put(s, c, Client(Retrying(req), {}, false, me.queue)), Aborted(c, req))
    else
      var written := s.(store := s.store[CellOf(req) := item], clients := Touch(s.clients, req.namespace));
      Log(Put(written, c, Client(Idle, {}, false, me.queue)), Committed(c, req))
  }

  /** The next step of client `c`; nothing when it has nothing to do. */
  function Next(s: State, c: nat): State
    requires c < |s.clients|
  {
    var me := s.clients[c];
    match me.phase
    case Idle => if |me.queue| == 0 then s else Watch(s, c, me.queue[0], me.queue[1..])
    case Retrying(req) => Watch(s, c, req, me.queue)
    case Watched(req) => ReadOld(s, c, req)
    case Armed(req, item) => Exec(s, c, req, item)
  }

  predicate Busy(client: Client) {
    !client.phase.Idle? || |client.queue| > 0
  }

  predicate Schedules(schedule: seq<nat>, n: nat) {
    forall i :: 0 <= i < |schedule| ==> schedule[i] < n
  }

  /** A run: at each step the scheduler picks a client. */
  function Run(s: State, schedule: seq<nat>): (r: State)
    requires Schedules(schedule, |s.clients|)
    ensures |r.clients| == |s.clients|
  {
    if |schedule| == 0 then s else
      var n := |schedule| - 1;
      Next(Run(s, schedule[..n]), schedule[n])
  }

  predicate Fresh(s: State) {
    s.history == [] && forall i :: 0 <= i < |s.clients| ==> s.clients[i].phase.Idle? && s.clients[i].watching == {} && !s.clients[i].dirty
  }

  // ----- Safety of each write -----

  /** A client about to EXEC has decided on a version it read below its own, and unless it has
      been told otherwise that is still what the server holds. */
  predicate Sound(store: Store, me: Client) {
    match me.phase
    case Idle => true
    case Retrying(_) => true
    case Watched(req) => req.namespace in me.watching
    case Armed(req, item) =>
      && req.namespace in me.watching && item == ItemOf(req) && Writable(req)
      && (!me.dirty ==> !AtLeast(store, CellOf(req), req.version))
  }

  predicate AllSound(s: State) {
    forall i :: 0 <= i < |s.clients| ==> Sound(s.store, s.clients[i])
  }

  lemma NextKeepsSound(s: State, c: nat)
    requires c < |s.clients| && AllSound(s)
    ensures AllSound(Next(s, c))
  {
    forall i | 0 <= i < |s.clients|
      ensures Sound(Next(s, c).store, Next(s, c).clients[i])
    {
      assert Sound(s.store, s.clients[i]);
      assert Sound(s.store, s.clients[c]);
    }
  }

  lemma {:induction false} RunSound(s: State, schedule: seq<nat>)
    requires Fresh(s) && Schedules(schedule, |s.clients|)
    ensures AllSound(Run(s, schedule))
  {
    if |schedule| > 0 {
      var n := |schedule| - 1;
      RunSound(s, schedule[..n]);
      NextKeepsSound(Run(s, schedule[..n]), schedule[n]);
    }
  }

  /** No item is lost, and one that changes gets a larger version. */
  predicate Raises(before: Store, after: Store) {
    && before.Keys <= after.Keys
    && forall cell <- after :: cell in before && after[cell] != before[cell] ==> after[cell].version > before[cell].version
  }

  /** The item is what the request carries: its version, and its payload unless it deletes. */
  predicate Fulfils(item: Item, req: Request) {
    && item.version == req.version
    && (req.deleted ==> item.data == None)
    && (!req.deleted ==> item.data == req.payload && item.data.Some? && item.data.value != "")
  }

  /** In every run, each step leaves the store alone or is an EXEC that strictly raises the
      version of the one item it writes, and writes what the request carries. */
  lemma EveryWriteRaises(s: State, schedule: seq<nat>, c: nat)
    requires Fresh(s) && Schedules(schedule, |s.clients|) && c < |s.clients|
    ensures var before := Run(s, schedule);
            var after := Next(before, c);
            Raises(before.store, after.store) &&
            (after.store == before.store ||
             exists req :: after.history == before.history + [Committed(c, req)]
                           && var cell := (req.namespace, req.key);
                             && (cell in before.store ==> before.store[cell].version < req.version)
                             && cell in after.store && Fulfils(after.store[cell], req)
                             && after.store == before.store[cell := after.store[cell]])
  {
    RunSound(s, schedule);
    var before := Run(s, schedule);
    var me := before.clients[c];
    assert Sound(before.store, me);
    if me.phase.Armed? && !me.dirty {
      assert Next(before, c).history == before.history + [Committed(c, me.phase.req)];
    }
  }

  // ----- The final version of an item -----

  /** Requests not settled yet: those queued, and the one under way. */
  predicate Waiting(s: State, req: Request) {
    exists i :: 0 <= i < |s.clients| && WaitingAt(s.clients[i], req)
  }

  predicate WaitingAt(client: Client, req: Request) {
    || req in client.queue
    || (client.phase.Watched? && client.phase.req == req)
    || (client.phase.Armed? && client.phase.req == req)
    || (client.phase.Retrying? && client.phase.req == req)
  }

  /** Nothing more will be done for a request, and what it asked for holds. */
  predicate Settled(store: Store, req: Request) {
    !Writable(req) || AtLeast(store, CellOf(req), req.version)
  }

  /** Each step tells the truth about the one request it speaks of: it committed what that carries,
      the store had at least its version, there was nothing to write, or the write was refused
      because of another and is tried again. Only a commit changes the store. */
  lemma EventsAreTrue(s: State, schedule: seq<nat>, c: nat)
    requires Fresh(s) && Schedules(schedule, |s.clients|) && c < |s.clients|
    ensures var before := Run(s, schedule);
            var after := Next(before, c);
            && before.history <= after.history && |after.history| <= |before.history| + 1
            && (|after.history| == |before.history| ==> after.store == before.store)
            && (|after.history| > |before.history| ==>
                  var event := after.history[|before.history|];
                  event.client == c && TellsTruth(before.store, after.store, event)
                  && (event.Aborted? ==> WaitingAt(after.clients[c], event.req)))
  {
    RunSound(s, schedule);
    assert Sound(Run(s, schedule).store, Run(s, schedule).clients[c]);
  }

  /** The server's side: a watch lasts until EXEC, and its client is told exactly of the commits of
      others to a namespace it watches. */
  lemma WatchersAreTold(s: State, schedule: seq<nat>, c: nat, i: nat)
    requires Fresh(s) && Schedules(schedule, |s.clients|) && c < |s.clients| && i < |s.clients|
    ensures var before := Run(s, schedule);
            var after := Next(before, c);
            var was, now := before.clients[i], after.clients[i];
            && (i != c ==>
                  && now.watching == was.watching && now.phase == was.phase && now.queue == was.queue
                  && (now.dirty <==> was.dirty || exists req :: after.history == before.history + [Committed(c, req)] && req.namespace in was.watching))
            && (i == c && !was.phase.Armed? ==> was.watching <= now.watching && now.dirty == was.dirty)
            && (i == c && was.phase.Armed? ==> now.watching == {} && !now.dirty)
  {
    var before := Run(s, schedule);
    if before.clients[c].phase.Armed? && !before.clients[c].dirty {
      var req := before.clients[c].phase.req;
      assert Next(before, c).history == before.history + [Committed(c, req)];
      forall other | before.history + [Committed(c, other)] == before.history + [Committed(c, req)] ensures other == req {
        assert (before.history + [Committed(c, other)])[|before.history|] == (before.history + [Committed(c, req)])[|before.history|];
      }
    } else {
      NoCommit(before, c);
    }
  }

  lemma NoCommit(s: State, c: nat)
    requires c < |s.clients| && !(s.clients[c].phase.Armed? && !s.clients[c].dirty)
    ensures forall req :: Next(s, c).history != s.history + [Committed(c, req)]
  {
    var after := Next(s, c).history;
    forall req ensures after != s.history + [Committed(c, req)] {
      assert (s.history + [Committed(c, req)])[|s.history|] == Committed(c, req);
    }
  }

  predicate TellsTruth(before: Store, after: Store, event: Event) {
    var cell := (event.req.namespace, event.req.key);
    match event
    case Committed(_, req) => cell in after && Fulfils(after[cell], req) && after == before[cell := after[cell]]
    case Stale(_, req) => after == before && cell in before && before[cell].version >= req.version
    case Refused(_, req) => after == before && !req.deleted && (req.payload == None || req.payload == Some(""))
    case Aborted(_, req) => after == before
  }

  /** A request leaves a client's hands only in the step that commits it, finds it stale or refuses
      it. */
  lemma NoRequestIsLost(s: State, schedule: seq<nat>, c: nat, req: Request)
    requires Fresh(s) && Schedules(schedule, |s.clients|) && c < |s.clients|
    requires WaitingAt(Run(s, schedule).clients[c], req)
    ensures var before := Run(s, schedule);
            var after := Next(before, c);
            || WaitingAt(after.clients[c], req)
            || after.history == before.history + [Committed(c, req)]
            || after.history == before.history + [Stale(c, req)]
            || after.history == before.history + [Refused(c, req)]
  {
    var me := Run(s, schedule).clients[c];
    assert |me.queue| > 0 ==> me.queue == [me.queue[0]] + me.queue[1..];
  }

  /** The item comes from the initial store or from a request for that cell. */
  ghost predicate ComesFrom(s: State, cell: Cell, item: Item) {
    || (cell in s.store && s.store[cell] == item)
    || exists req :: Waiting(s, req) && Writable(req) && CellOf(req) == cell && ItemOf(req) == item
  }

  /** How a later state of a run relates to the initial one. */
  ghost predicate Follows(s: State, now: State) {
    && (forall req :: Waiting(now, req) ==> Waiting(s, req))
    && (forall req :: Waiting(s, req) ==> Waiting(now, req) || Settled(now.store, req))
    && (forall cell <- s.store :: AtLeast(now.store, cell, s.store[cell].version))
    && (forall cell <- now.store :: ComesFrom(s, cell, now.store[cell]))
  }

  /** A step moves at most one request from waiting to settled, and never lowers an item. */
  ghost predicate StepFollows(before: State, after: State) {
    && (forall req :: Waiting(after, req) ==> Waiting(before, req))
    && (forall req :: Waiting(before, req) ==> Waiting(after, req) || Settled(after.store, req))
    && (forall cell <- before.store :: AtLeast(after.store, cell, before.store[cell].version))
    && (forall cell <- after.store :: ComesFrom(before, cell, after.store[cell]))
  }

  lemma WaitingOthers(before: State, after: State, c: nat, req: Request)
    requires c < |before.clients| == |after.clients|
    requires forall i :: 0 <= i < |before.clients| && i != c ==>
               (WaitingAt(after.clients[i], req) <==> WaitingAt(before.clients[i], req))
    requires WaitingAt(after.clients[c], req) ==> WaitingAt(before.clients[c], req)
    ensures Waiting(after, req) ==> Waiting(before, req)
    ensures Waiting(before, req) ==> Waiting(after, req) || WaitingAt(before.clients[c], req)
  {
    if i :| 0 <= i < |after.clients| && WaitingAt(after.clients[i], req) {
      assert WaitingAt(before.clients[i], req);
    }
    if i :| 0 <= i < |before.clients| && WaitingAt(before.clients[i], req) {
      assert i != c ==> WaitingAt(after.clients[i], req);
    }
  }

  lemma NextStepFollows(s: State, c: nat)
    requires c < |s.clients| && AllSound(s)
    ensures StepFollows(s, Next(s, c))
  {
    var after, me := Next(s, c), s.clients[c];
    assert Sound(s.store, me);
    forall req
      ensures Waiting(after, req) ==> Waiting(s, req)
      ensures Waiting(s, req) ==> Waiting(after, req) || Settled(after.store, req)
    {
      assert |me.queue| > 0 ==> me.queue == [me.queue[0]] + me.queue[1..];
      WaitingOthers(s, after, c, req);
      if WaitingAt(me, req) && !WaitingAt(after.clients[c], req) {
        assert Settled(after.store, req);
      }
    }
    if me.phase.Armed? {
      assert WaitingAt(me, me.phase.req);
      assert Waiting(s, me.phase.req);
    }
    forall cell | cell in after.store
      ensures ComesFrom(s, cell, after.store[cell])
    {
    }
  }

  lemma FollowsStep(s: State, now: State, after: State)
    requires Follows(s, now) && StepFollows(now, after)
    ensures Follows(s, after)
  {
    forall req | Waiting(s, req)
      ensures Waiting(after, req) || Settled(after.store, req)
    {
      assert Waiting(now, req) || Settled(now.store, req);
    }
    forall cell | cell in after.store
      ensures ComesFrom(s, cell, after.store[cell])
    {
      assert ComesFrom(now, cell, after.store[cell]);
      if cell in now.store && now.store[cell] == after.store[cell] {
        assert ComesFrom(s, cell, now.store[cell]);
      }
    }
  }

  lemma {:induction false} RunFollows(s: State, schedule: seq<nat>)
    requires Fresh(s) && Schedules(schedule, |s.clients|)
    ensures Follows(s, Run(s, schedule))
  {
    if |schedule| > 0 {
      var n := |schedule| - 1;
      var now := Run(s, schedule[..n]);
      RunFollows(s, schedule[..n]);
      RunSound(s, schedule[..n]);
      NextStepFollows(now, schedule[n]);
      FollowsStep(s, now, Next(now, schedule[n]));
    }
  }

  /** Requested for this cell, initially, by some client, with something to write. */
  ghost predicate Wanted(s: State, cell: Cell, req: Request) {
    && Waiting(s, req) && cell == (req.namespace, req.key)
    && (req.deleted || (req.payload.Some? && req.payload.value != ""))
  }

  /** When every client has finished, whatever the interleaving was, an item is there if it
      was there initially or was requested, its version is the largest of the initial and all
      requested ones, and the item, if it changed, is what a request of that version carries. */
  lemma FinalVersionIsLargest(s: State, schedule: seq<nat>, cell: Cell)
    requires Fresh(s) && Schedules(schedule, |s.clients|)
    requires forall i :: 0 <= i < |s.clients| ==> !Busy(Run(s, schedule).clients[i])
    ensures var final := Run(s, schedule).store;
            && (cell in final <==> cell in s.store || exists req :: Wanted(s, cell, req))
            && (cell in final && !(cell in s.store && s.store[cell] == final[cell]) ==>
                  exists req :: Wanted(s, cell, req) && Fulfils(final[cell], req))
            && (cell in s.store ==> final[cell].version >= s.store[cell].version)
            && (forall req :: Wanted(s, cell, req) ==> final[cell].version >= req.version)
  {
    RunFollows(s, schedule);
    var now := Run(s, schedule);
    assert forall req :: !Waiting(now, req);
    if cell in now.store && !(cell in s.store && s.store[cell] == now.store[cell]) {
      var req :| Waiting(s, req) && Writable(req) && CellOf(req) == cell && ItemOf(req) == now.store[cell];
      assert Wanted(s, cell, req) && Fulfils(now.store[cell], req);
    }
    forall req | Wanted(s, cell, req) ensures AtLeast(now.store, cell, req.version) {
      assert Settled(now.store, req);
    }
  }

  // ----- The number of retries -----

  function Aborts(h: seq<Event>, c: nat): nat {
    if |h| == 0 then 0
    else Aborts(h[..|h| - 1], c) + if h[|h| - 1].Aborted? && h[|h| - 1].client == c then 1 else 0
  }

  function CommitsBy(h: seq<Event>, c: nat): nat {
    if |h| == 0 then 0
    else CommitsBy(h[..|h| - 1], c) + if h[|h| - 1].Committed? && h[|h| - 1].client == c then 1 else 0
  }

  function Commits(h: seq<Event>): nat {
    if |h| == 0 then 0 else Commits(h[..|h| - 1]) + if h[|h| - 1].Committed? then 1 else 0
  }

  function AllAborts(h: seq<Event>): nat {
    if |h| == 0 then 0 else AllAborts(h[..|h| - 1]) + if h[|h| - 1].Aborted? then 1 else 0
  }

  /** Every aborted EXEC of `c`, and the one to come if `c` has been told of a write, is paid
      for by a write another client committed since. */
  predicate Charged(s: State, c: nat)
    requires c < |s.clients|
  {
    Aborts(s.history, c) + CommitsBy(s.history, c) + (if s.clients[c].dirty then 1 else 0) <= Commits(s.history)
  }

  predicate AllCharged(s: State) {
    forall c :: 0 <= c < |s.clients| ==> Charged(s, c)
  }

  lemma NextKeepsCharged(s: State, c: nat)
    requires c < |s.clients| && AllCharged(s)
    ensures AllCharged(Next(s, c))
  {
    var after := Next(s, c);
    assert after.history != s.history ==> after.history[..|after.history| - 1] == s.history;
    forall i | 0 <= i < |s.clients|
      ensures Charged(after, i)
    {
      assert Charged(s, i);
    }
  }

  function Owed(h: seq<Event>, c: nat): nat {
    Aborts(h, c) + CommitsBy(h, c)
  }

  function OwedBelow(h: seq<Event>, n: nat): nat {
    if n == 0 then 0 else OwedBelow(h, n - 1) + Owed(h, n - 1)
  }

  predicate ClientsBelow(h: seq<Event>, n: nat) {
    forall i :: 0 <= i < |h| ==> h[i].client < n
  }

  lemma {:induction false} OwedBump(init: seq<Event>, last: Event, n: nat)
    ensures OwedBelow(init + [last], n) == OwedBelow(init, n)
              + if last.client < n && (last.Aborted? || last.Committed?) then 1 else 0
  {
    if n > 0 {
      OwedBump(init, last, n - 1);
      assert (init + [last])[..|init|] == init;
    }
  }

  lemma {:induction false} OwedNothing(n: nat)
    ensures OwedBelow([], n) == 0
  {
    if n > 0 {
      OwedNothing(n - 1);
    }
  }

  lemma {:induction false} OwedBounded(h: seq<Event>, n: nat, bound: nat)
    requires forall c: nat :: c < n ==> Owed(h, c) <= bound
    ensures OwedBelow(h, n) <= n * bound
  {
    if n > 0 {
      OwedBounded(h, n - 1, bound);
      assert n * bound == (n - 1) * bound + bound;
    }
  }

  /** Counting by client and counting all at once agree. */
  lemma {:induction false} CountsAddUp(h: seq<Event>, n: nat)
    requires ClientsBelow(h, n)
    ensures OwedBelow(h, n) == AllAborts(h) + Commits(h)
  {
    if |h| == 0 {
      OwedNothing(n);
    } else {
      var init, last := h[..|h| - 1], h[|h| - 1];
      assert h == init + [last];
      CountsAddUp(init, n);
      OwedBump(init, last, n);
    }
  }

  lemma AbortsBounded(s: State)
    requires AllCharged(s) && ClientsBelow(s.history, |s.clients|)
    ensures AllAborts(s.history) + Commits(s.history) <= |s.clients| * Commits(s.history)
  {
    CountsAddUp(s.history, |s.clients|);
    forall c: nat | c < |s.clients|
      ensures Owed(s.history, c) <= Commits(s.history)
    {
      assert Charged(s, c);
    }
    OwedBounded(s.history, |s.clients|, Commits(s.history));
  }

  // ----- The length of a run -----

  /** `w` summed over the clients. */
  function Sum(clients: seq<Client>, w: Client -> nat): nat {
    if |clients| == 0 then 0 else Sum(clients[..|clients| - 1], w) + w(clients[|clients| - 1])
  }

  /** Requests a client has not settled. */
  function Load(client: Client): nat {
    |client.queue| + if client.phase.Idle? then 0 else 1
  }

  /** Steps a client still needs if nothing is aborted. */
  function Distance(client: Client): nat {
    3 * |client.queue| +
    match client.phase
    case Idle => 0
    case Retrying(_) => 3
    case Watched(_) => 2
    case Armed(_, _) => 1
  }

  lemma {:induction false} SumChange(before: seq<Client>, after: seq<Client>, w: Client -> nat, c: nat)
    requires c < |before| == |after|
    requires forall i :: 0 <= i < |before| && i != c ==> w(after[i]) == w(before[i])
    ensures Sum(after, w) + w(before[c]) == Sum(before, w) + w(after[c])
  {
    var n := |before| - 1;
    if c < n {
      SumChange(before[..n], after[..n], w, c);
    } else {
      SumSame(before[..n], after[..n], w);
    }
  }

  lemma {:induction false} SumSame(before: seq<Client>, after: seq<Client>, w: Client -> nat)
    requires |before| == |after| && forall i :: 0 <= i < |before| ==> w(after[i]) == w(before[i])
    ensures Sum(after, w) == Sum(before, w)
  {
    if |before| > 0 {
      SumSame(before[..|before| - 1], after[..|after| - 1], w);
    }
  }

  /** Steps of a schedule whose client had something to do. */
  function Effective(s: State, schedule: seq<nat>): nat
    requires Schedules(schedule, |s.clients|)
  {
    if |schedule| == 0 then 0 else
      var n := |schedule| - 1;
      Effective(s, schedule[..n]) + if Busy(Run(s, schedule[..n]).clients[schedule[n]]) then 1 else 0
  }

  lemma HistoryGrows(s: State, c: nat)
    requires c < |s.clients|
    ensures var h := Next(s, c).history;
            h == s.history || (h == s.history + [h[|h| - 1]] && h[|h| - 1].client == c && h[..|h| - 1] == s.history)
  {
  }

  lemma NextLoad(s: State, c: nat)
    requires c < |s.clients|
    ensures Commits(Next(s, c).history) + Sum(Next(s, c).clients, Load) <= Commits(s.history) + Sum(s.clients, Load)
  {
    HistoryGrows(s, c);
    SumChange(s.clients, Next(s, c).clients, Load, c);
  }

  lemma NextDistance(s: State, c: nat)
    requires c < |s.clients|
    ensures var after := Next(s, c);
            (if Busy(s.clients[c]) then 1 else 0) + Sum(after.clients, Distance) + 3 * AllAborts(s.history)
            <= Sum(s.clients, Distance) + 3 * AllAborts(after.history)
  {
    HistoryGrows(s, c);
    SumChange(s.clients, Next(s, c).clients, Distance, c);
  }

  lemma {:induction false} RunCharged(s: State, schedule: seq<nat>)
    requires Fresh(s) && Schedules(schedule, |s.clients|)
    ensures AllCharged(Run(s, schedule)) && ClientsBelow(Run(s, schedule).history, |s.clients|)
  {
    if |schedule| > 0 {
      var n := |schedule| - 1;
      RunCharged(s, schedule[..n]);
      NextKeepsCharged(Run(s, schedule[..n]), schedule[n]);
      HistoryGrows(Run(s, schedule[..n]), schedule[n]);
    }
  }

  lemma {:induction false} RunCosts(s: State, schedule: seq<nat>)
    requires Fresh(s) && Schedules(schedule, |s.clients|)
    ensures var now := Run(s, schedule);
            && Commits(now.history) + Sum(now.clients, Load) <= Sum(s.clients, Load)
            && Effective(s, schedule) + Sum(now.clients, Distance) <= Sum(s.clients, Distance) + 3 * AllAborts(now.history)
  {
    if |schedule| > 0 {
      var n := |schedule| - 1;
      RunCosts(s, schedule[..n]);
      NextLoad(Run(s, schedule[..n]), schedule[n]);
      NextDistance(Run(s, schedule[..n]), schedule[n]);
    }
  }

  lemma {:induction false} FreshDistance(clients: seq<Client>)
    requires forall i :: 0 <= i < |clients| ==> clients[i].phase.Idle?
    ensures Sum(clients, Distance) == 3 * Sum(clients, Load)
  {
    if |clients| > 0 {
      FreshDistance(clients[..|clients| - 1]);
    }
  }

  lemma MulStep(n: nat, x: nat)
    requires n > 0
    ensures n * x == (n - 1) * x + x
  {
  }

  lemma {:induction false} MulMonotone(k: nat, a: nat, b: nat)
    requires a <= b
    ensures k * a <= k * b
  {
    if k > 0 {
      MulMonotone(k - 1, a, b);
      MulStep(k, a);
      MulStep(k, b);
    }
  }

  /** The arithmetic of the bound: `steps` and `aborts` in terms of the requests. */
  lemma Bound(n: nat, r: nat, commits: nat, aborts: nat, steps: nat)
    requires n > 0 && commits <= r && aborts + commits <= n * commits && steps <= 3 * r + 3 * aborts
    ensures aborts <= (n - 1) * r && steps <= 3 * (n * r)
  {
    MulStep(n, commits);
    MulStep(n, r);
    MulMonotone(n - 1, commits, r);
  }

  /** No livelock: with n clients and R requests, whatever the interleaving, at most (n - 1) R
      EXECs are aborted and at most 3 n R steps do anything. */
  lemma RetriesAreBounded(s: State, schedule: seq<nat>)
    requires Fresh(s) && Schedules(schedule, |s.clients|) && |s.clients| > 0
    ensures AllAborts(Run(s, schedule).history) <= (|s.clients| - 1) * Sum(s.clients, Load)
    ensures Effective(s, schedule) <= 3 * (|s.clients| * Sum(s.clients, Load))
  {
    var now := Run(s, schedule);
    RunCosts(s, schedule);
    RunCharged(s, schedule);
    AbortsBounded(now);
    FreshDistance(s.clients);
    Bound(|s.clients|, Sum(s.clients, Load), Commits(now.history), AllAborts(now.history), Effective(s, schedule));
  }

  // ----- The steps as the code takes them -----

  /** One server and the connections to it. The three methods are the synchronous segments
      of `upsert`; a client's `queue` holds the calls its store wrapper has lined up. */
  class Server {
    var store: Store
    var clients: seq<Client>
    var history: seq<Event>

    function View(): State
      reads this
    {
      State(store, clients, history)
    }

    constructor (store: Store, queues: seq<seq<Request>>)
      ensures Fresh(View()) && this.store == store && |clients| == |queues|
      ensures forall i :: 0 <= i < |queues| ==> clients[i].queue == queues[i]
    {
      this.store := store;
      clients := seq(|queues|, i requires 0 <= i < |queues| => Client(Idle, {}, false, queues[i]));
      history := [];
    }

    /** `upsert` up to the read it issues. */
    method Upsert(c: nat, req: Request)
      requires c < |clients|
      modifies this`clients
      ensures View() == Watch(old(View()), c, req, old(clients[c].queue))
    {
      var me := clients[c];
      clients := clients[c := me.(watching := me.watching + {req.namespace}, phase := Watched(req))];
    }

    /** The callback of the read. */
    method OldItem(c: nat, req: Request)
      requires c < |clients|
      modifies this`clients, this`history
      ensures View() == ReadOld(old(View()), c, req)
    {
      if CellOf(req) in store {
        var deserializedOld := store[CellOf(req)];
        if deserializedOld.version >= req.version {
          clients := clients[c := clients[c].(phase := Idle)];
          history := history + [Stale(c, req)];
          return;
        }
      }
      if req.deleted {
        clients := clients[c := clients[c].(phase := Armed(req, Item(req.version, None)))];
      } else if req.payload.Some? && req.payload.value != "" {
        clients := clients[c := clients[c].(phase := Armed(req, Item(req.version, req.payload)))];
      } else {
        clients := clients[c := clients[c].(phase := Idle)];
        history := history + [Refused(c, req)];
      }
    }

    /** EXEC at the server, which marks the other watchers of the hash one by one, and the
        callback that retries when the reply is null. */
    method ExecReply(c: nat, req: Request, item: Item)
      requires c < |clients|
      modifies this
      ensures View() == Exec(old(View()), c, req, item)
    {
      var queue := clients[c].queue;
      if clients[c].dirty {
        clients := clients[c := Client(Retrying(req), {}, false, queue)];
        history := history + [Aborted(c, req)];
      } else {
        store := store[CellOf(req) := item];
        ghost var before := clients;
        for i := 0 to |clients|
          invariant |clients| == |before|
          invariant forall j :: 0 <= j < i ==> clients[j] == Touch(before, req.namespace)[j]
          invariant forall j :: i <= j < |clients| ==> clients[j] == before[j]
          invariant history == old(history) && store == old(store)[CellOf(req) := item]
        {
          if req.namespace in clients[i].watching {
            clients := clients[i := clients[i].(dirty := true)];
          }
        }
        assert clients == Touch(before, req.namespace);
        clients := clients[c := Client(Idle, {}, false, queue)];
        history := history + [Committed(c, req)];
      }
    }

    /** The next segment of client `c`. */
    method Step(c: nat)
      requires c < |clients|
      modifies this
      ensures View() == Next(old(View()), c)
    {
      match clients[c].phase
      case Idle =>
        if |clients[c].queue| > 0 {
          var req, rest := clients[c].queue[0], clients[c].queue[1..];
          clients := clients[c := clients[c].(queue := rest)];
          Upsert(c, req);
        }
      case Retrying(req) => Upsert(c, req);
      case Watched(req) => OldItem(c, req);
      case Armed(req, item) => ExecReply(c, req, item);
    }
  }
}
