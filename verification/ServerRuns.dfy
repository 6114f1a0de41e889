/** The life of connections in a single-loop server: src/net/source/tcp_server.cc, the lifecycle
    part of src/net/source/tcp_connection.cc and the dispatch of src/net/source/poll_handle.cc.

    One loop thread polls, dispatches the callbacks of each reported handle, and drains the
    functors queued meanwhile.  User callbacks may send on or shut down any connection at any
    point, so those calls are steps of their own.  Safe says that the assertions the source makes
    in a step hold; a run goes on only through safe steps. */
module ServerRuns {
  import opened Common
  import opened ConnStates
  import opened PollHandles

  type ConnId = nat

  datatype Phase = Polling | Dispatching | Draining

  datatype Functor =
    | Establish(id: ConnId)    // queued by the connection's constructor
    | Destroy(id: ConnId)      // queued by handle_close

  datatype Event = Event(id: ConnId, revents: bv16)

  datatype Conn = Conn(
    state: ConnState,
    registered: bool,          // it has a poll handle
    reading: bool,
    writing: bool,
    erased: nat,               // times erased from connections_map_
    seen: seq<ConnState>)      // the state at each call of connection_cb_

  datatype State = State(
    phase: Phase,
    conns: map<ConnId, Conn>,
    server: set<ConnId>,       // connections_map_, whose names are distinct
    nextId: ConnId,
    active: seq<Event>,        // handles still to dispatch
    cur: Event,                // the event handle_event is working on
    at: nat,                   // which of its four tests comes next; DONE when it has returned
    queue: seq<Functor>,       // pending functors
    batch: seq<Functor>)       // the snapshot being drained

  datatype Action =
    | Poll(events: seq<Event>)
    | Accept
    | StartEvent
    | RunCallback(readResult: int, drains: bool)
    | EndDispatch
    | RunFunctor
    | EndDrain
    | UserSend(id: ConnId, leaves: bool)   // leaves: some bytes had to be queued
    | UserShotdown(id: ConnId)

  const INITIAL := State(Polling, map[], {}, 1, [], Event(0, 0), DONE, [], [])

  /** poll(2) reports each handle once, and only those that want something. */
  predicate Reportable(s: State, events: seq<Event>) {
    && (forall i :: 0 <= i < |events| ==>
          events[i].id in s.conns && s.conns[events[i].id].registered
          && (s.conns[events[i].id].reading || s.conns[events[i].id].writing))
    && (forall i, j :: 0 <= i < j < |events| ==> events[i].id != events[j].id)
  }

  predicate Enabled(s: State, a: Action) {
    match a
    case Poll(events) => s.phase == Polling && Reportable(s, events)
    case Accept => s.phase == Dispatching && s.at == DONE
    case StartEvent => s.phase == Dispatching && s.at == DONE && s.active != []
    case RunCallback(_, _) => s.phase == Dispatching && s.at < DONE && s.cur.id in s.conns
    case EndDispatch => s.phase == Dispatching && s.at == DONE && s.active == []
    case RunFunctor => s.phase == Draining && s.batch != [] && s.batch[0].id in s.conns
    case EndDrain => s.phase == Draining && s.batch == []
    case UserSend(id, _) => s.phase != Polling && id in s.conns
    case UserShotdown(id) => s.phase != Polling && id in s.conns
  }

  /** The next test leads to handle_close. */
  predicate Closes(s: State, readResult: int)
    requires s.at < DONE
  {
    Raises(s.cur.revents, Nth(s.at)) && (Nth(s.at) == OnClose || (Nth(s.at) == OnRead && readResult == 0))
  }

  /** The assertions of handle_close, remove_connection_in_loop, connection_estabalished and
      remove_handle. */
  predicate Safe(s: State, a: Action)
    requires Enabled(s, a)
  {
    match a
    case RunCallback(readResult, _) =>
      Closes(s, readResult) ==>
        && (s.conns[s.cur.id].state == Connected || s.conns[s.cur.id].state == Disconnecting)
        && s.cur.id in s.server
    case RunFunctor =>
      var c := s.conns[s.batch[0].id];
      (match s.batch[0]
       case Establish(_) => c.state == Connecting
       case Destroy(_) => c.registered && !c.reading && !c.writing)
    case _ => true
  }

  function Update(s: State, id: ConnId, c: Conn): State { s.(conns := s.conns[id := c]) }

  function HandleClose(s: State, id: ConnId): State
    requires id in s.conns
  {
    var c := s.conns[id];
    Update(s, id, c.(reading := false, writing := false, erased := c.erased + if id in s.server then 1 else 0))
      .(server := s.server - {id}, queue := s.queue + [Destroy(id)])
  }

  function Apply(s: State, a: Action): State
    requires Enabled(s, a)
  {
    match a
    case Poll(events) => s.(phase := Dispatching, active := events)
    case Accept =>
      Update(s, s.nextId, Conn(Connecting, false, false, false, 0, []))
        .(server := s.server + {s.nextId}, nextId := s.nextId + 1, queue := s.queue + [Establish(s.nextId)])
    case StartEvent =>
      s.(cur := s.active[0], active := s.active[1..], at := 0)
    case RunCallback(readResult, drains) =>
      var t := s.(at := s.at + 1);
      var c := s.conns[s.cur.id];
      if Closes(s, readResult) then HandleClose(t, s.cur.id)
      else if Raises(s.cur.revents, OnWrite) && Nth(s.at) == OnWrite && drains then
        Update(t, s.cur.id, c.(writing := false))
      else t
    case EndDispatch => s.(phase := Draining, batch := s.queue, queue := [])
    case RunFunctor =>
      var t := s.(batch := s.batch[1..]);
      var c := s.conns[s.batch[0].id];
      (match s.batch[0]
       case Establish(id) =>
         Update(t, id, c.(registered := true, reading := true, state := Connected, seen := c.seen + [Connected]))
       case Destroy(id) =>
         Update(t, id, c.(registered := false, state := Disconnected, seen := c.seen + [Disconnected])))
    case EndDrain => s.(phase := Polling)
    case UserSend(id, leaves) =>
      if s.conns[id].state == Connected && leaves then Update(s, id, s.conns[id].(writing := true)) else s
    case UserShotdown(id) =>
      if s.conns[id].state == Connected then Update(s, id, s.conns[id].(state := Disconnecting)) else s
  }

  // ------------------------------------------------------------------
  // What every safe step keeps
  // ------------------------------------------------------------------

  datatype Stage = New | Open | Closing | Gone

  function StageOf(c: Conn): Stage {
    if c.state == Connecting then New
    else if c.state == Disconnected then Gone
    else if c.reading then Open
    else Closing
  }

  /** What a connection looks like at each stage. */
  predicate Looks(c: Conn) {
    match StageOf(c)
    case New => !c.registered && !c.reading && !c.writing && c.seen == [] && c.erased == 0
    case Open => c.registered && c.seen == [Connected] && c.erased == 0
    case Closing => c.registered && c.seen == [Connected] && c.erased == 1
    case Gone => !c.registered && !c.reading && !c.writing && c.seen == [Connected, Disconnected] && c.erased == 1
  }

  predicate Queued(s: State, f: Functor) { f in s.queue || f in s.batch }

  /** And where the server and the loop know it from. */
  predicate Placed(s: State, id: ConnId)
    requires id in s.conns
  {
    var stage := StageOf(s.conns[id]);
    && Looks(s.conns[id])
    && (id in s.server <==> stage == New || stage == Open)
    && (Queued(s, Establish(id)) <==> stage == New)
    && (Queued(s, Destroy(id)) <==> stage == Closing)
  }

  predicate Dispatched(s: State) {
    && (s.phase != Dispatching ==> s.active == [] && s.at == DONE)
    && (forall i :: 0 <= i < |s.active| ==>
          s.active[i].id in s.conns && StageOf(s.conns[s.active[i].id]) == Open)
    && (forall i, j :: 0 <= i < j < |s.active| ==> s.active[i].id != s.active[j].id)
    && (s.at < DONE ==>
          && s.cur.id in s.conns
          && (StageOf(s.conns[s.cur.id]) == Open || StageOf(s.conns[s.cur.id]) == Closing)
          && (forall i :: 0 <= i < |s.active| ==> s.active[i].id != s.cur.id))
  }

  /** What closed the connection before the read test is the close test of the same event. */
  predicate InTestOrder(s: State) {
    && s.at <= DONE
    && (s.at <= 1 ==> s.cur.id in s.server)
    && (s.at == 2 ==> (s.cur.id in s.server <==> !Raises(s.cur.revents, OnClose)))
  }

  predicate QueuesFit(s: State) {
    && Distinct(s.queue) && Distinct(s.batch)
    && (s.phase != Dispatching ==> s.queue == [])
    && (s.phase != Draining ==> s.batch == [])
    && (forall f :: f in s.queue ==> f.id in s.conns)
    && (forall f :: f in s.batch ==> f.id in s.conns)
    && (forall id :: id in s.conns ==> id < s.nextId)
  }

  ghost predicate Inv(s: State) {
    && QueuesFit(s) && Dispatched(s) && InTestOrder(s)
    && forall id :: id in s.conns ==> Placed(s, id)
  }

  // ------------------------------------------------------------------
  // Which steps are safe
  // ------------------------------------------------------------------

  /** poll reported POLLHUP without POLLIN but with POLLPRI or POLLRDHUP, and the read that follows
      the close callback finds the end of the stream: handle_close would run twice. */
  predicate ClosesTwice(s: State, a: Action) {
    && a.RunCallback? && s.at == 2 && a.readResult == 0
    && Raises(s.cur.revents, OnClose) && Raises(s.cur.revents, OnRead)
  }

  /** A send after the close left bytes behind, so the handle to be removed wants POLLOUT again. */
  predicate RemovesWanted(s: State, a: Action) {
    a.RunFunctor? && s.batch != [] && s.batch[0].Destroy?
    && s.batch[0].id in s.conns && s.conns[s.batch[0].id].writing
  }

  /** In every state a run reaches, those are exactly the steps at which an assertion of the source
      fails; in particular a connection is otherwise erased with n == 1. */
  lemma SafeExactly(s: State, a: Action)
    requires Inv(s) && Enabled(s, a)
    ensures Safe(s, a) <==> !ClosesTwice(s, a) && !RemovesWanted(s, a)
  {
  }

  // ------------------------------------------------------------------
  // Every safe step keeps the invariant
  // ------------------------------------------------------------------

  lemma PollKeepsInv(s: State, events: seq<Event>)
    requires Inv(s) && Enabled(s, Poll(events))
    ensures Inv(Apply(s, Poll(events)))
  {
  }

  lemma AcceptKeepsInv(s: State)
    requires Inv(s) && Enabled(s, Accept)
    ensures Inv(Apply(s, Accept))
  {
  }

  lemma StartKeepsInv(s: State)
    requires Inv(s) && Enabled(s, StartEvent)
    ensures Inv(Apply(s, StartEvent))
  {
  }

  lemma CloseKeepsInv(s: State, readResult: int)
    requires Inv(s) && Enabled(s, RunCallback(readResult, false)) && Closes(s, readResult)
    requires Safe(s, RunCallback(readResult, false))
    ensures Inv(HandleClose(s.(at := s.at + 1), s.cur.id))
  {
    var t := HandleClose(s.(at := s.at + 1), s.cur.id);
    assert Placed(s, s.cur.id);
    forall x | x in t.conns ensures Placed(t, x) { assert Placed(s, x); }
  }

  lemma PassKeepsInv(s: State, readResult: int)
    requires Inv(s) && Enabled(s, RunCallback(readResult, false)) && !Closes(s, readResult)
    ensures Inv(s.(at := s.at + 1))
  {
    forall x | x in s.conns ensures Placed(s.(at := s.at + 1), x) { assert Placed(s, x); }
  }

  lemma DrainKeepsInv(s: State)
    requires Inv(s) && s.cur.id in s.conns && s.at == DONE && s.phase == Dispatching
    requires StageOf(s.conns[s.cur.id]) == Open || StageOf(s.conns[s.cur.id]) == Closing
    ensures Inv(Update(s, s.cur.id, s.conns[s.cur.id].(writing := false)))
  {
    var t := Update(s, s.cur.id, s.conns[s.cur.id].(writing := false));
    forall x | x in t.conns ensures Placed(t, x) { assert Placed(s, x); }
  }

  lemma CallbackKeepsInv(s: State, readResult: int, drains: bool)
    requires Inv(s) && Enabled(s, RunCallback(readResult, drains)) && Safe(s, RunCallback(readResult, drains))
    ensures Inv(Apply(s, RunCallback(readResult, drains)))
  {
    if Closes(s, readResult) {
      CloseKeepsInv(s, readResult);
    } else {
      PassKeepsInv(s, readResult);
      if s.at == 3 && Raises(s.cur.revents, OnWrite) && drains { DrainKeepsInv(s.(at := s.at + 1)); }
    }
  }

  lemma EndDispatchKeepsInv(s: State)
    requires Inv(s) && Enabled(s, EndDispatch)
    ensures Inv(Apply(s, EndDispatch))
  {
  }

  lemma FunctorKeepsInv(s: State)
    requires Inv(s) && Enabled(s, RunFunctor) && Safe(s, RunFunctor)
    ensures Inv(Apply(s, RunFunctor))
  {
    var t := Apply(s, RunFunctor);
    var f := s.batch[0];
    assert f in s.batch && Placed(s, f.id);
    DistinctTail(s.batch);
    assert forall g :: g in s.batch <==> g == f || g in s.batch[1..];
    forall x | x in t.conns ensures Placed(t, x) { assert Placed(s, x); }
  }

  lemma UserKeepsInv(s: State, a: Action)
    requires Inv(s) && Enabled(s, a) && (a.UserSend? || a.UserShotdown? || a.EndDrain?)
    ensures Inv(Apply(s, a))
  {
    var t := Apply(s, a);
    forall x | x in t.conns ensures Placed(t, x) { assert Placed(s, x); }
  }

  lemma StepKeepsInv(s: State, a: Action)
    requires Inv(s) && Enabled(s, a) && Safe(s, a)
    ensures Inv(Apply(s, a))
  {
    match a
    case Poll(events) => PollKeepsInv(s, events);
    case Accept => AcceptKeepsInv(s);
    case StartEvent => StartKeepsInv(s);
    case RunCallback(readResult, drains) => CallbackKeepsInv(s, readResult, drains);
    case EndDispatch => EndDispatchKeepsInv(s);
    case RunFunctor => FunctorKeepsInv(s);
    case _ => UserKeepsInv(s, a);
  }

  // ------------------------------------------------------------------
  // What a step does, by the flags and numbers of the source
  // ------------------------------------------------------------------

  /** The step is the test of the event that closes the connection: POLLHUP without POLLIN, or
      input of which nothing can be read. */
  predicate ClosesNow(s: State, a: Action, id: ConnId) {
    a.RunCallback? && s.cur.id == id &&
    ((s.at == 1 && s.cur.revents & 0x11 == 0x10) || (s.at == 2 && s.cur.revents & 0x2003 != 0 && a.readResult == 0))
  }

  predicate DrainsNow(s: State, a: Action, id: ConnId) {
    a.RunCallback? && s.cur.id == id && s.at == 3 && s.cur.revents & 4 != 0 && a.drains
  }

  predicate Runs(s: State, a: Action, f: Functor) { a.RunFunctor? && s.batch != [] && s.batch[0] == f }

  /** What each step makes of each connection. */
  lemma ConnExactly(s: State, a: Action, id: ConnId)
    requires Inv(s) && Enabled(s, a) && Safe(s, a) && id in s.conns
    ensures id in Apply(s, a).conns
    ensures var c := s.conns[id];
            Apply(s, a).conns[id] ==
            if ClosesNow(s, a, id) then c.(reading := false, writing := false, erased := 1)
            else if DrainsNow(s, a, id) then c.(writing := false)
            else if Runs(s, a, Establish(id)) then
              c.(registered := true, reading := true, state := Connected, seen := [Connected])
            else if Runs(s, a, Destroy(id)) then
              c.(registered := false, state := Disconnected, seen := [Connected, Disconnected])
            else if a == UserSend(id, true) && c.state == Connected then c.(writing := true)
            else if a == UserShotdown(id) && c.state == Connected then c.(state := Disconnecting)
            else c
  {
    assert Placed(s, id);
    if a.RunCallback? {
      RaisesExactly(s.cur.revents);
    } else if a.RunFunctor? {
      assert s.batch[0] in s.batch && Placed(s, s.batch[0].id);
    }
  }

  /** And of the connection map and the queue: accepting adds a new connection and queues its
      establishment, closing takes it out and queues its removal. */
  lemma MapExactly(s: State, a: Action)
    requires Inv(s) && Enabled(s, a) && Safe(s, a)
    ensures var t := Apply(s, a);
            var closes := a.RunCallback? && ClosesNow(s, a, s.cur.id);
            && t.conns.Keys == (if a.Accept? then s.conns.Keys + {s.nextId} else s.conns.Keys)
            && (a.Accept? ==> t.conns[s.nextId] == Conn(Connecting, false, false, false, 0, []))
            && t.nextId == (if a.Accept? then s.nextId + 1 else s.nextId)
            && t.server == (if a.Accept? then s.server + {s.nextId}
                            else if closes then s.server - {s.cur.id} else s.server)
            && t.queue == (if a.Accept? then s.queue + [Establish(s.nextId)]
                           else if closes then s.queue + [Destroy(s.cur.id)]
                           else if a.EndDispatch? then [] else s.queue)
  {
    RaisesExactly(s.cur.revents);
    if a.RunFunctor? { assert s.batch[0] in s.batch; }
  }

  /** And of the loop: the events as polled, each through the four tests, then the queue as it
      stood. */
  lemma LoopExactly(s: State, a: Action)
    requires Enabled(s, a)
    ensures var t := Apply(s, a);
            && t.batch == (if a.EndDispatch? then s.queue else if a.RunFunctor? then s.batch[1..] else s.batch)
            && t.active == (if a.Poll? then a.events else if a.StartEvent? then s.active[1..] else s.active)
            && t.cur == (if a.StartEvent? then s.active[0] else s.cur)
            && t.at == (if a.StartEvent? then 0 else if a.RunCallback? then s.at + 1 else s.at)
            && t.phase == (if a.Poll? then Dispatching else if a.EndDispatch? then Draining
                           else if a.EndDrain? then Polling else s.phase)
  {
  }

  // ------------------------------------------------------------------
  // Whole runs
  // ------------------------------------------------------------------

  predicate Legal(s: State, run: seq<Action>)
    decreases |run|
  {
    run == [] || (Enabled(s, run[0]) && Safe(s, run[0]) && Legal(Apply(s, run[0]), run[1..]))
  }

  function Exec(s: State, run: seq<Action>): State
    requires Legal(s, run)
    decreases |run|
  {
    if run == [] then s else Exec(Apply(s, run[0]), run[1..])
  }

  lemma {:induction false} RunKeepsInv(s: State, run: seq<Action>)
    requires Inv(s) && Legal(s, run)
    ensures Inv(Exec(s, run))
    decreases |run|
  {
    if run == [] {
    } else {
      StepKeepsInv(s, run[0]);
      RunKeepsInv(Apply(s, run[0]), run[1..]);
    }
  }

  ghost predicate Reachable(s: State) {
    exists run :: Legal(INITIAL, run) && s == Exec(INITIAL, run)
  }

  lemma ReachableInv(s: State)
    requires Reachable(s)
    ensures Inv(s)
  {
    var run :| Legal(INITIAL, run) && s == Exec(INITIAL, run);
    RunKeepsInv(INITIAL, run);
  }

  function Rank(state: ConnState): nat {
    match state
    case Connecting => 0
    case Connected => 1
    case Disconnecting => 2
    case Disconnected => 3
  }

  lemma StepMovesForward(s: State, a: Action, id: ConnId)
    requires Inv(s) && Enabled(s, a) && Safe(s, a) && id in s.conns
    ensures id in Apply(s, a).conns && Rank(s.conns[id].state) <= Rank(Apply(s, a).conns[id].state)
    ensures s.conns[id].seen <= Apply(s, a).conns[id].seen
  {
    if a.RunFunctor? { assert Placed(s, s.batch[0].id); }
  }

  /** A connection only moves forward: connecting, connected, disconnecting, disconnected. */
  lemma {:induction false} MovesForward(s: State, run: seq<Action>, id: ConnId)
    requires Inv(s) && Legal(s, run) && id in s.conns
    ensures id in Exec(s, run).conns && Rank(s.conns[id].state) <= Rank(Exec(s, run).conns[id].state)
    ensures s.conns[id].seen <= Exec(s, run).conns[id].seen
    decreases |run|
  {
    if run == [] {
    } else {
      StepKeepsInv(s, run[0]);
      StepMovesForward(s, run[0], id);
      MovesForward(Apply(s, run[0]), run[1..], id);
    }
  }

  /** In every state of every run a connection has been erased at most once, and is either still
      in the map or erased; its callback has seen connected first and disconnected last; and it
      is gone for the server exactly when its close has been handled. */
  lemma LifecycleHolds(run: seq<Action>, id: ConnId)
    requires Legal(INITIAL, run) && id in Exec(INITIAL, run).conns
    ensures var s := Exec(INITIAL, run); var c := s.conns[id];
            && c.erased == (if id in s.server then 0 else 1)
            && c.seen <= [Connected, Disconnected]
            && (c.state == Disconnected <==> c.seen == [Connected, Disconnected])
            && (c.state == Connecting <==> c.seen == [])
  {
    RunKeepsInv(INITIAL, run);
    assert Placed(Exec(INITIAL, run), id);
  }

  // ------------------------------------------------------------------
  // Bytes sent after the close
  // ------------------------------------------------------------------

  /** The send leaves bytes on a connection that is no longer in the map. */
  predicate SendsLate(s: State, a: Action, id: ConnId) {
    a == UserSend(id, true) && id in s.conns && s.conns[id].state == Connected && id !in s.server
  }

  /** The write test of the connection's own event drains it. */
  predicate DrainsOwn(s: State, a: Action, id: ConnId) {
    a.RunCallback? && s.at == 3 && s.cur.id == id && Raises(s.cur.revents, OnWrite) && a.drains
  }

  /** Along the run, bytes sent late wait (or waited before it, if waits) and are not drained by
      the write test of the connection's own event. */
  predicate LateBytes(s: State, run: seq<Action>, id: ConnId, waits: bool)
    requires Legal(s, run)
    decreases |run|
  {
    if run == [] then waits
    else LateBytes(Apply(s, run[0]), run[1..], id, (waits && !DrainsOwn(s, run[0], id)) || SendsLate(s, run[0], id))
  }

  /** The connection is closing and its handle wants output again. */
  predicate Wanted(s: State, id: ConnId) {
    id in s.conns && StageOf(s.conns[id]) == Closing && s.conns[id].writing
  }

  predicate EventOver(s: State, id: ConnId) { s.at >= DONE || s.cur.id != id }

  lemma CallbackWants(s: State, readResult: int, drains: bool, id: ConnId)
    requires Inv(s) && Enabled(s, RunCallback(readResult, drains)) && Safe(s, RunCallback(readResult, drains))
    ensures Wanted(Apply(s, RunCallback(readResult, drains)), id)
       <==> Wanted(s, id) && !DrainsOwn(s, RunCallback(readResult, drains), id)
  {
    assert id in s.conns ==> Placed(s, id);
  }

  lemma FunctorWants(s: State, id: ConnId)
    requires Inv(s) && Enabled(s, RunFunctor) && Safe(s, RunFunctor)
    ensures Wanted(Apply(s, RunFunctor), id) <==> Wanted(s, id)
  {
    assert s.batch[0] in s.batch && Placed(s, s.batch[0].id);
  }

  lemma StepWants(s: State, a: Action, id: ConnId)
    requires Inv(s) && Enabled(s, a) && Safe(s, a)
    ensures Wanted(Apply(s, a), id) <==> (Wanted(s, id) && !DrainsOwn(s, a, id)) || SendsLate(s, a, id)
  {
    match a
    case RunCallback(readResult, drains) => CallbackWants(s, readResult, drains, id);
    case RunFunctor => FunctorWants(s, id);
    case _ => assert id in s.conns ==> Placed(s, id);
  }

  lemma {:induction false} RunWants(s: State, run: seq<Action>, id: ConnId)
    requires Inv(s) && Legal(s, run)
    ensures Wanted(Exec(s, run), id) <==> LateBytes(s, run, id, Wanted(s, id))
    decreases |run|
  {
    if run == [] {
    } else {
      StepWants(s, run[0], id);
      StepKeepsInv(s, run[0]);
      RunWants(Apply(s, run[0]), run[1..], id);
    }
  }

  /** The next functor removes a handle on which late bytes wait. */
  predicate RemovesLate(s: State, run: seq<Action>, a: Action)
    requires Legal(s, run)
  {
    var t := Exec(s, run);
    a.RunFunctor? && t.batch != [] && t.batch[0].Destroy? && LateBytes(s, run, t.batch[0].id, false)
  }

  /** Of the steps enabled after a run, the unsafe ones are exactly these two: a second close by
      one event, and the removal after a send on a connection outside the map that left bytes
      its own event did not drain. */
  lemma OnlyTwoFailures(run: seq<Action>, a: Action)
    requires Legal(INITIAL, run) && Enabled(Exec(INITIAL, run), a)
    ensures Safe(Exec(INITIAL, run), a)
       <==> !ClosesTwice(Exec(INITIAL, run), a) && !RemovesLate(INITIAL, run, a)
  {
    var s := Exec(INITIAL, run);
    RunKeepsInv(INITIAL, run);
    SafeExactly(s, a);
    if a.RunFunctor? {
      assert s.batch[0] in s.batch && Placed(s, s.batch[0].id);
      RunWants(INITIAL, run, s.batch[0].id);
    }
  }

  /** Once its event is over nothing helps such a connection: in every safe run from there its
      handle stays wanted, and the loop never polls again. */
  lemma {:induction false} LateBytesStay(s: State, run: seq<Action>, id: ConnId)
    requires Inv(s) && Legal(s, run) && Wanted(s, id) && EventOver(s, id)
    ensures Wanted(Exec(s, run), id) && EventOver(Exec(s, run), id) && Exec(s, run).phase != Polling
    decreases |run|
  {
    assert Placed(s, id);
    if run == [] {
    } else {
      StepWants(s, run[0], id);
      StepKeepsInv(s, run[0]);
      LateBytesStay(Apply(s, run[0]), run[1..], id);
    }
  }

  /** What the loop does next when left alone. */
  function NextStep(s: State): Action {
    if s.phase == Polling then Poll([])
    else if s.phase == Dispatching then
      if s.at < DONE then RunCallback(1, false) else if s.active != [] then StartEvent else EndDispatch
    else if s.batch != [] then RunFunctor
    else EndDrain
  }

  lemma NextStepEnabled(s: State)
    requires Inv(s)
    ensures Enabled(s, NextStep(s)) && (Safe(s, NextStep(s)) || RemovesWanted(s, NextStep(s)))
  {
    SafeExactly(s, NextStep(s));
  }

  /** And left alone the loop runs into the failing removal. */
  lemma {:induction false} LateBytesFail(s: State, id: ConnId) returns (run: seq<Action>)
    requires Inv(s) && Wanted(s, id) && EventOver(s, id)
    ensures Legal(s, run) && Enabled(Exec(s, run), RunFunctor) && RemovesWanted(Exec(s, run), RunFunctor)
    decreases if s.phase == Dispatching then 1 else 0, |s.active|, DONE - s.at, |s.batch|
  {
    var a := NextStep(s);
    NextStepEnabled(s);
    LateBytesStay(s, [], id);
    assert Placed(s, id);
    if Safe(s, a) {
      var t := Apply(s, a);
      StepKeepsInv(s, a);
      assert [a][1..] == [] && Legal(t, []);
      LateBytesStay(s, [a], id);
      var rest := LateBytesFail(t, id);
      run := [a] + rest;
      assert run[1..] == rest;
    } else {
      run := [];
    }
  }

  /** So a late send whose bytes are not drained by the connection's own event dooms the server:
      no later poll, and a failing removal ahead. */
  lemma LateSendDooms(run: seq<Action>, more: seq<Action>, id: ConnId) returns (last: seq<Action>)
    requires Legal(INITIAL, run) && LateBytes(INITIAL, run, id, false) && EventOver(Exec(INITIAL, run), id)
    requires Legal(Exec(INITIAL, run), more)
    ensures var s := Exec(Exec(INITIAL, run), more);
            && s.phase != Polling
            && Legal(s, last) && Enabled(Exec(s, last), RunFunctor) && !Safe(Exec(s, last), RunFunctor)
  {
    var s := Exec(INITIAL, run);
    RunKeepsInv(INITIAL, run);
    RunWants(INITIAL, run, id);
    LateBytesStay(s, more, id);
    RunKeepsInv(s, more);
    last := LateBytesFail(Exec(s, more), id);
  }

  /** A run that sends only on connections still in the map, and whose poll never reports a
      hang-up with urgent or half-closed input but no input. */
  predicate Polite(s: State, run: seq<Action>)
    decreases |run|
  {
    run == []
    || (&& (run[0].UserSend? && run[0].leaves ==> run[0].id in s.server)
        && (run[0].Poll? ==> forall i :: 0 <= i < |run[0].events| ==>
              !(Raises(run[0].events[i].revents, OnClose) && Raises(run[0].events[i].revents, OnRead)))
        && (Enabled(s, run[0]) ==> Polite(Apply(s, run[0]), run[1..])))
  }

  predicate Plausible(s: State, run: seq<Action>)
    decreases |run|
  {
    run == [] || (Enabled(s, run[0]) && Plausible(Apply(s, run[0]), run[1..]))
  }

  /** Nothing in the state announces either failure. */
  ghost predicate Calm(s: State) {
    && (forall id :: id in s.conns && StageOf(s.conns[id]) == Closing ==> !s.conns[id].writing)
    && (forall i :: 0 <= i < |s.active| ==>
          !(Raises(s.active[i].revents, OnClose) && Raises(s.active[i].revents, OnRead)))
    && (s.at < DONE ==> !(Raises(s.cur.revents, OnClose) && Raises(s.cur.revents, OnRead)))
  }

  lemma FunctorKeepsCalm(s: State)
    requires Inv(s) && Calm(s) && Enabled(s, RunFunctor)
    ensures Safe(s, RunFunctor) && Calm(Apply(s, RunFunctor))
  {
    SafeExactly(s, RunFunctor);
    assert s.batch[0] in s.batch && Placed(s, s.batch[0].id);
  }

  lemma SendKeepsCalm(s: State, id: ConnId, leaves: bool)
    requires Inv(s) && Calm(s) && Enabled(s, UserSend(id, leaves)) && (leaves ==> id in s.server)
    ensures Calm(Apply(s, UserSend(id, leaves)))
  {
    assert Placed(s, id);
  }

  lemma CallbackKeepsCalm(s: State, readResult: int, drains: bool)
    requires Inv(s) && Calm(s) && Enabled(s, RunCallback(readResult, drains))
    ensures Safe(s, RunCallback(readResult, drains)) && Calm(Apply(s, RunCallback(readResult, drains)))
  {
    SafeExactly(s, RunCallback(readResult, drains));
  }

  lemma StepKeepsCalm(s: State, a: Action)
    requires Inv(s) && Calm(s) && Enabled(s, a) && Polite(s, [a])
    ensures Safe(s, a) && Calm(Apply(s, a))
  {
    match a
    case RunFunctor => FunctorKeepsCalm(s);
    case UserSend(id, leaves) => SendKeepsCalm(s, id, leaves);
    case RunCallback(readResult, drains) => CallbackKeepsCalm(s, readResult, drains);
    case _ =>
  }

  /** In a polite run no assertion of the source ever fails. */
  lemma {:induction false} PoliteRunsAreSafe(s: State, run: seq<Action>)
    requires Inv(s) && Calm(s) && Plausible(s, run) && Polite(s, run)
    ensures Legal(s, run)
    decreases |run|
  {
    if run == [] {
    } else {
      assert Polite(Apply(s, run[0]), []);
      assert [run[0]][1..] == [];
      StepKeepsCalm(s, run[0]);
      StepKeepsInv(s, run[0]);
      PoliteRunsAreSafe(Apply(s, run[0]), run[1..]);
    }
  }

  /** So whatever happens to a server from its start, politely, is a safe run. */
  lemma PoliteServersAreSafe(run: seq<Action>)
    requires Plausible(INITIAL, run) && Polite(INITIAL, run)
    ensures Legal(INITIAL, run)
  {
    PoliteRunsAreSafe(INITIAL, run);
  }

  /** A closed connection is removed: nothing announcing a failure, the loop left alone gets to its
      removal, after which its callback has seen both ends. */
  lemma {:induction false} ClosedIsRemoved(s: State, id: ConnId) returns (run: seq<Action>)
    requires Inv(s) && Calm(s) && id in s.conns && StageOf(s.conns[id]) == Closing
    ensures Legal(s, run) && id in Exec(s, run).conns
    ensures Exec(s, run).conns[id].state == Disconnected && Exec(s, run).conns[id].seen == [Connected, Disconnected]
    decreases if s.phase == Dispatching then 1 else 0, |s.active|, DONE - s.at, |s.batch|
  {
    var a := NextStep(s);
    NextStepEnabled(s);
    assert Placed(s, id);
    assert Polite(Apply(s, a), []) && [a][1..] == [];
    StepKeepsCalm(s, a);
    StepKeepsInv(s, a);
    ConnExactly(s, a, id);
    var t := Apply(s, a);
    assert Legal(t, []);
    run := [a];
    if t.conns[id].state != Disconnected {
      var rest := ClosedIsRemoved(t, id);
      run := [a] + rest;
      assert run[1..] == rest;
    }
  }

  // ------------------------------------------------------------------
  // Both failures happen
  // ------------------------------------------------------------------

  lemma {:induction false} LegalSnoc(s: State, run: seq<Action>, a: Action)
    requires Legal(s, run) && Enabled(Exec(s, run), a) && Safe(Exec(s, run), a)
    ensures Legal(s, run + [a]) && Exec(s, run + [a]) == Apply(Exec(s, run), a)
    decreases |run|
  {
    if run == [] {
      assert run + [a] == [a] && [a][1..] == [];
      assert Legal(Apply(s, a), []);
    } else {
      LegalSnoc(Apply(s, run[0]), run[1..], a);
      assert (run + [a])[1..] == run[1..] + [a];
    }
  }

  /** One accepted connection, established, after the loop's next poll. */
  lemma OneConnection(revents: bv16) returns (run: seq<Action>)
    ensures Legal(INITIAL, run)
    ensures var s := Exec(INITIAL, run);
            && s.phase == Dispatching && s.active == [Event(1, revents)] && s.at == DONE
            && s.conns == map[1 := Conn(Connected, true, true, false, 0, [Connected])]
            && s.server == {1} && s.queue == []
  {
    run := [];
    LegalSnoc(INITIAL, run, Poll([]));
    run := run + [Poll([])];
    LegalSnoc(INITIAL, run, Accept);
    run := run + [Accept];
    LegalSnoc(INITIAL, run, EndDispatch);
    run := run + [EndDispatch];
    LegalSnoc(INITIAL, run, RunFunctor);
    run := run + [RunFunctor];
    LegalSnoc(INITIAL, run, EndDrain);
    run := run + [EndDrain];
    LegalSnoc(INITIAL, run, Poll([Event(1, revents)]));
    run := run + [Poll([Event(1, revents)])];
    ghost var conns := Exec(INITIAL, run).conns;
    assert conns.Keys == {1} && conns[1] == Conn(Connected, true, true, false, 0, [Connected]);
  }

  /** A hang-up reported with urgent input only, and a read that finds the end: handle_close runs
      twice and the second erase finds nothing. */
  lemma DoubleCloseHappens() returns (run: seq<Action>, a: Action)
    ensures Legal(INITIAL, run) && Enabled(Exec(INITIAL, run), a) && !Safe(Exec(INITIAL, run), a)
  {
    run := OneConnection(POLLHUP | POLLPRI);
    LegalSnoc(INITIAL, run, StartEvent);
    run := run + [StartEvent];
    LegalSnoc(INITIAL, run, RunCallback(0, false));
    run := run + [RunCallback(0, false)];
    LegalSnoc(INITIAL, run, RunCallback(0, false));
    run := run + [RunCallback(0, false)];
    a := RunCallback(0, false);
  }

  /** The peer closes, and before the loop drains a callback sends on the connection with the
      socket full: the handle that remove_handle is given wants POLLOUT. */
  lemma LateSendHappens() returns (run: seq<Action>, a: Action)
    ensures Legal(INITIAL, run) && Enabled(Exec(INITIAL, run), a) && !Safe(Exec(INITIAL, run), a)
  {
    run := OneConnection(POLLIN);
    LegalSnoc(INITIAL, run, StartEvent);
    run := run + [StartEvent];
    for k := 0 to 4
      invariant Legal(INITIAL, run)
      invariant var s := Exec(INITIAL, run);
                && s.phase == Dispatching && s.at == k && s.active == [] && s.cur == Event(1, POLLIN)
                && s.conns == map[1 := Conn(Connected, true, k <= 2, false, if k <= 2 then 0 else 1, [Connected])]
                && s.server == (if k <= 2 then {1} else {})
                && s.queue == if k <= 2 then [] else [Destroy(1)]
    {
      LegalSnoc(INITIAL, run, RunCallback(0, false));
      run := run + [RunCallback(0, false)];
    }
    LegalSnoc(INITIAL, run, UserSend(1, true));
    run := run + [UserSend(1, true)];
    LegalSnoc(INITIAL, run, EndDispatch);
    run := run + [EndDispatch];
    a := RunFunctor;
  }
}
