/** Functor hand-off and wake-up: src/net/source/event_loop.cc and src/net/source/poller_waker.cc.

    The protocol is a state machine.  Other threads push functors under the lock, or set quit_,
    and then bump the eventfd; the loop thread polls, dispatches, swaps the pending vector out
    and runs the snapshot.  Every action is one atomic step, and steps of different threads
    interleave freely.  Handlers and functors are arbitrary finite programs: `work` is how many
    more calls the one now running will make. */
module EventLoop {
  import opened Common

  type Tid = nat

  const WAKER_FD: int := 1
  /** An eventfd holds at most this much; a write that would exceed it fails. */
  const EVENTFD_MAX: nat := 0xffff_ffff_ffff_fffe

  datatype Functor =
    | UserFunctor(id: nat)
    | RemoveHandle(fd: int)

  /** A pushed functor, and whether its push is followed by a wake-up: it is when another thread
      pushes, or the loop thread does so while it drains. */
  datatype Posted = Posted(functor: Functor, wakes: bool)

  datatype Pc = NotLooping | AtWhile | Polling | Dispatching | BeforeSwap | Draining | Exited

  datatype State = State(
    pc: Pc,
    calling: bool,            // calling_pending_functor_
    quit: bool,               // quit_
    pending: seq<Posted>,     // pending_functors_
    batch: seq<Posted>,       // rest of the snapshot being run
    work: nat,
    owes: bool,               // the loop thread pushed and has still to wake the poller
    counter: nat,             // the eventfd
    wakers: set<Tid>,         // other threads between their push (or quit) and their wake
    handles: set<int>,        // descriptors registered with the poller
    active: seq<int>,         // handles reported and still to dispatch
    pushed: seq<Posted>,      // every push so far, in lock order
    executed: seq<Posted>,    // every functor run so far
    polls: nat,               // dispatch passes begun
    drains: nat,              // snapshots taken
    drained: bool)            // a snapshot has been taken since loop() was last entered

  datatype Action =
    // other threads
    | RemotePush(tid: Tid, f: Functor)
    | RemoteQuit(tid: Tid)
    | RemoteWake(tid: Tid)
    // the loop thread
    | EnterLoop
    | CheckQuit
    | PollReturn(ready: seq<int>, timedOut: bool)
    | Dispatch(calls: nat)
    | EndDispatch
    | Swap
    | RunNext(calls: nat)
    | EndDrain
    // calls made by user code on the loop thread
    | LocalPush(f: Functor)
    | LocalWake
    | LocalQuit
    | Register(fd: int)

  predicate IsRemote(a: Action) { a.RemotePush? || a.RemoteQuit? || a.RemoteWake? }

  const INITIAL := State(NotLooping, false, false, [], [], 0, false, 0, {}, {WAKER_FD}, [], [], [], 0, 0, false)

  /** poller_waker::wakeup_loop: the write either adds one or finds the counter full. */
  function Bumped(counter: nat): (c: nat)
    ensures c > 0
  {
    if counter < EVENTFD_MAX then counter + 1 else Max(counter, 1)
  }

  /** The loop thread is running user code that may call the loop. */
  predicate InUserCode(s: State) {
    s.pc == NotLooping || s.pc == Exited || ((s.pc == Dispatching || s.pc == Draining) && s.work > 0)
  }

  /** The waker's own handle is private to the loop and never given up. */
  predicate Enabled(s: State, a: Action) {
    match a
    case RemotePush(tid, f) => tid !in s.wakers && f != RemoveHandle(WAKER_FD)
    case RemoteQuit(tid) => tid !in s.wakers
    case RemoteWake(tid) => tid in s.wakers
    case LocalWake => s.owes
    case EnterLoop => !s.owes && (s.pc == NotLooping || s.pc == Exited)
    case CheckQuit => !s.owes && s.pc == AtWhile
    case PollReturn(ready, timedOut) =>
      && !s.owes && s.pc == Polling
      && (ready != [] || timedOut)
      && (forall fd :: fd in ready ==> fd in s.handles)
      && (WAKER_FD in ready <==> s.counter > 0)
    case Dispatch(_) => !s.owes && s.pc == Dispatching && s.work == 0 && s.active != []
    case EndDispatch => !s.owes && s.pc == Dispatching && s.work == 0 && s.active == []
    case Swap => !s.owes && s.pc == BeforeSwap
    case RunNext(_) => !s.owes && s.pc == Draining && s.work == 0 && s.batch != []
    case EndDrain => !s.owes && s.pc == Draining && s.work == 0 && s.batch == []
    case LocalPush(f) => !s.owes && InUserCode(s) && f != RemoveHandle(WAKER_FD)
    case LocalQuit => !s.owes && InUserCode(s)
    case Register(fd) => !s.owes && InUserCode(s)
  }

  function Spend(s: State): State { if s.work > 0 then s.(work := s.work - 1) else s }

  function Push(s: State, f: Functor, wakes: bool): State {
    s.(pending := s.pending + [Posted(f, wakes)], pushed := s.pushed + [Posted(f, wakes)])
  }

  function Apply(s: State, a: Action): State
    requires Enabled(s, a)
  {
    match a
    case RemotePush(tid, f) => Push(s, f, true).(wakers := s.wakers + {tid})
    case RemoteQuit(tid) => s.(quit := true, wakers := s.wakers + {tid})
    case RemoteWake(tid) => s.(counter := Bumped(s.counter), wakers := s.wakers - {tid})
    case LocalPush(f) => Push(Spend(s), f, s.calling).(owes := s.calling)
    case LocalWake => s.(counter := Bumped(s.counter), owes := false)
    case LocalQuit => Spend(s).(quit := true)
    case Register(fd) => Spend(s).(handles := s.handles + {fd})
    case EnterLoop => s.(pc := AtWhile, quit := false, drained := false)
    case CheckQuit => s.(pc := if s.quit then Exited else Polling)
    case PollReturn(ready, _) => s.(pc := Dispatching, active := ready, polls := s.polls + 1)
    case Dispatch(calls) =>
      if s.active[0] == WAKER_FD then s.(active := s.active[1..], counter := 0)
      else s.(active := s.active[1..], work := calls)
    case EndDispatch => s.(pc := BeforeSwap, calling := true)
    case Swap => s.(pc := Draining, batch := s.pending, pending := [], drains := s.drains + 1, drained := true)
    case RunNext(calls) =>
      var next := s.(batch := s.batch[1..], executed := s.executed + [s.batch[0]], work := calls);
      (match s.batch[0].functor
       case RemoveHandle(fd) => next.(handles := next.handles - {fd})
       case UserFunctor(_) => next)
    case EndDrain => s.(pc := AtWhile, calling := false)
  }

  // ------------------------------------------------------------------
  // Runs
  // ------------------------------------------------------------------

  predicate Legal(s: State, run: seq<Action>)
    decreases |run|
  {
    run == [] || (Enabled(s, run[0]) && Legal(Apply(s, run[0]), run[1..]))
  }

  function Exec(s: State, run: seq<Action>): State
    requires Legal(s, run)
    decreases |run|
  {
    if run == [] then s else Exec(Apply(s, run[0]), run[1..])
  }

  // ------------------------------------------------------------------
  // What each step does
  // ------------------------------------------------------------------

  /** The eventfd, descriptor 1: a wake-up adds one, if it is not full, and the waker's handler
      empties it. */
  lemma EventfdExactly(s: State, a: Action)
    requires Enabled(s, a) && 0 <= s.counter <= 0xffff_ffff_ffff_fffe
    ensures Apply(s, a).counter ==
            if a.RemoteWake? || a.LocalWake? then
              if s.counter < 0xffff_ffff_ffff_fffe then s.counter + 1 else s.counter
            else if a.Dispatch? && s.active[0] == 1 then 0
            else s.counter
    ensures Apply(s, a).owes == if a.LocalPush? then s.calling else if a.LocalWake? then false else s.owes
  {
  }

  /** The rest of the shared state: who sets and clears quit_, adds and removes handles, and has
      still to wake the loop. */
  lemma SharedExactly(s: State, a: Action)
    requires Enabled(s, a)
    ensures Apply(s, a).quit ==
            if a.RemoteQuit? || a.LocalQuit? then true else if a.EnterLoop? then false else s.quit
    ensures Apply(s, a).handles ==
            if a.Register? then s.handles + {a.fd}
            else if a.RunNext? && s.batch[0].functor.RemoveHandle? then s.handles - {s.batch[0].functor.fd}
            else s.handles
    ensures Apply(s, a).wakers ==
            if a.RemotePush? || a.RemoteQuit? then s.wakers + {a.tid}
            else if a.RemoteWake? then s.wakers - {a.tid} else s.wakers
  {
  }

  /** The functors: a push by another thread wakes, one by the loop thread exactly inside a drain;
      the swap takes everything pending, and the drain runs it from the front. */
  lemma FunctorsExactly(s: State, a: Action)
    requires Enabled(s, a)
    ensures var t := Apply(s, a);
            && t.pending ==
               (if a.RemotePush? then s.pending + [Posted(a.f, true)]
                else if a.LocalPush? then s.pending + [Posted(a.f, s.calling)]
                else if a.Swap? then [] else s.pending)
            && t.batch == (if a.Swap? then s.pending else if a.RunNext? then s.batch[1..] else s.batch)
            && t.executed == (if a.RunNext? then s.executed + [s.batch[0]] else s.executed)
            && t.pushed == s.pushed + t.pending[if a.Swap? then 0 else |s.pending|..]
            && t.drains == s.drains + (if a.Swap? then 1 else 0)
            && t.polls == s.polls + (if a.PollReturn? then 1 else 0)
  {
  }

  /** And where the loop goes next. */
  lemma LoopExactly(s: State, a: Action)
    requires Enabled(s, a)
    ensures var t := Apply(s, a);
            && t.pc ==
               (match a
                case EnterLoop => AtWhile
                case CheckQuit => if s.quit then Exited else Polling
                case PollReturn(_, _) => Dispatching
                case EndDispatch => BeforeSwap
                case Swap => Draining
                case EndDrain => AtWhile
                case _ => s.pc)
            && t.calling == (if a.EndDispatch? then true else if a.EndDrain? then false else s.calling)
            && t.active == (if a.PollReturn? then a.ready else if a.Dispatch? then s.active[1..] else s.active)
            && t.work ==
               (if a.RunNext? || (a.Dispatch? && s.active[0] != 1) then a.calls
                else if (a.LocalPush? || a.LocalQuit? || a.Register?) && s.work > 0 then s.work - 1
                else s.work)
  {
  }

  // ------------------------------------------------------------------
  // What every step keeps
  // ------------------------------------------------------------------

  /** A wake-up is on its way or has arrived. */
  predicate Awake(s: State) { s.counter > 0 || s.wakers != {} || s.owes }

  /** A functor whose push wakes is pending. */
  predicate NeedsWake(s: State) { exists i :: 0 <= i < |s.pending| && s.pending[i].wakes }

  /** Every pending functor is one whose push wakes. */
  predicate AllWake(s: State) { forall i :: 0 <= i < |s.pending| ==> s.pending[i].wakes }

  /** Each push is in exactly one place, in lock order. */
  predicate InOrder(s: State) { s.executed + s.batch + s.pending == s.pushed }

  predicate InPhase(s: State) {
    && (s.calling <==> s.pc == BeforeSwap || s.pc == Draining)
    && (s.batch != [] ==> s.pc == Draining)
    && (s.active != [] ==> s.pc == Dispatching)
    && (s.work > 0 ==> s.pc == Dispatching || s.pc == Draining)
    && (s.owes ==> s.pc == Draining)
    && (s.pc == Draining ==> s.drained)
  }

  predicate WakeKept(s: State) {
    && (s.pc != Dispatching && s.pc != BeforeSwap && NeedsWake(s) ==> Awake(s))
    && (s.pc == Polling && s.quit ==> Awake(s))
    && (s.drained && (s.pc == Draining || s.pc == AtWhile || s.pc == Polling) ==> AllWake(s))
  }

  ghost predicate HandlesLive(s: State) {
    && (s.pc == Dispatching ==> forall fd :: fd in s.active ==> fd in s.handles)
    && WAKER_FD in s.handles
    && (forall p :: p in s.pending || p in s.batch ==> p.functor != RemoveHandle(WAKER_FD))
  }

  ghost predicate Inv(s: State) {
    InOrder(s) && InPhase(s) && WakeKept(s) && HandlesLive(s)
  }

  lemma PushKeepsOrder(s: State, f: Functor, wakes: bool)
    requires InOrder(s)
    ensures InOrder(Push(s, f, wakes))
  {
  }

  lemma RunKeepsOrder(executed: seq<Posted>, batch: seq<Posted>, pending: seq<Posted>)
    requires batch != []
    ensures (executed + [batch[0]]) + batch[1..] + pending == executed + batch + pending
  {
  }

  lemma StepKeepsOrder(s: State, a: Action)
    requires InOrder(s) && (s.batch != [] ==> s.pc == Draining) && Enabled(s, a)
    ensures InOrder(Apply(s, a))
  {
    match a
    case RemotePush(_, f) => PushKeepsOrder(s, f, true);
    case LocalPush(f) => PushKeepsOrder(Spend(s), f, s.calling);
    case RunNext(_) => RunKeepsOrder(s.executed, s.batch, s.pending);
    case Swap => assert s.executed + s.pending + [] == s.executed + [] + s.pending;
    case _ =>
      assert s.executed == Apply(s, a).executed && s.batch == Apply(s, a).batch;
      assert s.pending == Apply(s, a).pending && s.pushed == Apply(s, a).pushed;
  }

  lemma StepKeepsPhase(s: State, a: Action)
    requires InPhase(s) && Enabled(s, a)
    ensures InPhase(Apply(s, a))
  {
  }

  lemma StepKeepsWake(s: State, a: Action)
    requires InPhase(s) && WakeKept(s) && Enabled(s, a)
    ensures WakeKept(Apply(s, a))
  {
  }

  lemma StepKeepsHandles(s: State, a: Action)
    requires InPhase(s) && HandlesLive(s) && Enabled(s, a)
    ensures HandlesLive(Apply(s, a))
  {
  }

  lemma StepKeepsInv(s: State, a: Action)
    requires Inv(s) && Enabled(s, a)
    ensures Inv(Apply(s, a))
  {
    StepKeepsOrder(s, a);
    StepKeepsPhase(s, a);
    StepKeepsWake(s, a);
    StepKeepsHandles(s, a);
  }

  lemma {:induction false} RunKeepsInv(s: State, run: seq<Action>)
    requires Inv(s) && Legal(s, run)
    ensures Inv(Exec(s, run))
    decreases |run|
  {
    if run == [] {
    } else {
      StepKeepsInv(s, run[0]);
      RunKeepsInv(Apply(s, run[0]), run[1..]);
    }
  }

  ghost predicate Reachable(s: State) {
    exists run :: Legal(INITIAL, run) && s == Exec(INITIAL, run)
  }

  lemma ReachableInv(s: State)
    requires Reachable(s)
    ensures Inv(s)
  {
    var run :| Legal(INITIAL, run) && s == Exec(INITIAL, run);
    RunKeepsInv(INITIAL, run);
  }

  // ------------------------------------------------------------------
  // No lost wake-up, nor a lost quit
  // ------------------------------------------------------------------

  /** If the loop blocks in poll while functors wait or quit_ is set, the eventfd is readable or
      another thread is about to write it.  The one exception: before the first drain of this
      call of loop(), functors the loop thread queued itself outside a drain. */
  lemma NoLostWakeup(s: State)
    requires Reachable(s) && s.pc == Polling && (s.pending != [] || s.quit)
    ensures s.counter > 0 || s.wakers != {}
         || (!s.quit && !s.drained && forall i :: 0 <= i < |s.pending| ==> !s.pending[i].wakes)
  {
    ReachableInv(s);
    assert forall i :: 0 <= i < |s.pending| && s.pending[i].wakes ==> NeedsWake(s);
    assert s.pending != [] && AllWake(s) ==> s.pending[0].wakes;
  }

  predicate Wakes(a: Action) { a.RemoteWake? || a.LocalWake? }

  /** The step is the waker's handler reading the eventfd. */
  predicate ReadsWaker(s: State, a: Action)
    requires Enabled(s, a)
  {
    a.Dispatch? && s.active[0] == WAKER_FD
  }

  /** Along the run, a wake-up has happened since the waker's handler last ran (woken says so of
      what came before). */
  predicate Woken(s: State, run: seq<Action>, woken: bool)
    requires Legal(s, run)
    decreases |run|
  {
    if run == [] then woken
    else Woken(Apply(s, run[0]), run[1..], Wakes(run[0]) || (woken && !ReadsWaker(s, run[0])))
  }

  lemma {:induction false} ReadableExactly(s: State, run: seq<Action>)
    requires Legal(s, run)
    ensures Exec(s, run).counter > 0 <==> Woken(s, run, s.counter > 0)
    decreases |run|
  {
    if run == [] {
    } else {
      ReadableExactly(Apply(s, run[0]), run[1..]);
    }
  }

  /** And poll reports it at once: the pass it begins dispatches the waker exactly when a wake-up
      has arrived, and otherwise live handles only. */
  lemma PollReportsWaker(s: State, ready: seq<int>, timedOut: bool)
    requires Enabled(s, PollReturn(ready, timedOut))
    ensures var active := Apply(s, PollReturn(ready, timedOut)).active;
            (1 in active <==> s.counter > 0) && (forall fd :: fd in active ==> fd in s.handles)
            && (active == [] ==> timedOut)
  {
  }

  /** Wake-ups made in a run, and polls that returned for the waker. */
  function WakeCount(run: seq<Action>): nat {
    if run == [] then 0 else (if Wakes(run[0]) then 1 else 0) + WakeCount(run[1..])
  }

  function WakerPolls(run: seq<Action>): nat {
    if run == [] then 0
    else (if run[0].PollReturn? && WAKER_FD in run[0].ready then 1 else 0) + WakerPolls(run[1..])
  }

  /** A wake-up has arrived that no poll has reported. */
  function Unreported(s: State): nat { if s.counter > 0 && WAKER_FD !in s.active then 1 else 0 }

  lemma StepReportsWakes(s: State, a: Action)
    requires Inv(s) && Enabled(s, a)
    ensures WakerPolls([a]) + Unreported(Apply(s, a)) <= WakeCount([a]) + Unreported(s)
  {
    assert [a][1..] == [];
    if a.Dispatch? {
      assert forall fd :: fd in s.active <==> fd == s.active[0] || fd in s.active[1..];
    }
  }

  lemma {:induction false} RunReportsWakes(s: State, run: seq<Action>)
    requires Inv(s) && Legal(s, run)
    ensures WakerPolls(run) + Unreported(Exec(s, run)) <= WakeCount(run) + Unreported(s)
    decreases |run|
  {
    if run == [] {
    } else {
      StepKeepsInv(s, run[0]);
      StepReportsWakes(s, run[0]);
      assert [run[0]][1..] == [];
      RunReportsWakes(Apply(s, run[0]), run[1..]);
    }
  }

  /** No wake-up is seen twice: in every run the eventfd is readable exactly when someone has woken
      the loop since its handler last ran, and polls return for the waker at most once for every
      wake-up, so the loop does not spin. */
  lemma NoExcessWakeup(run: seq<Action>)
    requires Legal(INITIAL, run)
    ensures Exec(INITIAL, run).counter > 0 <==> Woken(INITIAL, run, false)
    ensures WakerPolls(run) <= WakeCount(run)
  {
    ReadableExactly(INITIAL, run);
    RunReportsWakes(INITIAL, run);
  }

  /** The exception is real for every functor: queued by the loop thread before loop(), it finds
      the loop in poll with nothing to wake it; only the poll timeout gets it run. */
  lemma FirstFunctorsWaitForTimeout(f: Functor)
    requires f != RemoveHandle(WAKER_FD)
    ensures var run := [LocalPush(f), EnterLoop, CheckQuit];
            && Legal(INITIAL, run)
            && Exec(INITIAL, run).pc == Polling && Exec(INITIAL, run).pending == [Posted(f, false)]
            && !Awake(Exec(INITIAL, run))
  {
    var run := [LocalPush(f), EnterLoop, CheckQuit];
    var s1 := Apply(INITIAL, run[0]);
    var s2 := Apply(s1, run[1]);
    var s3 := Apply(s2, run[2]);
    assert run[1..] == [EnterLoop, CheckQuit] && run[1..][1..] == [CheckQuit] && run[1..][1..][1..] == [];
    assert Legal(s3, []) && Legal(s2, [CheckQuit]) && Legal(s1, [EnterLoop, CheckQuit]);
    assert Exec(s2, [CheckQuit]) == s3;
    assert Exec(s1, [EnterLoop, CheckQuit]) == s3;
  }

  /** loop() forgets an earlier quit(); nothing else does. */
  lemma QuitSurvivesOneStep(s: State, a: Action)
    requires Enabled(s, a) && s.quit
    ensures Apply(s, a).quit <==> a != EnterLoop
  {
  }

  /** So a quit() before loop() has no effect: the loop polls. */
  lemma QuitBeforeLoopIsForgotten()
    ensures var run := [LocalQuit, EnterLoop, CheckQuit];
            && Legal(INITIAL, run) && Exec(INITIAL, run[..1]).quit
            && Exec(INITIAL, run).pc == Polling && !Exec(INITIAL, run).quit
  {
    var run := [LocalQuit, EnterLoop, CheckQuit];
    var s1 := Apply(INITIAL, run[0]);
    var s2 := Apply(s1, run[1]);
    var s3 := Apply(s2, run[2]);
    assert run[1..] == [EnterLoop, CheckQuit] && run[1..][1..] == [CheckQuit] && run[1..][1..][1..] == [];
    assert run[..1] == [LocalQuit] && [LocalQuit][1..] == [];
    assert Legal(s3, []) && Legal(s2, [CheckQuit]) && Legal(s1, [EnterLoop, CheckQuit]) && Legal(s1, []);
    assert Exec(s2, [CheckQuit]) == s3;
    assert Exec(s1, [EnterLoop, CheckQuit]) == s3;
  }

  function PollsAfterQuit(s: State): nat { if s.pc == Polling then 1 else 0 }

  /** Until loop() is called again, a quit is kept and no poll begins but the one under way. */
  lemma {:induction false} QuitEndsTheLoop(s: State, run: seq<Action>)
    requires Inv(s) && Legal(s, run) && s.quit && EnterLoop !in run
    ensures var t := Exec(s, run);
            t.quit && t.polls + PollsAfterQuit(t) <= s.polls + PollsAfterQuit(s)
    decreases |run|
  {
    if run == [] {
    } else {
      StepKeepsInv(s, run[0]);
      QuitEndsTheLoop(Apply(s, run[0]), run[1..]);
    }
  }

  predicate InLoop(s: State) { s.pc != NotLooping && s.pc != Exited }

  /** The loop thread can always take its next step, unless it waits for a wake-up that another
      thread is about to send.  It sits out the poll timeout only when nothing needs it sooner: no
      quit, and no functor but those queued before the first drain. */
  lemma NeverStuck(s: State) returns (a: Action)
    requires Inv(s) && InLoop(s)
    ensures Enabled(s, a) && a != EnterLoop && a != LocalQuit
    ensures IsRemote(a) ==> a.RemoteWake? && s.pc == Polling && s.counter == 0
    ensures a.PollReturn? && a.timedOut ==> !s.quit && (s.pending == [] || !s.drained)
  {
    if s.owes {
      a := LocalWake;
    } else if s.work > 0 {
      a := Register(WAKER_FD);
    } else {
      match s.pc
      case AtWhile => a := CheckQuit;
      case Polling =>
        assert s.pending != [] && AllWake(s) && s.pending[0].wakes ==> NeedsWake(s);
        if s.counter > 0 {
          a := PollReturn([WAKER_FD], false);
        } else if s.wakers != {} {
          var tid :| tid in s.wakers;
          a := RemoteWake(tid);
        } else {
          a := PollReturn([], true);
        }
      case Dispatching => a := if s.active != [] then Dispatch(0) else EndDispatch;
      case BeforeSwap => a := Swap;
      case Draining => a := if s.batch != [] then RunNext(0) else EndDrain;
    }
  }

  /** How far the loop is from the test that sees the quit. */
  function ExitStage(s: State): nat {
    match s.pc
    case Polling => 5
    case Dispatching => 4
    case BeforeSwap => 3
    case Draining => 2
    case AtWhile => 1
    case _ => 0
  }

  /** Handlers or functors to go in this stage. */
  function InStage(s: State): nat {
    if s.pc == Dispatching then |s.active| else if s.pc == Draining then |s.batch| else 0
  }

  /** Calls to go in the user code now running. */
  function CallsToGo(s: State): nat { 2 * s.work + if s.owes then 1 else 0 }

  /** Once quit_ is set every step of the loop thread brings loop() closer to its return, whatever
      handlers and functors do; other threads cannot put it off. */
  lemma EveryStepNearerExit(s: State, a: Action)
    requires Inv(s) && Enabled(s, a) && s.quit && InLoop(s)
    ensures var t := Apply(s, a);
            && t.quit && t.pc != NotLooping
            && (IsRemote(a) ==>
                  ExitStage(t) == ExitStage(s) && InStage(t) == InStage(s) && CallsToGo(t) == CallsToGo(s))
            && (!IsRemote(a) ==>
                  || ExitStage(t) < ExitStage(s)
                  || (ExitStage(t) == ExitStage(s) && InStage(t) < InStage(s))
                  || (ExitStage(t) == ExitStage(s) && InStage(t) == InStage(s) && CallsToGo(t) < CallsToGo(s)))
  {
  }

  /** So loop() returns after a quit, without waiting for the poll timeout. */
  lemma {:induction false} QuitExits(s: State) returns (run: seq<Action>)
    requires Inv(s) && s.quit && InLoop(s)
    ensures Legal(s, run) && EnterLoop !in run && Exec(s, run).pc == Exited
    ensures forall a :: a in run && a.PollReturn? ==> !a.timedOut
    decreases ExitStage(s), InStage(s), CallsToGo(s), if s.counter > 0 then 0 else 1
  {
    var a := NeverStuck(s);
    var t := Apply(s, a);
    StepKeepsInv(s, a);
    EveryStepNearerExit(s, a);
    run := [a];
    assert [a][1..] == [] && Legal(t, []);
    if t.pc != Exited {
      var rest := QuitExits(t);
      run := [a] + rest;
      assert run[1..] == rest;
    }
  }

  // ------------------------------------------------------------------
  // Exactly once, in lock order, on live handles
  // ------------------------------------------------------------------

  /** The functors run so far are the first ones pushed, each once, in lock order; the others
      wait in order. */
  lemma ExactlyOnceInLockOrder(s: State)
    requires Reachable(s)
    ensures s.executed <= s.pushed
    ensures s.pushed[|s.executed|..] == s.batch + s.pending
  {
    ReachableInv(s);
    assert s.pushed == s.executed + (s.batch + s.pending);
  }

  /** A handle is still registered when its event is dispatched. */
  lemma DispatchNeverStale(s: State, calls: nat)
    requires Reachable(s) && Enabled(s, Dispatch(calls))
    ensures s.active[0] in s.handles
  {
    ReachableInv(s);
    assert forall fd :: fd in s.active ==> fd in s.handles;
    assert s.active[0] in s.active;
  }

  // ------------------------------------------------------------------
  // Bounded drain
  // ------------------------------------------------------------------

  /** Functor number k of the push order has been pushed and not run. */
  predicate Waiting(s: State, k: nat) { |s.executed| <= k < |s.pushed| }

  /** How far the loop is from the snapshot that holds functor k. */
  function Stage(s: State, k: nat): nat {
    if k < |s.executed| + |s.batch| then 0
    else match s.pc
      case BeforeSwap => 1
      case Dispatching => 2
      case Polling => 3
      case AtWhile => 4
      case Draining => 5
      case NotLooping => 6
      case Exited => 7
  }

  /** Functors or handlers to go in this stage. */
  function ToGo(s: State, k: nat): nat
    requires Waiting(s, k)
  {
    if k < |s.executed| + |s.batch| then k - |s.executed|
    else if s.pc == Draining then |s.batch|
    else if s.pc == Dispatching then |s.active|
    else 0
  }

  /** The rank (Stage, ToGo, CallsToGo) went down, or functor k started. */
  predicate Closer(s: State, t: State, k: nat)
    requires Waiting(s, k)
  {
    Waiting(t, k) ==>
      || Stage(t, k) < Stage(s, k)
      || (Stage(t, k) == Stage(s, k) && ToGo(t, k) < ToGo(s, k))
      || (Stage(t, k) == Stage(s, k) && ToGo(t, k) == ToGo(s, k) && CallsToGo(t) < CallsToGo(s))
  }

  /** Every step of the running loop thread brings functor k closer, whatever the functors push
      while they run; steps of other threads do not push it back. */
  lemma EveryStepCloser(s: State, a: Action, k: nat)
    requires Inv(s) && Enabled(s, a) && Waiting(s, k)
    requires InLoop(s) && !(a == CheckQuit && s.quit)
    ensures !IsRemote(a) ==> Closer(s, Apply(s, a), k)
    ensures IsRemote(a) ==>
              && Waiting(Apply(s, a), k) && Stage(Apply(s, a), k) == Stage(s, k)
              && ToGo(Apply(s, a), k) == ToGo(s, k) && CallsToGo(Apply(s, a)) == CallsToGo(s)
  {
  }

  function PollsLeft(s: State, k: nat): nat { if Stage(s, k) >= 3 then 1 else 0 }
  function DrainsLeft(s: State, k: nat): nat { if Stage(s, k) >= 1 then 1 else 0 }

  lemma StepBoundedWait(s: State, a: Action, k: nat)
    requires Inv(s) && Enabled(s, a)
    requires Waiting(s, k) && Waiting(Apply(s, a), k)
    ensures var t := Apply(s, a);
            && t.polls + PollsLeft(t, k) <= s.polls + PollsLeft(s, k)
            && t.drains + DrainsLeft(t, k) <= s.drains + DrainsLeft(s, k)
  {
    StepKeepsInv(s, a);
  }

  lemma StepGrows(s: State, a: Action)
    requires Inv(s) && Enabled(s, a)
    ensures s.executed <= Apply(s, a).executed && s.pushed <= Apply(s, a).pushed
  {
  }

  /** So every waiting functor runs: unless someone quits, the loop gets to it; and without the
      poll timeout, but for the functors of the exception above. */
  lemma {:induction false} FunctorRuns(s: State, k: nat) returns (run: seq<Action>)
    requires Inv(s) && InLoop(s) && !s.quit && Waiting(s, k)
    ensures Legal(s, run) && EnterLoop !in run && |Exec(s, run).executed| > k
    ensures s.drained ==> forall a :: a in run && a.PollReturn? ==> !a.timedOut
    decreases Stage(s, k), ToGo(s, k), CallsToGo(s), if s.counter > 0 then 0 else 1
  {
    var a := NeverStuck(s);
    var t := Apply(s, a);
    StepKeepsInv(s, a);
    EveryStepCloser(s, a, k);
    StepGrows(s, a);
    if s.pc == Polling { assert |s.pushed| == |s.executed| + |s.batch| + |s.pending|; }
    run := [a];
    assert [a][1..] == [] && Legal(t, []);
    if Waiting(t, k) {
      var rest := FunctorRuns(t, k);
      run := [a] + rest;
      assert run[1..] == rest;
    }
  }

  lemma {:induction false} RunGrows(s: State, run: seq<Action>)
    requires Inv(s) && Legal(s, run)
    ensures s.executed <= Exec(s, run).executed && s.pushed <= Exec(s, run).pushed
    decreases |run|
  {
    if run == [] {
    } else {
      StepKeepsInv(s, run[0]);
      StepGrows(s, run[0]);
      RunGrows(Apply(s, run[0]), run[1..]);
    }
  }

  /** While functor k waits, at most one more dispatch pass begins, at most one
      more snapshot is taken, and at most the k - |executed| functors pushed before it run. */
  lemma {:induction false} BoundedWait(s: State, run: seq<Action>, k: nat)
    requires Inv(s) && Legal(s, run)
    requires Waiting(s, k) && Waiting(Exec(s, run), k)
    ensures var t := Exec(s, run);
            && t.polls + PollsLeft(t, k) <= s.polls + PollsLeft(s, k)
            && t.drains + DrainsLeft(t, k) <= s.drains + DrainsLeft(s, k)
            && s.executed <= t.executed && |t.executed| <= k
    decreases |run|
  {
    if run == [] {
    } else {
      var m := Apply(s, run[0]);
      StepKeepsInv(s, run[0]);
      StepGrows(s, run[0]);
      RunGrows(m, run[1..]);
      StepBoundedWait(s, run[0], k);
      BoundedWait(m, run[1..], k);
    }
  }
}
