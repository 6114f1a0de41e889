/** event_loop as an object: the methods of src/net/source/event_loop.cc, each taking only steps
    of the hand-off protocol.  Valid() says the object's state is one the protocol reaches, so
    everything proved there about reachable states holds between any two calls. */
module LoopThread {
  import opened Common
  import opened EventLoop

  /** What user code queues when it runs: one list of functors per functor or descriptor. */
  type Script<!T> = T -> seq<Functor>

  /** What another thread does between two handlers or functors. */
  datatype Other = Other(tid: Tid, functors: seq<Functor>, quits: bool)

  /** What other threads do after the n-th handler or functor. */
  type Meanwhile = nat -> Other

  ghost predicate Apart(others: Meanwhile, wakers: set<Tid>) {
    forall n :: others(n).tid !in wakers && RemoveHandle(WAKER_FD) !in others(n).functors
  }

  ghost predicate Polite<T(!new)>(script: Script<T>) {
    forall x :: RemoveHandle(WAKER_FD) !in script(x)
  }

  /** A functor pushed by the loop thread while it runs user code. */
  function QueuedLocally(s: State, f: Functor): State {
    var t := Push(Spend(s), f, s.calling);
    if s.calling then t.(counter := Bumped(t.counter)) else t
  }

  function QueuedAll(s: State, fs: seq<Functor>): State
    decreases |fs|
  {
    if fs == [] then s else QueuedAll(QueuedLocally(s, fs[0]), fs[1..])
  }

  function Posts(fs: seq<Functor>, wakes: bool): (r: seq<Posted>)
    ensures |r| == |fs|
  {
    seq(|fs|, i requires 0 <= i < |fs| => Posted(fs[i], wakes))
  }

  lemma {:induction false} QueuedAllPosts(s: State, fs: seq<Functor>)
    requires s.work == |fs|
    ensures QueuedAll(s, fs) == s.(pending := s.pending + Posts(fs, s.calling),
                                   pushed := s.pushed + Posts(fs, s.calling),
                                   work := 0, counter := QueuedAll(s, fs).counter)
    decreases |fs|
  {
    if fs == [] {
      assert s.pending + Posts(fs, s.calling) == s.pending && s.pushed + Posts(fs, s.calling) == s.pushed;
    } else {
      var t := QueuedLocally(s, fs[0]);
      QueuedAllPosts(t, fs[1..]);
      assert s.pending + Posts(fs, s.calling) == t.pending + Posts(fs[1..], s.calling);
      assert s.pushed + Posts(fs, s.calling) == t.pushed + Posts(fs[1..], s.calling);
    }
  }

  /** Inside a drain queueing wakes the poller, outside it does not. */
  lemma {:induction false} QueuedAllWakes(s: State, fs: seq<Functor>)
    ensures QueuedAll(s, fs).calling == s.calling
    ensures if s.calling && fs != [] then QueuedAll(s, fs).counter > 0 else QueuedAll(s, fs).counter == s.counter
    decreases |fs|
  {
    if fs == [] {
    } else {
      QueuedAllWakes(QueuedLocally(s, fs[0]), fs[1..]);
    }
  }

  /** Everything queued while a list of functors runs in a drain: what each queues, and after it
      what other threads do. */
  function PostsOf(script: Script<Functor>, others: Meanwhile, fs: seq<Posted>): seq<Posted> {
    if fs == [] then []
    else
      var n := |fs| - 1;
      PostsOf(script, others, fs[..n]) + Posts(script(fs[n].functor), true) + Posts(others(n).functors, true)
  }

  /** Everything queued while events are dispatched: what each handler queues, the waker's nothing,
      and after it what other threads do. */
  function EventPosts(onEvent: Script<int>, others: Meanwhile, ready: seq<int>): seq<Posted> {
    if ready == [] then []
    else
      var n := |ready| - 1;
      EventPosts(onEvent, others, ready[..n])
      + (if ready[n] == 1 then [] else Posts(onEvent(ready[n]), false)) + Posts(others(n).functors, true)
  }

  lemma NextEvent(onEvent: Script<int>, others: Meanwhile, ready: seq<int>, i: nat, before: seq<Posted>)
    requires i < |ready|
    ensures ready[i..][1..] == ready[i + 1..]
    ensures before + EventPosts(onEvent, others, ready[..i + 1]) ==
            before + EventPosts(onEvent, others, ready[..i])
            + (if ready[i] == 1 then [] else Posts(onEvent(ready[i]), false)) + Posts(others(i).functors, true)
  {
    assert ready[..i + 1][..i] == ready[..i];
  }

  lemma {:induction false} ExecSnoc(s: State, run: seq<Action>, a: Action)
    requires Legal(s, run) && Enabled(Exec(s, run), a)
    ensures Legal(s, run + [a]) && Exec(s, run + [a]) == Apply(Exec(s, run), a)
    decreases |run|
  {
    if run == [] {
      assert run + [a] == [a] && [a][1..] == [];
      assert Legal(Apply(s, a), []);
    } else {
      ExecSnoc(Apply(s, run[0]), run[1..], a);
      assert (run + [a])[1..] == run[1..] + [a];
    }
  }

  class Loop {
    var looping: bool
    var quit: bool
    var calling: bool           // calling_pending_functor_
    var pending: seq<Posted>    // pending_functors_
    var counter: nat            // the waker's eventfd
    const onRun: Script<Functor>
    ghost var s: State

    ghost predicate Valid()
      reads this
    {
      && Reachable(s) && Polite(onRun)
      && s.pending == pending && s.calling == calling && s.quit == quit && s.counter == counter
      && (looping <==> s.pc != NotLooping && s.pc != Exited)
    }

    constructor (onRun: Script<Functor>)
      requires Polite(onRun)
      ensures Valid() && s == INITIAL && this.onRun == onRun
    {
      looping, quit, calling := false, false, false;
      pending, counter := [], 0;
      this.onRun := onRun;
      s := INITIAL;
      new;
      assert Legal(INITIAL, []) && Exec(INITIAL, []) == INITIAL;
    }

    ghost method Take(a: Action)
      requires Reachable(s) && Enabled(s, a)
      modifies this`s
      ensures s == Apply(old(s), a) && Reachable(s)
    {
      var run :| Legal(INITIAL, run) && s == Exec(INITIAL, run);
      ExecSnoc(INITIAL, run, a);
      s := Apply(s, a);
    }

    /** queue_in_loop called on the loop thread: it wakes the poller only from inside a drain. */
    method QueueInLoop(f: Functor)
      requires Valid() && InUserCode(s) && !s.owes && f != RemoveHandle(WAKER_FD)
      modifies this
      ensures Valid() && s == QueuedLocally(old(s), f)
    {
      pending := pending + [Posted(f, calling)];
      Take(LocalPush(f));
      if calling {
        counter := Bumped(counter);
        Take(LocalWake);
      }
    }

    /** queue_in_loop called by another thread, with nothing in between. */
    method QueueFrom(tid: Tid, f: Functor)
      requires Valid() && tid !in s.wakers && f != RemoveHandle(WAKER_FD)
      modifies this
      ensures Valid() && s == Push(old(s), f, true).(counter := Bumped(old(counter)))
    {
      pending := pending + [Posted(f, true)];
      Take(RemotePush(tid, f));
      counter := Bumped(counter);
      Take(RemoteWake(tid));
      assert old(s).wakers + {tid} - {tid} == old(s).wakers;
    }

    method Quit(caller: Option<Tid>)
      requires Valid()
      requires caller.None? ==> InUserCode(s) && !s.owes
      requires caller.Some? ==> caller.value !in s.wakers
      modifies this
      ensures Valid() && quit && s.pc == old(s).pc
      ensures caller.None? ==> s == Spend(old(s)).(quit := true)
      ensures caller.Some? ==> counter > 0 && s == old(s).(quit := true, counter := counter)
    {
      quit := true;
      match caller
      case None =>
        Take(LocalQuit);
      case Some(tid) =>
        Take(RemoteQuit(tid));
        counter := Bumped(counter);
        Take(RemoteWake(tid));
        assert old(s).wakers + {tid} - {tid} == old(s).wakers;
    }

    /** Another thread queues a list of functors, one by one, and may then quit the loop. */
    method Interfere(other: Other)
      requires Valid() && other.tid !in s.wakers && RemoveHandle(WAKER_FD) !in other.functors
      modifies this
      ensures Valid() && pending == old(pending) + Posts(other.functors, true)
      ensures s == old(s).(pending := pending, pushed := s.pushed, counter := counter, quit := quit)
      ensures quit <==> old(quit) || other.quits
    {
      var fs := other.functors;
      for i := 0 to |fs|
        invariant Valid() && pending == old(pending) + Posts(fs[..i], true) && quit == old(quit)
        invariant s == old(s).(pending := pending, pushed := s.pushed, counter := counter)
      {
        assert Posts(fs[..i + 1], true) == Posts(fs[..i], true) + [Posted(fs[i], true)];
        QueueFrom(other.tid, fs[i]);
      }
      assert fs[..|fs|] == fs;
      if other.quits {
        Quit(Some(other.tid));
      }
    }

    method RunUserCode(fs: seq<Functor>)
      requires Valid() && s.work == |fs| && !s.owes && RemoveHandle(WAKER_FD) !in fs
      requires s.pc == Dispatching || s.pc == Draining
      modifies this
      ensures Valid() && s == QueuedAll(old(s), fs)
    {
      for i := 0 to |fs|
        invariant Valid() && s.work == |fs| - i && !s.owes && s.pc == old(s).pc
        invariant QueuedAll(s, fs[i..]) == QueuedAll(old(s), fs)
      {
        ReachableInv(s);
        assert fs[i..][1..] == fs[i + 1..];
        QueueInLoop(fs[i]);
      }
    }

    /** The first i functors of the snapshot have run; what they and other threads queued
        meanwhile is all that pends. */
    ghost predicate DrainedUpTo(functors: seq<Posted>, i: nat, before: seq<Posted>, others: Meanwhile)
      reads this
      requires i <= |functors|
    {
      && Valid() && s.pc == Draining && s.work == 0 && !s.owes
      && s.batch == functors[i..]
      && s.executed == before + functors[..i]
      && pending == PostsOf(onRun, others, functors[..i])
    }

    /** The next functor of the snapshot runs, by itself. */
    method RunOne(f: Functor)
      requires Valid() && s.pc == Draining && s.work == 0 && !s.owes
      requires s.batch != [] && s.batch[0].functor == f
      modifies this
      ensures Valid() && s.pc == Draining && s.work == 0 && !s.owes
      ensures s.batch == old(s).batch[1..] && s.executed == old(s).executed + [old(s).batch[0]]
      ensures pending == old(pending) + Posts(onRun(f), true)
      ensures s.polls == old(s).polls && s.wakers == old(s).wakers
    {
      ReachableInv(s);
      var fs := onRun(f);
      Take(RunNext(|fs|));
      QueuedAllPosts(s, fs);
      RunUserCode(fs);
    }

    method RunFunctor(functors: seq<Posted>, i: nat, others: Meanwhile, ghost before: seq<Posted>)
      requires i < |functors| && DrainedUpTo(functors, i, before, others)
      requires Apart(others, s.wakers)
      modifies this
      ensures DrainedUpTo(functors, i + 1, before, others)
      ensures s.polls == old(s).polls && s.wakers == old(s).wakers
    {
      assert functors[..i + 1][..i] == functors[..i];
      assert functors[i..][1..] == functors[i + 1..];
      RunOne(functors[i].functor);
      Interfere(others(i));
    }

    /** do_pending_functors: runs the functors pending at the swap, in order, once each; what
        they and other threads queue meanwhile waits for the next drain, so this ends however
        they re-queue themselves. */
    method DoPendingFunctors(others: Meanwhile)
      requires Valid() && Enabled(s, EndDispatch)
      requires Apart(others, s.wakers)
      modifies this
      ensures Valid() && s.pc == AtWhile && !calling && s.work == 0 && !s.owes
      ensures s.executed == old(s).executed + old(pending)
      ensures pending == PostsOf(onRun, others, old(pending))
      ensures s.polls == old(s).polls && s.wakers == old(s).wakers
    {
      var functors := TakeSnapshot(others);
      for i := 0 to |functors|
        invariant DrainedUpTo(functors, i, old(s).executed, others)
        invariant s.polls == old(s).polls && s.wakers == old(s).wakers
      {
        RunFunctor(functors, i, others, old(s).executed);
      }
      assert functors[..|functors|] == functors;
      calling := false;
      Take(EndDrain);
    }

    /** functors.swap(pending_functors_), under the lock. */
    method TakeSnapshot(ghost others: Meanwhile) returns (functors: seq<Posted>)
      requires Valid() && Enabled(s, EndDispatch)
      modifies this
      ensures functors == old(pending) && DrainedUpTo(functors, 0, old(s).executed, others)
      ensures s.polls == old(s).polls && s.wakers == old(s).wakers
    {
      calling := true;
      Take(EndDispatch);
      functors := pending;
      pending := [];
      Take(Swap);
    }

    /** One dispatched handle; the waker's own handler empties the eventfd. */
    method HandleEvent(fd: int, onEvent: Script<int>)
      requires Valid() && Polite(onEvent)
      requires s.pc == Dispatching && s.work == 0 && !s.owes && s.active != [] && s.active[0] == fd
      modifies this
      ensures Valid() && s.pc == Dispatching && s.work == 0 && !s.owes && calling == old(calling)
      ensures s.active == old(s).active[1..] && s.polls == old(s).polls && s.executed == old(s).executed
      ensures s.wakers == old(s).wakers
      ensures pending == old(pending) + (if fd == WAKER_FD then [] else Posts(onEvent(fd), false))
      ensures counter == if fd == WAKER_FD then 0 else old(counter)
    {
      if fd == WAKER_FD {
        counter := 0;
        Take(Dispatch(0));
      } else {
        ReachableInv(s);
        var fs := onEvent(fd);
        Take(Dispatch(|fs|));
        QueuedAllPosts(s, fs);
        QueuedAllWakes(s, fs);
        RunUserCode(fs);
      }
    }

    /** The first i events have been dispatched, what their handlers and other threads queued pends
        behind what was pending before. */
    ghost predicate DispatchedUpTo(ready: seq<int>, i: nat, before: seq<Posted>, onEvent: Script<int>, early: Meanwhile)
      reads this
      requires i <= |ready|
    {
      && Valid() && s.pc == Dispatching && s.work == 0 && !s.owes && !calling
      && s.active == ready[i..]
      && pending == before + EventPosts(onEvent, early, ready[..i])
    }

    method DispatchOne(ready: seq<int>, i: nat, onEvent: Script<int>, early: Meanwhile, ghost before: seq<Posted>)
      requires i < |ready| && DispatchedUpTo(ready, i, before, onEvent, early)
      requires Polite(onEvent) && Apart(early, s.wakers)
      modifies this
      ensures DispatchedUpTo(ready, i + 1, before, onEvent, early)
      ensures s.polls == old(s).polls && s.wakers == old(s).wakers && s.executed == old(s).executed
    {
      NextEvent(onEvent, early, ready, i, before);
      HandleEvent(ready[i], onEvent);
      Interfere(early(i));
    }

    /** The test of quit_ and the poll. */
    method StartPass(ready: seq<int>, timedOut: bool, ghost onEvent: Script<int>, ghost early: Meanwhile)
      requires Valid() && s.pc == AtWhile && !quit && !s.owes
      requires Enabled(Apply(s, CheckQuit), PollReturn(ready, timedOut))
      modifies this
      ensures DispatchedUpTo(ready, 0, old(pending), onEvent, early)
      ensures s.polls == old(s).polls + 1 && s.wakers == old(s).wakers && s.executed == old(s).executed
    {
      ReachableInv(s);
      Take(CheckQuit);
      Take(PollReturn(ready, timedOut));
    }

    /** The body of loop(): poll, dispatch every reported handle, drain.  onEvent says what the
        handlers queue, early and late what other threads do between handlers and between
        functors. */
    method Iterate(ready: seq<int>, timedOut: bool, onEvent: Script<int>, early: Meanwhile, late: Meanwhile)
      requires Valid() && Polite(onEvent) && Apart(early, s.wakers) && Apart(late, s.wakers)
      requires s.pc == AtWhile && !quit && !s.owes
      requires Enabled(Apply(s, CheckQuit), PollReturn(ready, timedOut))
      modifies this
      ensures Valid() && s.pc == AtWhile && !s.owes
      ensures s.polls == old(s).polls + 1
      ensures var ran := old(pending) + EventPosts(onEvent, early, ready);
              s.executed == old(s).executed + ran && pending == PostsOf(onRun, late, ran)
    {
      StartPass(ready, timedOut, onEvent, early);
      for i := 0 to |ready|
        invariant DispatchedUpTo(ready, i, old(pending), onEvent, early)
        invariant s.polls == old(s).polls + 1 && s.wakers == old(s).wakers && s.executed == old(s).executed
      {
        DispatchOne(ready, i, onEvent, early, old(pending));
      }
      assert ready[..|ready|] == ready;
      DoPendingFunctors(late);
    }
  }
}
