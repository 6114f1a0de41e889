/** One connection attempt at a time: the state machine of src/net/source/connector.cc.

    A step returns Fault when the source would dereference a null psocket_ or poll_hd_, remove a
    handle that is not registered, or fail an assertion; the main result is that no run does.
    stop() is not modelled (see README.md), so the state stop is never entered. */
module Connecting {
  import opened Common
  import opened PollHandles

  const RETRY_DELAY_MS: nat := 500
  const RETRY_CAP_MS: nat := 3000

  datatype Errno =
    | E0 | EINPROGRESS | EINTR | EISCONN
    | EAGAIN | EADDRINUSE | EADDRNOTAVAIL | ECONNREFUSED | ENETUNREACH
    | EACCES | EPERM | EAFNOSUPPORT | EALREADY | EBADF | EFAULT | ENOTSOCK
    | EOther

  datatype Answer = Wait | Retry | GiveUp

  /** The switch of connect_in_loop. */
  function Classify(err: Errno): Answer {
    match err
    case E0 | EINPROGRESS | EINTR | EISCONN => Wait
    case EAGAIN | EADDRINUSE | EADDRNOTAVAIL | ECONNREFUSED | ENETUNREACH => Retry
    case _ => GiveUp
  }

  datatype Phase = Stop | Connected | Connecting | Disconnected

  datatype Attempt = Attempt(
    hasCb: bool,             // new_connection_cb_ is set
    state: Phase,
    hd: Option<int>,         // poll_hd_, by descriptor
    sock: Option<int>,       // psocket_, by descriptor
    delay: nat,              // retry_delay_ms
    started: bool,           // connect() has been called
    wanted: set<int>,        // descriptors whose handle wants POLLOUT for this connector
    registered: set<int>,    // descriptors this connector registered with the poller
    removals: seq<int>,      // queued remove_poll_handle calls
    timers: nat,             // scheduled retries
    waits: seq<nat>,         // the delay of every retry scheduled so far
    delivered: nat,          // sockets handed to the callback
    used: set<int>)          // descriptors opened so far; release() never closes one

  function Fresh(hasCb: bool): Attempt {
    Attempt(hasCb, Disconnected, None, None, RETRY_DELAY_MS, false, {}, {}, [], 0, [], 0, {})
  }

  datatype Try = Ok(next: Attempt) | Fault

  function RetryConnect(c: Attempt): Attempt {
    var released := c.(sock := None);
    if c.state == Stop then released
    else released.(state := Disconnected, timers := c.timers + 1, waits := c.waits + [c.delay],
                   delay := Min(c.delay * 2, RETRY_CAP_MS))
  }

  function WaitWritable(c: Attempt): Try
    requires c.sock.Some?
  {
    var fd := c.sock.value;
    if c.hd.Some? then Fault
    else Ok(c.(state := Connecting, hd := Some(fd), wanted := c.wanted + {fd}, registered := c.registered + {fd}))
  }

  /** connect_in_loop, opening descriptor fd, when connect(2) answers err. */
  function ConnectInLoop(c: Attempt, fd: int, err: Errno): Try {
    var tried := c.(sock := Some(fd), used := c.used + {fd});
    match Classify(err)
    case Wait => WaitWritable(tried)
    case Retry => Ok(RetryConnect(tried))
    case GiveUp => Ok(tried.(sock := None))
  }

  function HandleWrite(c: Attempt, soError: int): Try {
    if c.state != Connecting then Ok(c)
    else if c.sock.None? then Fault
    else if soError != 0 then Ok(c)
    else if !c.hasCb then Ok(c.(sock := None))
    else if c.hd.None? then Fault
    else Ok(c.(wanted := c.wanted - {c.hd.value}, delivered := c.delivered + 1, sock := None))
  }

  function HandleError(c: Attempt): Try {
    if c.hd.None? || c.sock.None? then Fault
    else
      var fd := c.hd.value;
      Ok(RetryConnect(c.(wanted := c.wanted - {fd}, removals := c.removals + [fd], hd := None)))
  }

  function HandleCallback(c: Attempt, cb: Callback, soError: int): Try {
    match cb
    case OnError => HandleError(c)
    case OnWrite => HandleWrite(c, soError)
    case _ => Ok(c)
  }

  function HandleCallbacks(c: Attempt, cbs: seq<Callback>, soError: int): Try
    decreases |cbs|
  {
    if cbs == [] then Ok(c)
    else
      match HandleCallback(c, cbs[0], soError)
      case Ok(next) => HandleCallbacks(next, cbs[1..], soError)
      case Fault => Fault
  }

  datatype Action =
    | Connect(fd: int, err: Errno)
    | RetryFires(fd: int, err: Errno)
    | Event(revents: bv16, soError: int)
    | Removal

  /** A retry needs its timer, an event needs a handle that wants it, and a new descriptor is
      one not in use. */
  predicate Enabled(c: Attempt, a: Action) {
    match a
    case Connect(fd, _) => !c.started && fd !in c.used
    case RetryFires(fd, _) => c.timers > 0 && fd !in c.used
    case Event(_, _) => c.wanted != {}
    case Removal => c.removals != []
  }

  function Apply(c: Attempt, a: Action): Try
    requires Enabled(c, a)
  {
    match a
    case Connect(fd, err) => ConnectInLoop(c.(started := true), fd, err)
    case RetryFires(fd, err) => ConnectInLoop(c.(timers := c.timers - 1), fd, err)
    case Event(revents, soError) => HandleCallbacks(c, DispatchOrder(revents), soError)
    case Removal =>
      var fd := c.removals[0];
      if fd in c.registered && fd !in c.wanted then
        Ok(c.(registered := c.registered - {fd}, removals := c.removals[1..]))
      else Fault
  }

  // ------------------------------------------------------------------
  // The token: one socket in flight, or one scheduled retry, or neither
  // ------------------------------------------------------------------

  function Pow2(n: nat): nat { if n == 0 then 1 else 2 * Pow2(n - 1) }

  /** The wait before retry number n, counting from 0. */
  function Backoff(n: nat): nat { Min(RETRY_DELAY_MS * Pow2(n), RETRY_CAP_MS) }

  predicate Token(c: Attempt) {
    && c.timers <= 1
    && (c.timers == 1 ==> c.sock.None? && c.hd.None?)
    && (c.sock.Some? ==> c.hd == c.sock && c.wanted == {c.sock.value} && c.state == Connecting)
    && (c.sock.None? ==> c.wanted == {})
    && (c.delivered == if c.hd.Some? && c.sock.None? then 1 else 0)
    && (!c.started ==> c == Fresh(c.hasCb))
  }

  /** The registered handles are the current one and those waiting to be removed, each once. */
  ghost predicate Accounted(c: Attempt) {
    && c.registered <= c.used && Distinct(c.removals)
    && (forall fd :: fd in c.registered <==> c.hd == Some(fd) || fd in c.removals)
    && (c.hd.Some? ==> c.hd.value !in c.removals)
  }

  predicate BacksOff(c: Attempt) {
    && c.delay == Backoff(|c.waits|)
    && forall i :: 0 <= i < |c.waits| ==> c.waits[i] == Backoff(i)
  }

  ghost predicate Inv(c: Attempt) { c.hasCb && Token(c) && Accounted(c) && BacksOff(c) }

  lemma RetryKeepsBackoff(c: Attempt)
    requires BacksOff(c)
    ensures BacksOff(RetryConnect(c))
  {
  }

  lemma ConnectKeepsInv(c: Attempt, fd: int, err: Errno)
    requires c.hasCb && c.started && c.timers == 0 && c.sock.None? && c.hd.None? && c.wanted == {} && c.delivered == 0
    requires Accounted(c) && BacksOff(c) && fd !in c.used
    ensures ConnectInLoop(c, fd, err).Ok? && Inv(ConnectInLoop(c, fd, err).next)
  {
  }

  /** Error first: it takes the socket away and moves on, so the write callback of the same event
      finds nothing to do and touches nothing. */
  lemma ErrorThenWriteIsSafe(c: Attempt, soError: int)
    requires Inv(c) && c.sock.Some?
    ensures HandleError(c).Ok?
    ensures var e := HandleError(c).next;
            Inv(e) && e.sock.None? && e.timers == 1 && HandleWrite(e, soError) == Ok(e)
  {
  }

  lemma WriteKeepsInv(c: Attempt, soError: int)
    requires Inv(c) && c.sock.Some?
    ensures HandleWrite(c, soError).Ok? && Inv(HandleWrite(c, soError).next)
  {
  }

  /** The callbacks of one event that do something here. */
  lemma EventCallbacks(c: Attempt, revents: bv16, soError: int)
    ensures HandleCallbacks(c, DispatchOrder(revents), soError) ==
            var e := if Raises(revents, OnError) then HandleError(c) else Ok(c);
            if e.Ok? && Raises(revents, OnWrite) then HandleWrite(e.next, soError) else e
  {
    var e1 := When(Raises(revents, OnError), OnError);
    var e2 := When(Raises(revents, OnClose), OnClose);
    var e3 := When(Raises(revents, OnRead), OnRead);
    var e4 := When(Raises(revents, OnWrite), OnWrite);
    Concat(c, e1, e2 + e3 + e4, soError);
    assert e1 + (e2 + e3 + e4) == DispatchOrder(revents);
    var e := HandleCallbacks(c, e1, soError);
    if e.Ok? {
      Concat(e.next, e2, e3 + e4, soError);
      assert e2 + (e3 + e4) == e2 + e3 + e4;
      Concat(e.next, e3, e4, soError);
    }
  }

  lemma {:induction false} Concat(c: Attempt, xs: seq<Callback>, ys: seq<Callback>, soError: int)
    ensures HandleCallbacks(c, xs + ys, soError) ==
            match HandleCallbacks(c, xs, soError)
            case Ok(next) => HandleCallbacks(next, ys, soError)
            case Fault => Fault
    decreases |xs|
  {
    if xs == [] {
      assert xs + ys == ys;
    } else {
      assert (xs + ys)[1..] == xs[1..] + ys;
      var first := HandleCallback(c, xs[0], soError);
      if first.Ok? {
        Concat(first.next, xs[1..], ys, soError);
      }
    }
  }

  /** What one answer of connect(2) leads to, by the answer: the wait for the socket to become
      writable, a retry after the delay, or nothing more. */
  lemma ConnectExactly(c: Attempt, fd: int, err: Errno)
    requires c.hd.None? && c.state != Stop
    ensures var t := c.(used := c.used + {fd}, sock := None);
            ConnectInLoop(c, fd, err) == Ok(
              if err in {E0, EINPROGRESS, EINTR, EISCONN} then
                t.(state := Connecting, sock := Some(fd), hd := Some(fd),
                   wanted := c.wanted + {fd}, registered := c.registered + {fd})
              else if err in {EAGAIN, EADDRINUSE, EADDRNOTAVAIL, ECONNREFUSED, ENETUNREACH} then
                t.(state := Disconnected, timers := c.timers + 1, waits := c.waits + [c.delay],
                   delay := if c.delay < 1500 then 2 * c.delay else 3000)
              else t)
  {
  }

  /** What one event leads to while a socket is in flight, by the flags: an error gives the handle
      and the socket up and schedules a retry; otherwise writable without a socket error hands the
      socket over. */
  lemma EventExactly(c: Attempt, revents: bv16, soError: int)
    requires Inv(c) && c.sock.Some?
    ensures HandleCallbacks(c, DispatchOrder(revents), soError) == Ok(
              if revents & 0x28 != 0 then
                c.(state := Disconnected, hd := None, sock := None, wanted := {},
                   removals := c.removals + [c.sock.value], timers := 1, waits := c.waits + [c.delay],
                   delay := if c.delay < 1500 then 2 * c.delay else 3000)
              else if revents & 4 != 0 && soError == 0 then
                c.(sock := None, wanted := {}, delivered := 1)
              else c)
  {
    EventCallbacks(c, revents, soError);
    RaisesExactly(revents);
    ErrorThenWriteIsSafe(c, soError);
  }

  /** A queued removal takes its descriptor out of the poller, and nothing else. */
  lemma RemovalExactly(c: Attempt)
    requires Inv(c) && c.removals != []
    ensures c.removals[0] in c.registered && c.hd != Some(c.removals[0])
    ensures Apply(c, Removal) ==
            Ok(c.(registered := c.registered - {c.removals[0]}, removals := c.removals[1..]))
  {
    var fd := c.removals[0];
    assert fd in c.removals && fd in c.registered;
  }

  /** Every step of a connector with a callback is safe: no null dereference, and assert(!poll_hd_)
      holds. */
  lemma StepIsSafe(c: Attempt, a: Action)
    requires Inv(c) && Enabled(c, a)
    ensures Apply(c, a).Ok? && Inv(Apply(c, a).next)
  {
    match a
    case Connect(fd, err) => ConnectKeepsInv(c.(started := true), fd, err);
    case RetryFires(fd, err) => ConnectKeepsInv(c.(timers := c.timers - 1), fd, err);
    case Event(revents, soError) =>
      EventCallbacks(c, revents, soError);
      ErrorThenWriteIsSafe(c, soError);
      WriteKeepsInv(c, soError);
    case Removal =>
      DistinctTail(c.removals);
  }

  // ------------------------------------------------------------------
  // Runs
  // ------------------------------------------------------------------

  predicate Legal(c: Attempt, run: seq<Action>)
    decreases |run|
  {
    run == [] || (Enabled(c, run[0]) && (Apply(c, run[0]).Ok? ==> Legal(Apply(c, run[0]).next, run[1..])))
  }

  /** The state a run ends in, or the fault it stops at. */
  function Exec(c: Attempt, run: seq<Action>): Try
    requires Legal(c, run)
    decreases |run|
  {
    if run == [] then Ok(c)
    else match Apply(c, run[0])
      case Ok(next) => Exec(next, run[1..])
      case Fault => Fault
  }

  lemma {:induction false} RunIsSafe(c: Attempt, run: seq<Action>)
    requires Inv(c) && Legal(c, run)
    ensures Exec(c, run).Ok? && Inv(Exec(c, run).next)
    decreases |run|
  {
    if run == [] {
    } else {
      StepIsSafe(c, run[0]);
      RunIsSafe(Apply(c, run[0]).next, run[1..]);
    }
  }

  /** After one connect(): at most one socket in flight or retry scheduled, at most one socket
      delivered, and retry n waits min(500 * 2^n, 3000) ms. */
  lemma OneAttemptAtATime(run: seq<Action>)
    requires Legal(Fresh(true), run)
    ensures Exec(Fresh(true), run).Ok?
    ensures var c := Exec(Fresh(true), run).next;
            && c.timers + (if c.sock.Some? then 1 else 0) + c.delivered <= 1
            && (forall n :: 0 <= n < |c.waits| ==> c.waits[n] == Min(500 * Pow2(n), 3000))
  {
    assert Inv(Fresh(true)) by { assert Pow2(0) == 1; }
    RunIsSafe(Fresh(true), run);
  }

  /** A refused attempt, its retry after 500 ms, and the socket handed over. */
  lemma RetryThenDeliver() returns (run: seq<Action>)
    ensures run == [Connect(5, ECONNREFUSED), RetryFires(6, EINPROGRESS), Event(POLLOUT, 0)]
    ensures Legal(Fresh(true), run) && Exec(Fresh(true), run).Ok?
    ensures var c := Exec(Fresh(true), run).next; c.delivered == 1 && c.waits == [500] && c.delay == 1000
  {
    run := [Connect(5, ECONNREFUSED), RetryFires(6, EINPROGRESS), Event(POLLOUT, 0)];
    assert Inv(Fresh(true)) by { assert Pow2(0) == 1; }
    StepIsSafe(Fresh(true), run[0]);
    var c1 := Apply(Fresh(true), run[0]).next;
    StepIsSafe(c1, run[1]);
    var c2 := Apply(c1, run[1]).next;
    assert 6 in c2.wanted;
    EventExactly(c2, POLLOUT, 0);
    var c3 := Apply(c2, run[2]).next;
    assert run[1..] == [run[1], run[2]] && run[1..][1..] == [run[2]] && [run[2]][1..] == [];
    assert Apply(c2, run[2]) == Ok(c3) && Legal(c3, []) && Exec(c3, []) == Ok(c3);
    assert [run[2]][0] == run[2] && Legal(c2, [run[2]]);
    assert Exec(c2, [run[2]]) == Exec(c3, [run[2]][1..]);
    assert Legal(c1, run[1..]) && Exec(c1, run[1..]) == Ok(c3);
  }

  /** Without a callback a second write event finds the socket gone. */
  lemma NoCallbackFaults()
    ensures var run := [Connect(5, EINPROGRESS), Event(POLLOUT, 0), Event(POLLOUT, 0)];
            Legal(Fresh(false), run) && Exec(Fresh(false), run) == Fault
  {
    var run := [Connect(5, EINPROGRESS), Event(POLLOUT, 0), Event(POLLOUT, 0)];
    var c1 := Apply(Fresh(false), run[0]).next;
    EventCallbacks(c1, POLLOUT, 0);
    assert 5 in c1.wanted;
    assert Raises(POLLOUT, OnWrite) && !Raises(POLLOUT, OnError);
    var c2 := Apply(c1, run[1]).next;
    assert c2 == c1.(sock := None);
    EventCallbacks(c2, POLLOUT, 0);
    assert Apply(c2, run[2]) == Fault;
    assert run[1..] == [run[1], run[2]] && run[1..][1..] == [run[2]];
    assert Legal(c2, [run[2]]) && Exec(c2, [run[2]]) == Fault;
    assert Legal(c1, run[1..]) && Exec(c1, run[1..]) == Fault;
  }

  /** So the callback is exactly what the connector needs. */
  lemma SafeExactlyWithCallback(hasCb: bool)
    ensures (forall run :: Legal(Fresh(hasCb), run) ==> Exec(Fresh(hasCb), run).Ok?) <==> hasCb
  {
    if hasCb {
      forall run | Legal(Fresh(true), run) ensures Exec(Fresh(true), run).Ok? {
        OneAttemptAtATime(run);
      }
    } else {
      NoCallbackFaults();
    }
  }
}
