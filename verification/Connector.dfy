/** The connector object (src/net/source/connector.cc).  Its methods follow the source; attempt is
    the state of Connecting that the object and its loop are in, and every method takes one of its
    steps. */
module Connector {
  import opened Common
  import opened PollHandles
  import opened Connecting

  class Client {
    var state: Phase
    var pollHd: Option<int>
    var psocket: Option<int>
    var retryDelayMs: nat
    ghost var attempt: Attempt

    ghost predicate Valid()
      reads this
    {
      && Inv(attempt)
      && attempt.state == state && attempt.hd == pollHd
      && attempt.sock == psocket && attempt.delay == retryDelayMs
    }

    /** A connector whose new-connection callback is set. */
    constructor ()
      ensures Valid() && attempt == Fresh(true)
    {
      state := Disconnected;
      pollHd, psocket := None, None;
      retryDelayMs := RETRY_DELAY_MS;
      attempt := Fresh(true);
      new;
      assert Pow2(0) == 1;
    }

    method RetryConnect()
      modifies this`state, this`psocket, this`retryDelayMs
      ensures psocket == None
      ensures old(state) == Stop ==> state == Stop && retryDelayMs == old(retryDelayMs)
      ensures old(state) != Stop ==>
                state == Disconnected && retryDelayMs == Min(old(retryDelayMs) * 2, RETRY_CAP_MS)
    {
      psocket := None;
      if state != Stop {
        state := Disconnected;
        retryDelayMs := Min(retryDelayMs * 2, RETRY_CAP_MS);
      }
    }

    /** connect_in_loop, run by connect() or by the retry timer. */
    method ConnectInLoop(fd: int, err: Errno, byTimer: bool)
      requires Valid()
      requires Enabled(attempt, if byTimer then RetryFires(fd, err) else Connect(fd, err))
      modifies this
      ensures Valid()
      ensures Ok(attempt) == Apply(old(attempt), if byTimer then RetryFires(fd, err) else Connect(fd, err))
    {
      ghost var a := if byTimer then RetryFires(fd, err) else Connect(fd, err);
      StepIsSafe(attempt, a);
      psocket := Some(fd);
      match Classify(err) {
        case Wait =>
          state := Phase.Connecting;
          assert pollHd == None;
          pollHd := psocket;
        case Retry =>
          RetryConnect();
        case GiveUp =>
          psocket := None;
      }
      attempt := Apply(attempt, a).next;
    }

    /** handle_write; delivered says whether the socket went to the callback. */
    method HandleWrite(soError: int) returns (delivered: bool)
      requires Valid() && (psocket.Some? || state != Phase.Connecting)
      modifies this
      ensures Valid() && Ok(attempt) == Connecting.HandleWrite(old(attempt), soError)
      ensures delivered <==> old(psocket).Some? && soError == 0
    {
      delivered := false;
      if state == Phase.Connecting {
        WriteKeepsInv(attempt, soError);
        attempt := Connecting.HandleWrite(attempt, soError).next;
        if soError == 0 {
          assert pollHd.Some?;
          delivered := true;
          psocket := None;
        }
      }
    }

    /** handle_error: the handle is given up and its removal queued before the retry. */
    method HandleError()
      requires Valid() && psocket.Some?
      modifies this
      ensures Valid() && Ok(attempt) == Connecting.HandleError(old(attempt))
      ensures attempt.removals == old(attempt).removals + [old(psocket).value] && psocket == None
    {
      assert pollHd.Some?;
      ErrorThenWriteIsSafe(attempt, 0);
      attempt := Connecting.HandleError(attempt).next;
      pollHd := None;
      RetryConnect();
    }

    /** poll_handle::handle_event on the connector's handle. */
    method HandleEvent(revents: bv16, soError: int)
      requires Valid() && psocket.Some?
      modifies this
      ensures Valid() && Ok(attempt) == HandleCallbacks(old(attempt), DispatchOrder(revents), soError)
    {
      EventCallbacks(attempt, revents, soError);
      if Raises(revents, OnError) {
        ErrorThenWriteIsSafe(attempt, soError);
        HandleError();
      }
      if Raises(revents, OnWrite) {
        var _ := HandleWrite(soError);
      }
    }
  }
}
