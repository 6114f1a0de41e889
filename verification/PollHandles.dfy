/** Poll flags, the interest mask and the dispatch order of src/net/source/poll_handle.cc. */
module PollHandles {

  const POLLIN: bv16 := 0x0001
  const POLLPRI: bv16 := 0x0002
  const POLLOUT: bv16 := 0x0004
  const POLLERR: bv16 := 0x0008
  const POLLHUP: bv16 := 0x0010
  const POLLNVAL: bv16 := 0x0020
  const POLLRDHUP: bv16 := 0x2000

  const EVENT_NONE: bv16 := 0
  const EVENT_READ: bv16 := POLLIN | POLLPRI
  const EVENT_WRITE: bv16 := POLLOUT

  function IsWriting(events: bv16): bool { events & EVENT_WRITE != 0 }
  function IsReading(events: bv16): bool { events & EVENT_READ != 0 }

  function EnableReading(events: bv16): (r: bv16)
    ensures IsReading(r) && IsWriting(r) == IsWriting(events) && r != EVENT_NONE
  {
    events | EVENT_READ
  }

  function EnableWriting(events: bv16): (r: bv16)
    ensures IsWriting(r) && IsReading(r) == IsReading(events) && r != EVENT_NONE
  {
    events | EVENT_WRITE
  }

  function DisableWriting(events: bv16): (r: bv16)
    ensures !IsWriting(r) && IsReading(r) == IsReading(events)
    ensures r == EVENT_NONE ==> !IsReading(events)
  {
    events & !EVENT_WRITE
  }

  /** The four ways a handle's mask changes. */
  datatype Change = ReadOn | WriteOn | WriteOff | AllOff

  function Changed(events: bv16, change: Change): bv16 {
    match change
    case ReadOn => EnableReading(events)
    case WriteOn => EnableWriting(events)
    case WriteOff => DisableWriting(events)
    case AllOff => EVENT_NONE
  }

  /** The changes by number: input is POLLIN and POLLPRI, 1 and 2; output is POLLOUT, 4. */
  lemma ChangedExactly(events: bv16, change: Change)
    ensures Changed(events, change) ==
            match change
            case ReadOn => events | 3
            case WriteOn => events | 4
            case WriteOff => events & 0xFFFB
            case AllOff => 0
  {
    match change
    case ReadOn =>
    case WriteOn =>
    case WriteOff =>
    case AllOff =>
  }

  /** revents, a short, is positive: some flag is set and the sign bit is not. */
  predicate Positive(revents: bv16) { 0 < revents < 0x8000 }

  datatype Callback = OnError | OnClose | OnRead | OnWrite

  predicate Raises(revents: bv16, cb: Callback) {
    match cb
    case OnError => revents & (POLLERR | POLLNVAL) != 0
    case OnClose => revents & POLLHUP != 0 && revents & POLLIN == 0
    case OnRead => revents & (POLLIN | POLLPRI | POLLRDHUP) != 0
    case OnWrite => revents & POLLOUT != 0
  }

  /** The tests by number: POLLIN 1, POLLPRI 2, POLLOUT 4, POLLERR 8, POLLHUP 0x10, POLLNVAL 0x20,
      POLLRDHUP 0x2000. */
  lemma RaisesExactly(revents: bv16)
    ensures Raises(revents, OnError) <==> revents & 0x28 != 0
    ensures Raises(revents, OnClose) <==> revents & 0x11 == 0x10
    ensures Raises(revents, OnRead) <==> revents & 0x2003 != 0
    ensures Raises(revents, OnWrite) <==> revents & 4 != 0
  {
  }

  function When(c: bool, cb: Callback): seq<Callback> { if c then [cb] else [] }

  const DONE: nat := 4

  /** The tests of handle_event, in order. */
  function Nth(k: nat): Callback
    requires k < DONE
  {
    if k == 0 then OnError else if k == 1 then OnClose else if k == 2 then OnRead else OnWrite
  }

  /** The callbacks handle_event runs, in order (all four are bound by bind_handler). */
  function DispatchOrder(revents: bv16): seq<Callback> {
    When(Raises(revents, Nth(0)), Nth(0))
    + When(Raises(revents, Nth(1)), Nth(1))
    + When(Raises(revents, Nth(2)), Nth(2))
    + When(Raises(revents, Nth(3)), Nth(3))
  }

  function Priority(cb: Callback): nat {
    match cb
    case OnError => 0
    case OnClose => 1
    case OnRead => 2
    case OnWrite => 3
  }

  /** The guarded calls, as what is raised is. */
  lemma GuardedCalls(error: bool, close: bool, read: bool, write: bool, cbs: seq<Callback>)
    requires cbs == When(error, OnError) + When(close, OnClose) + When(read, OnRead) + When(write, OnWrite)
    ensures forall cb ::
              cb in cbs <==> match cb
                             case OnError => error
                             case OnClose => close
                             case OnRead => read
                             case OnWrite => write
    ensures forall i, j :: 0 <= i < j < |cbs| ==> Priority(cbs[i]) < Priority(cbs[j])
  {
  }

  /** Every raised callback runs once, and only those, in the fixed order. */
  lemma DispatchOrderExact(revents: bv16)
    ensures forall cb :: cb in DispatchOrder(revents) <==> Raises(revents, cb)
    ensures forall i, j :: 0 <= i < j < |DispatchOrder(revents)|
              ==> Priority(DispatchOrder(revents)[i]) < Priority(DispatchOrder(revents)[j])
  {
    GuardedCalls(Raises(revents, OnError), Raises(revents, OnClose), Raises(revents, OnRead), Raises(revents, OnWrite),
                 DispatchOrder(revents));
  }
}
