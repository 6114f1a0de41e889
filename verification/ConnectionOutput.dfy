/** The output side of src/net/source/tcp_connection.cc before the connection closes: partial
    writes, write interest, and shutdown once everything has been written.

    Conn is the connection as a value and the functions on it are the specification; the class
    TcpConnection.Connection implements them over a Buffer.  ret is always what write(2) returned:
    -1, or the number of bytes the kernel took out of those offered.  Callbacks run inside the
    calls that trigger them and may call back, to any finite depth. */
module ConnectionOutput {
  import opened Common
  import opened ConnStates
  import opened ByteBuffer

  const HIGH_WATERMARK: nat := 64 * 1024 * 1024

  datatype Conn = Conn(
    state: ConnState,
    writing: bool,         // the poll handle wants POLLOUT
    oup: seq<byte>,        // readable bytes of oup_buffer_
    shut: bool,            // shutdown_write has been called
    kernel: seq<byte>,     // every byte the kernel took
    accepted: seq<byte>)   // every message given to send_in_loop

  const ESTABLISHED := Conn(Connected, false, [], false, [], [])

  /** A call user code makes on the connection, on the loop thread.  high is what the high-watermark
      callback does when this send runs it; [] also stands for no callback. */
  datatype Call =
    | SendCall(msg: seq<byte>, len: nat, ret: int, high: seq<Call>)
    | ShotdownCall

  /** send() offers the first len bytes, or all of them when len is 0. */
  function Offered(msg: seq<byte>, len: nat): seq<byte>
    requires len <= |msg|
  {
    if len > 0 then msg[..len] else msg
  }

  predicate WritesDirectly(c: Conn) { !c.writing && c.oup == [] }

  /** The contract of write(2) on n offered bytes. */
  predicate WriteResult(ret: int, n: nat) { -1 <= ret <= n }

  function Written(c: Conn, ret: int): nat {
    if WritesDirectly(c) && ret > 0 then ret else 0
  }

  /** The high-watermark callback runs: what is left crosses the mark. */
  predicate Crosses(c: Conn, remain: int) {
    remain > 0 && |c.oup| + remain > HIGH_WATERMARK && |c.oup| < HIGH_WATERMARK
  }

  function DirectWrite(c: Conn, msg: seq<byte>, ret: int): Conn
    requires WritesDirectly(c) ==> WriteResult(ret, |msg|)
  {
    c.(kernel := c.kernel + msg[..Written(c, ret)], accepted := c.accepted + msg)
  }

  function Enqueue(c: Conn, bytes: seq<byte>): Conn {
    if bytes == [] then c else c.(oup := c.oup + bytes, writing := true)
  }

  // --- the contract of write(2), wherever a call or its callbacks reach it ---

  predicate SendOk(c: Conn, msg: seq<byte>, ret: int, high: seq<Call>)
    decreases high, 1
  {
    && (WritesDirectly(c) ==> WriteResult(ret, |msg|))
    && (Crosses(c, |msg| - Written(c, ret)) ==> ScriptOk(DirectWrite(c, msg, ret), high))
  }

  predicate CallOk(c: Conn, call: Call)
    decreases call, 0
  {
    call.SendCall? ==>
      && call.len <= |call.msg|
      && (c.state == Connected ==> SendOk(c, Offered(call.msg, call.len), call.ret, call.high))
  }

  predicate ScriptOk(c: Conn, script: seq<Call>)
    decreases script, 0
  {
    script == [] || (CallOk(c, script[0]) && ScriptOk(DoCall(c, script[0]), script[1..]))
  }

  // --- what the calls do ---

  /** send_in_loop, in the source's order: direct write, watermark callback, append. */
  function SendInLoop(c: Conn, msg: seq<byte>, ret: int, high: seq<Call>): Conn
    requires SendOk(c, msg, ret, high)
    decreases high, 2
  {
    var direct := DirectWrite(c, msg, ret);
    var remain := msg[Written(c, ret)..];
    Enqueue(if Crosses(c, |remain|) then DoScript(direct, high) else direct, remain)
  }

  function ShotdownInLoop(c: Conn): Conn { if c.writing then c else c.(shut := true) }

  function Shotdown(c: Conn): Conn {
    if c.state == Connected then ShotdownInLoop(c.(state := Disconnecting)) else c
  }

  function DoCall(c: Conn, call: Call): Conn
    requires CallOk(c, call)
    decreases call, 1
  {
    if c.state != Connected then c
    else match call
      case SendCall(msg, len, ret, high) => SendInLoop(c, Offered(msg, len), ret, high)
      case ShotdownCall => Shotdown(c)
  }

  function DoScript(c: Conn, script: seq<Call>): Conn
    requires ScriptOk(c, script)
    decreases script, 1
  {
    if script == [] then c else DoScript(DoCall(c, script[0]), script[1..])
  }

  /** The write part of handle_write. */
  function Flush(c: Conn, ret: int): Conn
    requires WriteResult(ret, |c.oup|)
  {
    if ret <= 0 then c
    else c.(kernel := c.kernel + c.oup[..ret], oup := c.oup[ret..], writing := ret < |c.oup|)
  }

  /** The write event drains the buffer, so write_complete_cb_ runs. */
  predicate Drains(c: Conn, ret: int) { c.writing && ret > 0 && ret == |c.oup| }

  /** handle_write; script is what write_complete_cb_ does when the buffer drains. */
  predicate WritableOk(c: Conn, ret: int, script: seq<Call>) {
    c.writing ==> WriteResult(ret, |c.oup|) && (Drains(c, ret) ==> ScriptOk(Flush(c, ret), script))
  }

  function HandleWrite(c: Conn, ret: int, script: seq<Call>): Conn
    requires WritableOk(c, ret, script)
  {
    if !c.writing then c
    else if !Drains(c, ret) then Flush(c, ret)
    else
      var done := DoScript(Flush(c, ret), script);
      if done.state == Disconnecting then ShotdownInLoop(done) else done
  }

  // ------------------------------------------------------------------
  // Runs
  // ------------------------------------------------------------------

  datatype Op =
    | UserCall(call: Call)
    | Writable(ret: int, script: seq<Call>)

  predicate OpOk(c: Conn, op: Op) {
    match op
    case UserCall(call) => CallOk(c, call)
    case Writable(ret, script) => WritableOk(c, ret, script)
  }

  function DoOp(c: Conn, op: Op): Conn
    requires OpOk(c, op)
  {
    match op
    case UserCall(call) => DoCall(c, call)
    case Writable(ret, script) => HandleWrite(c, ret, script)
  }

  predicate RunOk(c: Conn, run: seq<Op>)
    decreases |run|
  {
    run == [] || (OpOk(c, run[0]) && RunOk(DoOp(c, run[0]), run[1..]))
  }

  function DoRun(c: Conn, run: seq<Op>): Conn
    requires RunOk(c, run)
    decreases |run|
  {
    if run == [] then c else DoRun(DoOp(c, run[0]), run[1..])
  }

  // ------------------------------------------------------------------
  // The stream: what is emitted and what is given
  // ------------------------------------------------------------------

  /** The bytes a send puts behind those in the kernel and the buffer: what the callback it runs
      emits comes before its own rest. */
  function EmittedBySend(c: Conn, msg: seq<byte>, ret: int, high: seq<Call>): seq<byte>
    requires SendOk(c, msg, ret, high)
    decreases high, 2
  {
    var n := Written(c, ret);
    msg[..n] + (if Crosses(c, |msg| - n) then EmittedByScript(DirectWrite(c, msg, ret), high) else []) + msg[n..]
  }

  function EmittedByCall(c: Conn, call: Call): seq<byte>
    requires CallOk(c, call)
    decreases call, 1
  {
    if call.SendCall? && c.state == Connected
    then EmittedBySend(c, Offered(call.msg, call.len), call.ret, call.high) else []
  }

  function EmittedByScript(c: Conn, script: seq<Call>): seq<byte>
    requires ScriptOk(c, script)
    decreases script, 1
  {
    if script == [] then []
    else EmittedByCall(c, script[0]) + EmittedByScript(DoCall(c, script[0]), script[1..])
  }

  /** The bytes handed to send_in_loop by a send and by what it runs, in the order of the calls. */
  function GivenBySend(c: Conn, msg: seq<byte>, ret: int, high: seq<Call>): seq<byte>
    requires SendOk(c, msg, ret, high)
    decreases high, 2
  {
    msg + if Crosses(c, |msg| - Written(c, ret)) then GivenByScript(DirectWrite(c, msg, ret), high) else []
  }

  function GivenByCall(c: Conn, call: Call): seq<byte>
    requires CallOk(c, call)
    decreases call, 1
  {
    if call.SendCall? && c.state == Connected
    then GivenBySend(c, Offered(call.msg, call.len), call.ret, call.high) else []
  }

  function GivenByScript(c: Conn, script: seq<Call>): seq<byte>
    requires ScriptOk(c, script)
    decreases script, 1
  {
    if script == [] then []
    else GivenByCall(c, script[0]) + GivenByScript(DoCall(c, script[0]), script[1..])
  }

  function EmittedByOp(c: Conn, op: Op): seq<byte>
    requires OpOk(c, op)
  {
    match op
    case UserCall(call) => EmittedByCall(c, call)
    case Writable(ret, script) => if Drains(c, ret) then EmittedByScript(Flush(c, ret), script) else []
  }

  function GivenByOp(c: Conn, op: Op): seq<byte>
    requires OpOk(c, op)
  {
    match op
    case UserCall(call) => GivenByCall(c, call)
    case Writable(ret, script) => if Drains(c, ret) then GivenByScript(Flush(c, ret), script) else []
  }

  function Emitted(c: Conn, run: seq<Op>): seq<byte>
    requires RunOk(c, run)
    decreases |run|
  {
    if run == [] then [] else EmittedByOp(c, run[0]) + Emitted(DoOp(c, run[0]), run[1..])
  }

  function Given(c: Conn, run: seq<Op>): seq<byte>
    requires RunOk(c, run)
    decreases |run|
  {
    if run == [] then [] else GivenByOp(c, run[0]) + Given(DoOp(c, run[0]), run[1..])
  }

  /** Write interest is on exactly while bytes wait. */
  predicate InterestFits(c: Conn) { c.writing <==> c.oup != [] }

  /** t is what c becomes by emitting and accepting these bytes. */
  predicate Grows(c: Conn, t: Conn, emitted: seq<byte>, given: seq<byte>) {
    InterestFits(t) && t.kernel + t.oup == (c.kernel + c.oup) + emitted && t.accepted == c.accepted + given
  }

  lemma Joined(a: seq<byte>, b: seq<byte>, c: seq<byte>)
    ensures (a + b) + c == a + (b + c)
  {
  }

  lemma GrowsTwice(c: Conn, d: Conn, t: Conn, e: seq<byte>, g: seq<byte>, e': seq<byte>, g': seq<byte>)
    requires Grows(c, d, e, g) && Grows(d, t, e', g')
    ensures Grows(c, t, e + e', g + g')
  {
    Joined(c.kernel + c.oup, e, e');
    Joined(c.accepted, g, g');
  }

  lemma DirectGrows(c: Conn, msg: seq<byte>, ret: int)
    requires InterestFits(c) && (WritesDirectly(c) ==> WriteResult(ret, |msg|))
    ensures Grows(c, DirectWrite(c, msg, ret), msg[..Written(c, ret)], msg)
  {
    var n := Written(c, ret);
    if c.oup == [] {
      assert c.kernel + [] == c.kernel && (c.kernel + msg[..n]) + [] == c.kernel + msg[..n];
    } else {
      assert msg[..n] == [] && c.kernel + [] == c.kernel && (c.kernel + c.oup) + [] == c.kernel + c.oup;
    }
  }

  lemma EnqueueGrows(c: Conn, bytes: seq<byte>)
    requires InterestFits(c)
    ensures Grows(c, Enqueue(c, bytes), bytes, [])
  {
    Joined(c.kernel, c.oup, bytes);
    assert c.accepted + [] == c.accepted && (c.kernel + c.oup) + [] == c.kernel + c.oup;
  }

  lemma NothingGrows(c: Conn)
    requires InterestFits(c)
    ensures Grows(c, c, [], [])
  {
    assert (c.kernel + c.oup) + [] == c.kernel + c.oup && c.accepted + [] == c.accepted;
  }

  lemma {:induction false} SendGrows(c: Conn, msg: seq<byte>, ret: int, high: seq<Call>)
    requires InterestFits(c) && SendOk(c, msg, ret, high)
    ensures Grows(c, SendInLoop(c, msg, ret, high), EmittedBySend(c, msg, ret, high), GivenBySend(c, msg, ret, high))
    decreases high, 2
  {
    var n := Written(c, ret);
    var direct := DirectWrite(c, msg, ret);
    var rest := msg[n..];
    DirectGrows(c, msg, ret);
    if Crosses(c, |rest|) {
      ScriptGrows(direct, high);
      var e, g := EmittedByScript(direct, high), GivenByScript(direct, high);
      GrowsTwice(c, direct, DoScript(direct, high), msg[..n], msg, e, g);
      EnqueueGrows(DoScript(direct, high), rest);
      GrowsTwice(c, DoScript(direct, high), SendInLoop(c, msg, ret, high), msg[..n] + e, msg + g, rest, []);
      assert (msg + g) + [] == msg + g;
    } else {
      EnqueueGrows(direct, rest);
      GrowsTwice(c, direct, SendInLoop(c, msg, ret, high), msg[..n], msg, rest, []);
      assert msg[..n] + [] == msg[..n];
    }
  }

  lemma {:induction false} CallGrows(c: Conn, call: Call)
    requires InterestFits(c) && CallOk(c, call)
    ensures Grows(c, DoCall(c, call), EmittedByCall(c, call), GivenByCall(c, call))
    decreases call, 1
  {
    if call.SendCall? && c.state == Connected {
      SendGrows(c, Offered(call.msg, call.len), call.ret, call.high);
    } else {
      NothingGrows(c);
    }
  }

  /** What a script emits comes behind what was there, however deep its callbacks nest. */
  lemma {:induction false} ScriptGrows(c: Conn, script: seq<Call>)
    requires InterestFits(c) && ScriptOk(c, script)
    ensures Grows(c, DoScript(c, script), EmittedByScript(c, script), GivenByScript(c, script))
    decreases script, 1
  {
    if script == [] {
      NothingGrows(c);
    } else {
      var d := DoCall(c, script[0]);
      CallGrows(c, script[0]);
      ScriptGrows(d, script[1..]);
      GrowsTwice(c, d, DoScript(c, script), EmittedByCall(c, script[0]), GivenByCall(c, script[0]),
                 EmittedByScript(d, script[1..]), GivenByScript(d, script[1..]));
    }
  }

  lemma FlushGrows(c: Conn, ret: int)
    requires InterestFits(c) && c.writing && WriteResult(ret, |c.oup|)
    ensures Grows(c, Flush(c, ret), [], [])
  {
    NothingGrows(c);
    if ret > 0 {
      assert c.oup == c.oup[..ret] + c.oup[ret..];
      Joined(c.kernel, c.oup[..ret], c.oup[ret..]);
    }
  }

  lemma OpGrows(c: Conn, op: Op)
    requires InterestFits(c) && OpOk(c, op)
    ensures Grows(c, DoOp(c, op), EmittedByOp(c, op), GivenByOp(c, op))
  {
    match op
    case UserCall(call) => CallGrows(c, call);
    case Writable(ret, script) =>
      if Drains(c, ret) {
        var f := Flush(c, ret);
        FlushGrows(c, ret);
        ScriptGrows(f, script);
        GrowsTwice(c, f, DoScript(f, script), [], [], EmittedByScript(f, script), GivenByScript(f, script));
      } else if c.writing {
        FlushGrows(c, ret);
      } else {
        NothingGrows(c);
      }
  }

  lemma {:induction false} RunGrows(c: Conn, run: seq<Op>)
    requires InterestFits(c) && RunOk(c, run)
    ensures Grows(c, DoRun(c, run), Emitted(c, run), Given(c, run))
    decreases |run|
  {
    if run == [] {
      NothingGrows(c);
    } else {
      var d := DoOp(c, run[0]);
      OpGrows(c, run[0]);
      RunGrows(d, run[1..]);
      GrowsTwice(c, d, DoRun(c, run), EmittedByOp(c, run[0]), GivenByOp(c, run[0]),
                 Emitted(d, run[1..]), Given(d, run[1..]));
    }
  }

  /** What the kernel took and what waits are together exactly what the run's calls emitted, and
      so the messages sent while connected, in order, exactly when the two agree. */
  lemma StreamIsWhatWasSent(run: seq<Op>)
    requires RunOk(ESTABLISHED, run)
    ensures var t := DoRun(ESTABLISHED, run);
            && t.kernel + t.oup == Emitted(ESTABLISHED, run) && t.accepted == Given(ESTABLISHED, run)
            && (t.kernel + t.oup == t.accepted <==> Emitted(ESTABLISHED, run) == Given(ESTABLISHED, run))
  {
    RunGrows(ESTABLISHED, run);
    assert [] + Emitted(ESTABLISHED, run) == Emitted(ESTABLISHED, run);
    assert [] + Given(ESTABLISHED, run) == Given(ESTABLISHED, run);
  }

  // ------------------------------------------------------------------
  // Graceful shutdown
  // ------------------------------------------------------------------

  /** The write side is shut exactly when a shutdown was asked for and nothing waits. */
  predicate ShutFits(c: Conn) {
    && (c.state == Connected || c.state == Disconnecting)
    && (c.shut <==> c.state == Disconnecting && c.oup == [])
  }

  /** The write side is shut with bytes waiting. */
  predicate ShutUnder(c: Conn) { c.state == Disconnecting && c.shut && c.oup != [] }

  /** A watermark callback asks for the shutdown while write interest is off, so it is done under
      the rest of the message that triggered the callback.  under: the call is inside one. */
  predicate CallShutsUnder(c: Conn, call: Call, under: bool)
    requires CallOk(c, call)
    decreases call, 1
  {
    c.state == Connected &&
    match call
    case SendCall(msg, len, ret, high) =>
      var offered := Offered(msg, len);
      assert SendOk(c, offered, ret, high);
      Crosses(c, |offered| - Written(c, ret)) && ScriptShutsUnder(DirectWrite(c, offered, ret), high, true)
    case ShotdownCall => under && !c.writing
  }

  predicate ScriptShutsUnder(c: Conn, script: seq<Call>, under: bool)
    requires ScriptOk(c, script)
    decreases script, 1
  {
    script != [] &&
    (CallShutsUnder(c, script[0], under) || ScriptShutsUnder(DoCall(c, script[0]), script[1..], under))
  }

  /** While a shutdown is pending, calls change nothing. */
  lemma {:induction false} ScriptWhileDisconnecting(c: Conn, script: seq<Call>)
    requires ScriptOk(c, script) && c.state != Connected
    ensures DoScript(c, script) == c && (forall under :: !ScriptShutsUnder(c, script, under))
    ensures EmittedByScript(c, script) == [] && GivenByScript(c, script) == []
    decreases |script|
  {
    if script == [] {
    } else {
      ScriptWhileDisconnecting(c, script[1..]);
    }
  }

  /** Where a connected connection stands after a call or a script inside a callback. */
  predicate Inside(t: Conn, shuts: bool) {
    && InterestFits(t) && (t.shut <==> shuts)
    && (t.state == Connected || t.state == Disconnecting)
    && (t.state == Connected ==> !t.shut)
    && (t.state == Disconnecting && !t.shut ==> t.oup != [])
  }

  lemma {:induction false} CallInside(c: Conn, call: Call)
    requires InterestFits(c) && c.state == Connected && !c.shut && CallOk(c, call)
    ensures Inside(DoCall(c, call), CallShutsUnder(c, call, true))
    decreases call, 1
  {
    CallGrows(c, call);
    if call.SendCall? {
      var msg := Offered(call.msg, call.len);
      if Crosses(c, |msg| - Written(c, call.ret)) {
        ShutsExactly(DirectWrite(c, msg, call.ret), call.high);
      }
    }
  }

  /** A callback shuts the write side exactly when it, or a callback nested in it, asks to before
      any byte waits. */
  lemma {:induction false} ShutsExactly(c: Conn, script: seq<Call>)
    requires InterestFits(c) && c.state == Connected && !c.shut && ScriptOk(c, script)
    ensures Inside(DoScript(c, script), ScriptShutsUnder(c, script, true))
    decreases script, 1
  {
    if script == [] {
    } else {
      var d := DoCall(c, script[0]);
      CallInside(c, script[0]);
      if d.state == Connected {
        ShutsExactly(d, script[1..]);
      } else {
        ScriptWhileDisconnecting(d, script[1..]);
      }
    }
  }

  /** Outside of callbacks, a call keeps the shutdown graceful exactly when no callback it runs
      shuts under it. */
  lemma CallShutFits(c: Conn, call: Call)
    requires InterestFits(c) && ShutFits(c) && CallOk(c, call)
    ensures ShutFits(DoCall(c, call)) <==> !CallShutsUnder(c, call, false)
    ensures ShutFits(DoCall(c, call)) || ShutUnder(DoCall(c, call))
    ensures c.state == Connected && DoCall(c, call).state == Connected ==> !CallShutsUnder(c, call, false)
  {
    CallGrows(c, call);
    if c.state == Connected && call.SendCall? {
      var msg := Offered(call.msg, call.len);
      if Crosses(c, |msg| - Written(c, call.ret)) {
        ShutsExactly(DirectWrite(c, msg, call.ret), call.high);
      }
    }
  }

  lemma {:induction false} ScriptShutFits(c: Conn, script: seq<Call>)
    requires InterestFits(c) && ShutFits(c) && ScriptOk(c, script)
    ensures ShutFits(DoScript(c, script)) <==> !ScriptShutsUnder(c, script, false)
    ensures ShutFits(DoScript(c, script)) || ShutUnder(DoScript(c, script))
    decreases |script|
  {
    if script == [] {
    } else {
      var d := DoCall(c, script[0]);
      CallShutFits(c, script[0]);
      CallGrows(c, script[0]);
      if d.state == Connected {
        ScriptShutFits(d, script[1..]);
      } else {
        ScriptWhileDisconnecting(d, script[1..]);
      }
    }
  }

  // ------------------------------------------------------------------
  // The invariant, over whole runs
  // ------------------------------------------------------------------

  /** No byte is lost, doubled or reordered; write interest is on exactly while bytes wait; the
      write side is shut exactly when a shutdown was asked for and nothing waits. */
  predicate Inv(c: Conn) {
    c.kernel + c.oup == c.accepted && InterestFits(c) && ShutFits(c)
  }

  predicate ShutsUnder(c: Conn, op: Op)
    requires OpOk(c, op)
  {
    match op
    case UserCall(call) => CallShutsUnder(c, call, false)
    case Writable(ret, script) => Drains(c, ret) && ScriptShutsUnder(Flush(c, ret), script, false)
  }

  /** Of what the step's watermark callbacks do nothing overtakes and nothing shuts under a rest. */
  predicate Harmless(c: Conn, op: Op)
    requires OpOk(c, op)
  {
    EmittedByOp(c, op) == GivenByOp(c, op) && !ShutsUnder(c, op)
  }

  lemma InOrderExactly(c: Conn, t: Conn, emitted: seq<byte>, given: seq<byte>)
    requires c.kernel + c.oup == c.accepted && Grows(c, t, emitted, given)
    ensures t.kernel + t.oup == t.accepted <==> emitted == given
  {
    var n := |c.accepted|;
    assert (c.accepted + emitted)[n..] == emitted && (c.accepted + given)[n..] == given;
  }

  /** The write event of a pending shutdown: the callback's calls do nothing. */
  lemma FlushWhileDisconnecting(c: Conn, ret: int, script: seq<Call>)
    requires InterestFits(c) && ShutFits(c) && c.state == Disconnecting && WritableOk(c, ret, script)
    ensures ShutFits(HandleWrite(c, ret, script)) && Harmless(c, Writable(ret, script))
  {
    if Drains(c, ret) { ScriptWhileDisconnecting(Flush(c, ret), script); }
  }

  lemma FlushWhileConnected(c: Conn, ret: int, script: seq<Call>)
    requires InterestFits(c) && ShutFits(c) && c.state == Connected && WritableOk(c, ret, script)
    ensures ShutFits(HandleWrite(c, ret, script)) <==> !ShutsUnder(c, Writable(ret, script))
  {
    if Drains(c, ret) {
      var f := Flush(c, ret);
      ScriptShutFits(f, script);
      ScriptGrows(f, script);
    }
  }

  /** One step, a call or a write event with anything its callbacks do, keeps the invariant
      exactly when it is harmless. */
  lemma StepExactly(c: Conn, op: Op)
    requires Inv(c) && OpOk(c, op)
    ensures Inv(DoOp(c, op)) <==> Harmless(c, op)
  {
    OpGrows(c, op);
    InOrderExactly(c, DoOp(c, op), EmittedByOp(c, op), GivenByOp(c, op));
    match op
    case UserCall(call) => CallShutFits(c, call);
    case Writable(ret, script) =>
      if c.state == Connected {
        FlushWhileConnected(c, ret, script);
      } else {
        FlushWhileDisconnecting(c, ret, script);
      }
  }

  /** The invariant holds in every state of the run. */
  predicate AlwaysInv(c: Conn, run: seq<Op>)
    requires RunOk(c, run)
    decreases |run|
  {
    Inv(c) && (run == [] || AlwaysInv(DoOp(c, run[0]), run[1..]))
  }

  predicate AllHarmless(c: Conn, run: seq<Op>)
    requires RunOk(c, run)
    decreases |run|
  {
    run == [] || (Harmless(c, run[0]) && AllHarmless(DoOp(c, run[0]), run[1..]))
  }

  /** Conservation and graceful shutdown: the invariant holds in every state of a run, for any
      pattern of partial, zero or failed writes and any callbacks, exactly when every step is
      harmless. */
  lemma {:induction false} Conservation(c: Conn, run: seq<Op>)
    requires Inv(c) && RunOk(c, run)
    ensures AlwaysInv(c, run) <==> AllHarmless(c, run)
    ensures AllHarmless(c, run) ==> Inv(DoRun(c, run))
    decreases |run|
  {
    if run == [] {
    } else {
      StepExactly(c, run[0]);
      if Inv(DoOp(c, run[0])) { Conservation(DoOp(c, run[0]), run[1..]); }
    }
  }

  /** No watermark callback calls back; write-complete callbacks may. */
  predicate QuietScript(script: seq<Call>) {
    forall call :: call in script && call.SendCall? ==> call.high == []
  }

  predicate QuietOp(op: Op) {
    match op
    case UserCall(call) => QuietScript([call])
    case Writable(_, script) => QuietScript(script)
  }

  lemma QuietCallIsHarmless(c: Conn, call: Call)
    requires CallOk(c, call) && (call.SendCall? ==> call.high == [])
    ensures EmittedByCall(c, call) == GivenByCall(c, call) && !CallShutsUnder(c, call, false)
  {
    if call.SendCall? && c.state == Connected {
      var msg := Offered(call.msg, call.len);
      var n := Written(c, call.ret);
      assert EmittedBySend(c, msg, call.ret, []) == msg[..n] + [] + msg[n..] == msg;
      assert GivenBySend(c, msg, call.ret, []) == msg + [] == msg;
    }
  }

  lemma {:induction false} QuietScriptIsHarmless(c: Conn, script: seq<Call>)
    requires ScriptOk(c, script) && QuietScript(script)
    ensures EmittedByScript(c, script) == GivenByScript(c, script) && !ScriptShutsUnder(c, script, false)
    decreases |script|
  {
    if script == [] {
    } else {
      QuietCallIsHarmless(c, script[0]);
      QuietScriptIsHarmless(DoCall(c, script[0]), script[1..]);
    }
  }

  lemma QuietOpIsHarmless(c: Conn, op: Op)
    requires OpOk(c, op) && QuietOp(op)
    ensures Harmless(c, op)
  {
    match op
    case UserCall(call) =>
      assert call in [call];
      QuietCallIsHarmless(c, call);
    case Writable(ret, script) =>
      if Drains(c, ret) { QuietScriptIsHarmless(Flush(c, ret), script); }
  }

  /** So watermark callbacks that do not call back are always safe: the invariant holds in every
      state of the run, and the stream is the messages sent while connected, in order. */
  lemma {:induction false} QuietRunsConserve(c: Conn, run: seq<Op>)
    requires Inv(c) && RunOk(c, run) && forall op :: op in run ==> QuietOp(op)
    ensures AllHarmless(c, run) && AlwaysInv(c, run) && Inv(DoRun(c, run))
    ensures Emitted(c, run) == Given(c, run)
    decreases |run|
  {
    if run == [] {
    } else {
      QuietOpIsHarmless(c, run[0]);
      StepExactly(c, run[0]);
      QuietRunsConserve(DoOp(c, run[0]), run[1..]);
    }
  }

  /** Shutdown is graceful: when the write side is shut every accepted byte is in the kernel, and
      no run from there writes, accepts or queues anything more. */
  lemma {:induction false} NoByteAfterShutdown(c: Conn, run: seq<Op>)
    requires Inv(c) && c.shut && RunOk(c, run)
    ensures c.kernel == c.accepted && DoRun(c, run) == c
    decreases |run|
  {
    assert c.kernel + [] == c.kernel;
    if run == [] {
    } else {
      assert DoOp(c, run[0]) == c;
      NoByteAfterShutdown(c, run[1..]);
    }
  }

  /** A pending shutdown is performed by the very write that drains the buffer, whatever the
      write-complete callback tries. */
  lemma DrainPerformsShutdown(c: Conn, ret: int, script: seq<Call>)
    requires Inv(c) && c.state == Disconnecting && c.writing && WritableOk(c, ret, script)
    ensures HandleWrite(c, ret, script).shut <==> ret == |c.oup|
  {
    if ret == |c.oup| { ScriptWhileDisconnecting(Flush(c, ret), script); }
  }

  // ------------------------------------------------------------------
  // When the callbacks run
  // ------------------------------------------------------------------

  /** Shutting down once more changes nothing. */
  lemma ShutOnce(c: Conn)
    requires InterestFits(c) && (ShutFits(c) || ShutUnder(c)) && c.state == Disconnecting
    ensures ShotdownInLoop(c) == c
  {
  }

  /** The write event, by what the kernel takes.  The write that empties the buffer runs the
      write-complete callback, on a connection that is no longer writing, and performs a pending
      shutdown; any other write runs nothing, whatever the callback would do. */
  lemma HandleWriteExactly(c: Conn, ret: int, script: seq<Call>)
    requires Inv(c)
    ensures !c.writing ==> WritableOk(c, ret, script) && HandleWrite(c, ret, script) == c
    ensures c.writing && -1 <= ret < |c.oup| ==>
              var n := Max(ret, 0);
              && WritableOk(c, ret, script)
              && HandleWrite(c, ret, script) == c.(kernel := c.kernel + c.oup[..n], oup := c.oup[n..])
    ensures c.writing && ret == |c.oup| ==>
              var empty := c.(kernel := c.kernel + c.oup, oup := [], writing := false);
              ScriptOk(empty, script) ==>
                && WritableOk(c, ret, script)
                && HandleWrite(c, ret, script) ==
                   if c.state == Disconnecting then empty.(shut := true) else DoScript(empty, script)
  {
    if c.writing && -1 <= ret <= 0 {
      assert c.oup[..0] == [] && c.oup[0..] == c.oup && c.kernel + [] == c.kernel;
    }
    var empty := c.(kernel := c.kernel + c.oup, oup := [], writing := false);
    if c.writing && ret == |c.oup| && ScriptOk(empty, script) {
      assert c.oup[..ret] == c.oup && Flush(c, ret) == empty;
      if c.state == Disconnecting {
        ScriptWhileDisconnecting(empty, script);
      } else {
        ScriptShutFits(empty, script);
        ScriptGrows(empty, script);
        var done := DoScript(empty, script);
        if done.state == Disconnecting { ShutOnce(done); }
      }
    }
  }

  /** So the messages of the write-complete callback are accepted, and follow what the kernel has,
      exactly at the write that empties the buffer. */
  lemma WriteCompleteSends(c: Conn, ret: int, script: seq<Call>)
    requires Inv(c) && c.state == Connected && c.writing && -1 <= ret <= |c.oup|
    requires ScriptOk(c.(kernel := c.kernel + c.oup, oup := [], writing := false), script)
    ensures var empty := c.(kernel := c.kernel + c.oup, oup := [], writing := false);
            && WritableOk(c, ret, script)
            && var t := HandleWrite(c, ret, script);
               && t.accepted == c.accepted + (if ret == |c.oup| then GivenByScript(empty, script) else [])
               && t.kernel + t.oup ==
                  c.kernel + c.oup + (if ret == |c.oup| then EmittedByScript(empty, script) else [])
  {
    var empty := c.(kernel := c.kernel + c.oup, oup := [], writing := false);
    HandleWriteExactly(c, ret, script);
    if ret == |c.oup| {
      ScriptGrows(empty, script);
      assert (c.kernel + c.oup) + [] == c.kernel + c.oup;
    } else {
      var n := Max(ret, 0);
      Joined(c.kernel, c.oup[..n], c.oup[n..]);
      assert c.oup == c.oup[..n] + c.oup[n..];
      assert c.accepted + [] == c.accepted && (c.kernel + c.oup) + [] == c.kernel + c.oup;
    }
  }

  /** How many bytes a send on an idle connection gets into the kernel. */
  function Taken(c: Conn, ret: int): int { if !c.writing && c.oup == [] then Max(ret, 0) else 0 }

  /** The send takes the buffer from below 64 MiB to above it. */
  predicate TakesOver(c: Conn, msg: seq<byte>, ret: int) {
    |c.oup| < 67108864 < |c.oup| + |msg| - Taken(c, ret)
  }

  /** A send, by the bytes.  What the kernel takes is written, the watermark callback runs if the
      rest takes the buffer over 64 MiB, and only then, and the rest is queued behind what the
      callback left. */
  lemma SendExactly(c: Conn, msg: seq<byte>, ret: int, high: seq<Call>)
    requires !c.writing && c.oup == [] ==> -1 <= ret <= |msg|
    ensures var n := Taken(c, ret);
            var direct := c.(kernel := c.kernel + msg[..n], accepted := c.accepted + msg);
            TakesOver(c, msg, ret) ==> ScriptOk(direct, high) ==>
              && SendOk(c, msg, ret, high)
              && var after := DoScript(direct, high);
                 SendInLoop(c, msg, ret, high) == after.(oup := after.oup + msg[n..], writing := true)
    ensures var n := Taken(c, ret);
            var direct := c.(kernel := c.kernel + msg[..n], accepted := c.accepted + msg);
            !TakesOver(c, msg, ret) ==>
              && SendOk(c, msg, ret, high)
              && SendInLoop(c, msg, ret, high) ==
                 if n == |msg| then direct else direct.(oup := c.oup + msg[n..], writing := true)
  {
    var n := Taken(c, ret);
    assert n == Written(c, ret);
    assert DirectWrite(c, msg, ret) == c.(kernel := c.kernel + msg[..n], accepted := c.accepted + msg);
  }

  /** So the bytes a send has accepted are its own, and its callback's exactly when it takes the
      buffer over the mark. */
  lemma SendAccepts(c: Conn, msg: seq<byte>, ret: int, high: seq<Call>)
    requires InterestFits(c) && SendOk(c, msg, ret, high)
    ensures var direct := c.(kernel := c.kernel + msg[..Taken(c, ret)], accepted := c.accepted + msg);
            TakesOver(c, msg, ret) ==>
              && ScriptOk(direct, high)
              && SendInLoop(c, msg, ret, high).accepted == c.accepted + msg + GivenByScript(direct, high)
    ensures !TakesOver(c, msg, ret) ==> SendInLoop(c, msg, ret, high).accepted == c.accepted + msg
  {
    SendExactly(c, msg, ret, high);
    if TakesOver(c, msg, ret) {
      ScriptGrows(DirectWrite(c, msg, ret), high);
    }
  }

  /** A call by the user, on any connection: only a connected one sends, the first len bytes or
      everything when len is 0; and only a connected one starts to shut down, at once if nothing
      waits. */
  lemma CallExactly(c: Conn, call: Call)
    ensures call.ShotdownCall? ==> CallOk(c, call)
    ensures CallOk(c, call) && c.state != Connected ==> DoCall(c, call) == c
    ensures c.state == Connected && call.ShotdownCall? ==>
              DoCall(c, call) == c.(state := Disconnecting, shut := c.shut || !c.writing)
    ensures call.SendCall? && call.len <= |call.msg| ==>
              var bytes := call.msg[..if call.len == 0 then |call.msg| else call.len];
              && (CallOk(c, call) <==> c.state != Connected || SendOk(c, bytes, call.ret, call.high))
              && (c.state == Connected && CallOk(c, call) ==>
                    DoCall(c, call) == SendInLoop(c, bytes, call.ret, call.high))
  {
    if call.SendCall? { assert call.msg[..|call.msg|] == call.msg; }
  }

  // --- over whole runs: no callback without a send that takes the buffer over the mark ---

  function MutedCall(call: Call): Call {
    match call
    case SendCall(msg, len, ret, _) => SendCall(msg, len, ret, [])
    case ShotdownCall => ShotdownCall
  }

  /** The same calls with no watermark callback set. */
  function MutedScript(script: seq<Call>): seq<Call> {
    if script == [] then [] else [MutedCall(script[0])] + MutedScript(script[1..])
  }

  function MutedOp(op: Op): Op {
    match op
    case UserCall(call) => UserCall(MutedCall(call))
    case Writable(ret, script) => Writable(ret, MutedScript(script))
  }

  function MutedRun(run: seq<Op>): seq<Op> {
    if run == [] then [] else [MutedOp(run[0])] + MutedRun(run[1..])
  }

  predicate CallStaysUnder(c: Conn, call: Call)
    requires CallOk(c, call)
  {
    call.SendCall? && c.state == Connected ==> !TakesOver(c, Offered(call.msg, call.len), call.ret)
  }

  predicate ScriptStaysUnder(c: Conn, script: seq<Call>)
    requires ScriptOk(c, script)
    decreases |script|
  {
    script == [] || (CallStaysUnder(c, script[0]) && ScriptStaysUnder(DoCall(c, script[0]), script[1..]))
  }

  predicate OpStaysUnder(c: Conn, op: Op)
    requires OpOk(c, op)
  {
    match op
    case UserCall(call) => CallStaysUnder(c, call)
    case Writable(ret, script) => Drains(c, ret) ==> ScriptStaysUnder(Flush(c, ret), script)
  }

  /** No send of the run, by the user or by a write-complete callback, takes the buffer from below
      the mark to above it. */
  predicate StaysUnder(c: Conn, run: seq<Op>)
    requires RunOk(c, run)
    decreases |run|
  {
    run == [] || (OpStaysUnder(c, run[0]) && StaysUnder(DoOp(c, run[0]), run[1..]))
  }

  lemma CallUnderTheMark(c: Conn, call: Call)
    requires CallOk(c, call) && CallStaysUnder(c, call)
    ensures CallOk(c, MutedCall(call)) && DoCall(c, MutedCall(call)) == DoCall(c, call)
  {
    if call.SendCall? && c.state == Connected {
      SendExactly(c, Offered(call.msg, call.len), call.ret, call.high);
      SendExactly(c, Offered(call.msg, call.len), call.ret, []);
    }
  }

  lemma {:induction false} ScriptUnderTheMark(c: Conn, script: seq<Call>)
    requires ScriptOk(c, script) && ScriptStaysUnder(c, script)
    ensures ScriptOk(c, MutedScript(script)) && DoScript(c, MutedScript(script)) == DoScript(c, script)
    decreases |script|
  {
    if script == [] {
    } else {
      CallUnderTheMark(c, script[0]);
      ScriptUnderTheMark(DoCall(c, script[0]), script[1..]);
      assert MutedScript(script)[1..] == MutedScript(script[1..]);
    }
  }

  /** The watermark callback runs only at such a send: in any other run it might as well not be
      set. */
  lemma {:induction false} RunUnderTheMark(c: Conn, run: seq<Op>)
    requires RunOk(c, run) && StaysUnder(c, run)
    ensures RunOk(c, MutedRun(run)) && DoRun(c, MutedRun(run)) == DoRun(c, run)
    decreases |run|
  {
    if run == [] {
    } else {
      match run[0] {
        case UserCall(call) => CallUnderTheMark(c, call);
        case Writable(ret, script) =>
          if Drains(c, ret) { ScriptUnderTheMark(Flush(c, ret), script); }
      }
      RunUnderTheMark(DoOp(c, run[0]), run[1..]);
      assert MutedRun(run)[1..] == MutedRun(run[1..]);
    }
  }

  // ------------------------------------------------------------------
  // What a watermark callback may do
  // ------------------------------------------------------------------

  /** For one send: the stream is still in order exactly when what its callback emits, put before
      the rest of the message, is the rest followed by what the callback gives; and the invariant
      holds exactly when moreover the callback does not shut the write side under that rest. */
  lemma WatermarkExactly(c: Conn, msg: seq<byte>, ret: int, high: seq<Call>)
    requires Inv(c) && c.state == Connected && SendOk(c, msg, ret, high)
    requires Crosses(c, |msg| - Written(c, ret))
    ensures var t := SendInLoop(c, msg, ret, high); var direct := DirectWrite(c, msg, ret);
            var rest := msg[Written(c, ret)..];
            var ordered := EmittedByScript(direct, high) + rest == rest + GivenByScript(direct, high);
            && (t.kernel + t.oup == t.accepted <==> ordered)
            && (Inv(t) <==> ordered && !ScriptShutsUnder(direct, high, true))
  {
    var direct := DirectWrite(c, msg, ret);
    var n := Written(c, ret);
    SendGrows(c, msg, ret, high);
    InOrderExactly(c, SendInLoop(c, msg, ret, high), EmittedBySend(c, msg, ret, high), GivenBySend(c, msg, ret, high));
    ShutsExactly(direct, high);
    Overtakes(msg, n, EmittedByScript(direct, high), GivenByScript(direct, high));
  }

  lemma Overtakes(msg: seq<byte>, n: nat, emitted: seq<byte>, given: seq<byte>)
    requires n <= |msg|
    ensures msg[..n] + emitted + msg[n..] == msg + given <==> emitted + msg[n..] == msg[n..] + given
  {
    var left, right := msg[..n] + emitted + msg[n..], msg + given;
    assert left[n..] == emitted + msg[n..] && right[n..] == msg[n..] + given;
    assert left == msg[..n] + left[n..] && right == msg[..n] + right[n..];
  }

  /** The rest is not queued yet while the callback runs, so a send of its own that leaves as much
      runs the callback again. */
  lemma CallbackIsReentered(c: Conn, msg: seq<byte>, ret: int, more: nat)
    requires WritesDirectly(c) ==> WriteResult(ret, |msg|)
    requires Crosses(c, |msg| - Written(c, ret)) && more >= |msg| - Written(c, ret)
    ensures Crosses(DirectWrite(c, msg, ret), more)
  {
  }

  /** A callback that always sends msg again, cut off after n times. */
  function Again(msg: seq<byte>, n: nat): Call {
    SendCall(msg, 0, 0, if n == 0 then [] else [Again(msg, n - 1)])
  }

  /** On a connection that is already writing it never ends: however late it is cut off, every one
      of its sends has been made. */
  lemma {:induction false} AlwaysSendingNeverEnds(c: Conn, msg: seq<byte>, n: nat)
    requires c.state == Connected && c.writing && Crosses(c, |msg|)
    ensures CallOk(c, Again(msg, n)) && |GivenByCall(c, Again(msg, n))| == (n + 1) * |msg|
    decreases n
  {
    var direct := DirectWrite(c, msg, 0);
    if n == 0 {
      assert SendOk(c, msg, 0, []) && GivenByScript(direct, []) == [];
    } else {
      var inner := Again(msg, n - 1);
      AlwaysSendingNeverEnds(direct, msg, n - 1);
      assert [inner][1..] == [] && ScriptOk(DoCall(direct, inner), []);
      assert ScriptOk(direct, [inner]) && SendOk(c, msg, 0, [inner]);
      assert GivenByScript(direct, [inner]) == GivenByCall(direct, inner) + [];
      assert (n + 1) * |msg| == n * |msg| + |msg|;
    }
  }

  /** The smallest message whose rest crosses the mark from an idle connection: one byte is written,
      a mark's worth and one byte is left, and the callback's single byte overtakes them. */
  lemma WatermarkSendExample()
    ensures var msg: seq<byte> := seq(HIGH_WATERMARK + 2, _ => 0); var high := [SendCall([1], 0, 0, [])];
            && SendOk(ESTABLISHED, msg, 1, high)
            && var t := SendInLoop(ESTABLISHED, msg, 1, high); t.kernel + t.oup != t.accepted
  {
    var msg: seq<byte> := seq(HIGH_WATERMARK + 2, _ => 0);
    var rest := msg[1..];
    var direct := DirectWrite(ESTABLISHED, msg, 1);
    var send := SendCall([1], 0, 0, []);
    assert [send][1..] == [] && ScriptOk(DoCall(direct, send), []);
    WatermarkExactly(ESTABLISHED, msg, 1, [send]);
    assert EmittedByScript(direct, [send]) == EmittedByCall(direct, send) + [] == [1];
    assert ([1] + rest)[0] != (rest + GivenByScript(direct, [send]))[0];
  }

  /** On the same message a callback that shuts down has the socket shut under the rest. */
  lemma WatermarkShotdownExample()
    ensures var msg: seq<byte> := seq(HIGH_WATERMARK + 2, _ => 0);
            && SendOk(ESTABLISHED, msg, 1, [ShotdownCall])
            && ShutUnder(SendInLoop(ESTABLISHED, msg, 1, [ShotdownCall]))
  {
    var msg: seq<byte> := seq(HIGH_WATERMARK + 2, _ => 0);
    var direct := DirectWrite(ESTABLISHED, msg, 1);
    assert [ShotdownCall][1..] == [] && ScriptOk(DoCall(direct, ShotdownCall), []);
    assert DoScript(direct, [ShotdownCall]) == DoCall(direct, ShotdownCall);
  }

  /** One byte below the mark, a message of two zeros: the callback sends two zeros, which on their
      own would pass unnoticed, but that send runs it again, and then it sends a one. */
  lemma ReentryExample(c: Conn)
    requires Inv(c) && c.state == Connected && |c.oup| == HIGH_WATERMARK - 1
    ensures var high := [SendCall([0, 0], 0, 0, [SendCall([1], 0, 0, [])])];
            && SendOk(c, [0, 0], 0, high)
            && EmittedByScript(DirectWrite(c, [0, 0], 0), high) == [1, 0, 0]
            && !Inv(SendInLoop(c, [0, 0], 0, high))
  {
    var inner := SendCall([1], 0, 0, []);
    var outer := SendCall([0, 0], 0, 0, [inner]);
    var direct := DirectWrite(c, [0, 0], 0);
    var again := DirectWrite(direct, [0, 0], 0);
    assert [inner][1..] == [] && [outer][1..] == [];
    assert ScriptOk(DoCall(again, inner), []) && ScriptOk(again, [inner]);
    assert ScriptOk(DoCall(direct, outer), []) && ScriptOk(direct, [outer]);
    assert EmittedByScript(again, [inner]) == EmittedByCall(again, inner) + [] == [1];
    assert EmittedByScript(direct, [outer]) == EmittedByCall(direct, outer) + [] == [1, 0, 0];
    WatermarkExactly(c, [0, 0], 0, [outer]);
    assert ([1, 0, 0] + [0, 0])[0] != ([0, 0] + GivenByScript(direct, [outer]))[0];
  }

  // ------------------------------------------------------------------
  // The code as written
  // ------------------------------------------------------------------

  /** What a step of the code as written leaves: the buffer, and what it wrote. */
  datatype Step = Step(buffer: RawBuffer, wrote: seq<byte>)

  function Returning(o: Outcome<RawBuffer>, wrote: seq<byte>): Outcome<Step> {
    match o
    case Done(after) => Done(Step(after, wrote))
    case AssertFailed => AssertFailed
    case OutOfBounds => OutOfBounds
    case Throws => Throws
  }

  /** Write interest is off and nothing waits in the buffer, so send_in_loop calls write. */
  predicate TriesWrite(b: RawBuffer, writing: bool)
    requires b.WellFormed()
  {
    !writing && b.Contents() == []
  }

  /** send_in_loop as written: the result of write is kept in a size_t. */
  function SendInLoopAsWritten(b: RawBuffer, writing: bool, msg: seq<byte>, ret: int): Outcome<Step>
    requires b.WellFormed() && b.Fits(|msg|) && (TriesWrite(b, writing) ==> WriteResult(ret, |msg|))
  {
    var numWrite: nat := if !TriesWrite(b, writing) then 0 else if ret < 0 then SIZE_T + ret else ret;
    var wrote := if TriesWrite(b, writing) then msg[..Max(ret, 0)] else [];
    var numRemain := if numWrite > 0 then SizeSub(|msg|, numWrite) else |msg|;
    if numRemain > |msg| then AssertFailed
    else if numRemain > 0 then Returning(AppendAsWritten(b, msg[|msg| - numRemain..]), wrote)
    else Done(Step(b, wrote))
  }

  ghost predicate Conserves(before: seq<byte>, o: Outcome<Step>) {
    o.Done? && o.value.buffer.WellFormed() && o.value.wrote + o.value.buffer.Contents() == before
  }

  /** As written, a message survives exactly when the kernel takes all of it at once: a partial
      or empty write loses the rest, a failed one stops at the assertion, and while write interest
      is on or bytes wait any message but the empty one is lost or stops. */
  lemma SendAsWrittenExactly(b: RawBuffer, writing: bool, msg: seq<byte>, ret: int)
    requires b.WellFormed() && b.Fits(|msg|) && (TriesWrite(b, writing) ==> WriteResult(ret, |msg|))
    ensures Conserves(b.Contents() + msg, SendInLoopAsWritten(b, writing, msg, ret))
       <==> if TriesWrite(b, writing) then ret == |msg| else msg == []
  {
  }

  /** What happens instead: a failed write stops, and wherever the buffer has room the rest of the
      message is dropped without a word. */
  lemma SendAsWrittenOutcome(b: RawBuffer, writing: bool, msg: seq<byte>, ret: int)
    requires b.WellFormed() && b.Fits(|msg|) && |msg| < |b.bytes| - b.writeIdx
    requires TriesWrite(b, writing) ==> WriteResult(ret, |msg|)
    ensures var o := SendInLoopAsWritten(b, writing, msg, ret);
            if TriesWrite(b, writing) && ret == -1 then o == AssertFailed
            else
              && o.Done? && o.value.wrote == (if TriesWrite(b, writing) then msg[..ret] else [])
              && o.value.buffer.WellFormed() && o.value.buffer.Contents() == b.Contents()
  {
  }

  /** Two bytes of which the kernel takes one: the other is gone. */
  lemma PartialWriteExample()
    ensures !Conserves([1, 2], SendInLoopAsWritten(Holding([]), false, [1, 2], 1))
  {
    SendAsWrittenExactly(Holding([]), false, [1, 2], 1);
  }

  /** handle_write as written: it offers the writeable count, starting at the readable bytes. */
  function HandleWriteAsWritten(b: RawBuffer, ret: int): Outcome<Step>
    requires b.WellFormed() && b.Fits(0) && WriteResult(ret, b.Writeable())
  {
    if ret <= 0 then Done(Step(b, []))
    else if b.readIdx + ret > |b.bytes| then OutOfBounds
    else Returning(RetrieveAsWritten(b, ret), b.bytes[b.readIdx..b.readIdx + ret])
  }

  /** As written, a write event is harmless exactly when the kernel takes fewer bytes than wait,
      so the buffer never drains and a pending shutdown is never performed. */
  lemma HandleWriteAsWrittenExactly(b: RawBuffer, ret: int)
    requires b.WellFormed() && b.Fits(0) && WriteResult(ret, b.Writeable())
    ensures Conserves(b.Contents(), HandleWriteAsWritten(b, ret)) <==> ret <= 0 || ret < |b.Contents()|
    ensures Conserves(b.Contents(), HandleWriteAsWritten(b, ret)) && b.Contents() != []
            ==> HandleWriteAsWritten(b, ret).value.buffer.Contents() != []
  {
  }

  /** What a write event does: nothing, a partial drain, or, once the kernel takes all that waits
      (and the bytes behind it), a stop. */
  lemma HandleWriteAsWrittenOutcome(b: RawBuffer, ret: int)
    requires b.WellFormed() && b.Fits(0) && WriteResult(ret, b.Writeable())
    ensures var o := HandleWriteAsWritten(b, ret); var waiting := b.Contents();
            if ret <= 0 then o == Done(Step(b, []))
            else if ret < |waiting| then
              o.Done? && o.value.wrote == waiting[..ret] && o.value.buffer == b.(readIdx := b.readIdx + ret)
            else o == if b.readIdx + ret <= |b.bytes| then AssertFailed else OutOfBounds
  {
  }

  /** One byte waits and the kernel takes it: the buffer stops at its assertion. */
  lemma DrainingWriteExample()
    ensures HandleWriteAsWritten(Holding([7]), 1) == AssertFailed
  {
  }

  // --- whole runs of the code as written ---

  /** A connected connection over the buffer as written. */
  datatype Wire = Wire(buffer: RawBuffer, writing: bool, kernel: seq<byte>, accepted: seq<byte>)

  datatype RawOp =
    | RawSend(msg: seq<byte>, ret: int)
    | RawWritable(ret: int)

  predicate RawOk(w: Wire, op: RawOp)
    requires w.buffer.WellFormed()
  {
    match op
    case RawSend(msg, ret) =>
      w.buffer.Fits(|msg|) && (TriesWrite(w.buffer, w.writing) ==> WriteResult(ret, |msg|))
    case RawWritable(ret) =>
      w.buffer.Fits(0) && (w.writing ==> WriteResult(ret, w.buffer.Writeable()))
  }

  function Continue(w: Wire, o: Outcome<Step>, msg: seq<byte>, writing: bool): Outcome<Wire> {
    match o
    case Done(step) => Done(Wire(step.buffer, writing, w.kernel + step.wrote, w.accepted + msg))
    case AssertFailed => AssertFailed
    case OutOfBounds => OutOfBounds
    case Throws => Throws
  }

  function RawDo(w: Wire, op: RawOp): Outcome<Wire>
    requires w.buffer.WellFormed() && RawOk(w, op)
  {
    match op
    case RawSend(msg, ret) =>
      var took := if TriesWrite(w.buffer, w.writing) then Max(ret, 0) else 0;
      Continue(w, SendInLoopAsWritten(w.buffer, w.writing, msg, ret), msg, w.writing || |msg| > took)
    case RawWritable(ret) =>
      if !w.writing then Done(w)
      else
        var o := HandleWriteAsWritten(w.buffer, ret);
        Continue(w, o, [], !(ret > 0 && o.Done? && o.value.buffer.readIdx == o.value.buffer.writeIdx))
  }

  ghost predicate InOrder(w: Wire) {
    w.buffer.WellFormed() && w.kernel + w.buffer.Contents() == w.accepted
  }

  /** The step returns with the stream in order. */
  ghost predicate Keeps(w: Wire, op: RawOp)
    requires w.buffer.WellFormed() && RawOk(w, op)
  {
    RawDo(w, op).Done? && InOrder(RawDo(w, op).value)
  }

  /** The contract of write(2) along a run, as far as the code gets. */
  ghost predicate RawRunOk(w: Wire, run: seq<RawOp>)
    requires w.buffer.WellFormed()
    decreases |run|
  {
    run == [] || (RawOk(w, run[0]) && (Keeps(w, run[0]) ==> RawRunOk(RawDo(w, run[0]).value, run[1..])))
  }

  /** Every step of the run returns with the stream in order. */
  ghost predicate Survives(w: Wire, run: seq<RawOp>)
    requires w.buffer.WellFormed() && RawRunOk(w, run)
    decreases |run|
  {
    run == [] || (Keeps(w, run[0]) && Survives(RawDo(w, run[0]).value, run[1..]))
  }

  /** What a step needs to keep the stream in order. */
  predicate TakesAll(w: Wire, op: RawOp)
    requires w.buffer.WellFormed()
  {
    match op
    case RawSend(msg, ret) => if TriesWrite(w.buffer, w.writing) then ret == |msg| else msg == []
    case RawWritable(ret) => !w.writing || ret <= 0 || ret < |w.buffer.Contents()|
  }

  lemma ConservesExactly(w: Wire, o: Outcome<Step>, msg: seq<byte>, writing: bool)
    requires InOrder(w)
    ensures Conserves(w.buffer.Contents() + msg, o)
       <==> Continue(w, o, msg, writing).Done? && InOrder(Continue(w, o, msg, writing).value)
  {
    if o.Done? && o.value.buffer.WellFormed() {
      var n := |w.kernel|;
      var after := o.value.buffer.Contents();
      Joined(w.kernel, o.value.wrote, after);
      Joined(w.kernel, w.buffer.Contents(), msg);
      assert (w.kernel + (o.value.wrote + after))[n..] == o.value.wrote + after;
      assert (w.kernel + (w.buffer.Contents() + msg))[n..] == w.buffer.Contents() + msg;
    }
  }

  lemma RawStepExactly(w: Wire, op: RawOp)
    requires InOrder(w) && RawOk(w, op)
    ensures Keeps(w, op) <==> TakesAll(w, op)
  {
    match op
    case RawSend(msg, ret) =>
      var took := if TriesWrite(w.buffer, w.writing) then Max(ret, 0) else 0;
      SendAsWrittenExactly(w.buffer, w.writing, msg, ret);
      ConservesExactly(w, SendInLoopAsWritten(w.buffer, w.writing, msg, ret), msg, w.writing || |msg| > took);
    case RawWritable(ret) =>
      if w.writing {
        var o := HandleWriteAsWritten(w.buffer, ret);
        HandleWriteAsWrittenExactly(w.buffer, ret);
        ConservesExactly(w, o, [], !(ret > 0 && o.Done? && o.value.buffer.readIdx == o.value.buffer.writeIdx));
        assert w.buffer.Contents() + [] == w.buffer.Contents();
      }
  }

  /** Over whole runs from an idle connection the stream of the code as written survives exactly
      when the kernel takes every message whole, at once; write events never matter. */
  lemma {:induction false} SurvivesExactly(w: Wire, run: seq<RawOp>)
    requires InOrder(w) && TriesWrite(w.buffer, w.writing) && RawRunOk(w, run)
    ensures Survives(w, run) <==> forall op :: op in run && op.RawSend? ==> op.ret == |op.msg|
    decreases |run|
  {
    if run == [] {
    } else {
      RawStepExactly(w, run[0]);
      assert forall op :: op in run <==> op == run[0] || op in run[1..];
      if Keeps(w, run[0]) {
        SurvivesExactly(RawDo(w, run[0]).value, run[1..]);
      }
    }
  }
}
