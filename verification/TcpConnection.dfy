/** The output methods of the tcp_connection object (src/net/source/tcp_connection.cc), over the
    repaired Buffer, each equal to its specification in ConnectionOutput. */
module TcpConnection {
  import opened Common
  import opened ConnStates
  import opened ByteBuffer
  import opened ConnectionOutput

  class Connection {
    const oup: Buffer
    var state: ConnState
    var writing: bool
    var shut: bool
    ghost var kernel: seq<byte>
    ghost var accepted: seq<byte>

    ghost predicate Valid()
      reads this, oup
    {
      oup.Valid()
    }

    ghost function Abs(): Conn
      reads this, oup, oup.data
      requires Valid()
    {
      Conn(state, writing, oup.Contents(), shut, kernel, accepted)
    }

    constructor Establish()
      ensures Valid() && fresh(oup) && fresh(oup.data) && Abs() == ESTABLISHED
    {
      oup := new Buffer();
      state, writing, shut := Connected, false, false;
      kernel, accepted := [], [];
    }

    /** The socket takes the first ret of the offered bytes, if any. */
    ghost method SocketTook(offered: seq<byte>, ret: int)
      requires ret <= |offered|
      modifies this`kernel
      ensures kernel == old(kernel) + offered[..Max(ret, 0)]
    {
      kernel := kernel + offered[..Max(ret, 0)];
    }

    /** send_in_loop; high is what the watermark callback does if this send runs it. */
    method SendInLoop(msg: seq<byte>, ret: int, high: seq<Call>)
      requires Valid() && SendOk(Abs(), msg, ret, high)
      modifies this, oup, oup.data
      ensures Valid() && (oup.data == old(oup.data) || fresh(oup.data))
      ensures Abs() == ConnectionOutput.SendInLoop(old(Abs()), msg, ret, high)
      decreases high, 1
    {
      var numWrite := TryWrite(msg, ret);
      var numRemain := |msg| - numWrite;
      if numRemain > 0 {
        var current := oup.ReadableBytes();
        if current + numRemain > HIGH_WATERMARK && current < HIGH_WATERMARK {
          Perform(high);
        }
        oup.Append(msg[numWrite..]);
        writing := true;
      }
    }

    /** If nothing is in the output queue, try to write directly. */
    method TryWrite(msg: seq<byte>, ret: int) returns (numWrite: nat)
      requires Valid() && (WritesDirectly(Abs()) ==> WriteResult(ret, |msg|))
      modifies this`kernel, this`accepted
      ensures Valid() && numWrite == Written(old(Abs()), ret)
      ensures Abs() == DirectWrite(old(Abs()), msg, ret)
    {
      numWrite := 0;
      if !writing && oup.ReadableBytes() == 0 {
        SocketTook(msg, ret);
        if ret > 0 {
          numWrite := ret;
        }
      }
      accepted := accepted + msg;
      assert old(kernel) + msg[..0] == old(kernel);
    }

    method ShotdownInLoop()
      requires Valid()
      modifies this`shut
      ensures Valid() && Abs() == ConnectionOutput.ShotdownInLoop(old(Abs()))
    {
      if !writing {
        shut := true;
      }
    }

    method Shotdown()
      requires Valid()
      modifies this
      ensures Valid() && Abs() == ConnectionOutput.Shotdown(old(Abs()))
    {
      if state == Connected {
        state := Disconnecting;
        ShotdownInLoop();
      }
    }

    method Send(msg: seq<byte>, len: nat, ret: int, high: seq<Call>)
      requires Valid() && CallOk(Abs(), SendCall(msg, len, ret, high))
      modifies this, oup, oup.data
      ensures Valid() && (oup.data == old(oup.data) || fresh(oup.data))
      ensures Abs() == DoCall(old(Abs()), SendCall(msg, len, ret, high))
      decreases high, 2
    {
      if state == Connected {
        SendInLoop(if len > 0 then msg[..len] else msg, ret, high);
      }
    }

    /** What a callback does, call by call. */
    method Perform(script: seq<Call>)
      requires Valid() && ScriptOk(Abs(), script)
      modifies this, oup, oup.data
      ensures Valid() && (oup.data == old(oup.data) || fresh(oup.data))
      ensures Abs() == DoScript(old(Abs()), script)
      decreases script, 0
    {
      for i := 0 to |script|
        invariant Valid() && (oup.data == old(oup.data) || fresh(oup.data))
        invariant ScriptOk(Abs(), script[i..]) && DoScript(Abs(), script[i..]) == DoScript(old(Abs()), script)
      {
        assert script[i..][1..] == script[i + 1..];
        match script[i]
        case SendCall(msg, len, ret, high) => Send(msg, len, ret, high);
        case ShotdownCall => Shotdown();
      }
    }

    method HandleWrite(ret: int, script: seq<Call>)
      requires Valid() && Inv(Abs()) && WritableOk(Abs(), ret, script)
      modifies this, oup, oup.data
      ensures Valid() && (oup.data == old(oup.data) || fresh(oup.data))
      ensures Abs() == ConnectionOutput.HandleWrite(old(Abs()), ret, script)
      ensures Inv(Abs()) <==> Harmless(old(Abs()), Writable(ret, script))
    {
      StepExactly(Abs(), Writable(ret, script));
      if writing {
        SocketTook(oup.Contents(), ret);
        if ret > 0 {
          oup.Retrieve(ret);
          if oup.ReadableBytes() == 0 {
            writing := false;
            Perform(script);
            if state == Disconnecting {
              ShotdownInLoop();
            }
          }
        } else {
          assert kernel == old(kernel);
        }
      }
    }
  }
}
