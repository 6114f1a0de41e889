/** The connection map of src/net/source/tcp_server.cc: names made from a counter, one entry per
    connection.  A server object that Tracks a run of ServerRuns holds exactly the connections
    that run has in the map. */
module TcpServer {
  import opened Common
  import ServerRuns

  /** The decimal digits of n, as fmt prints an int. */
  function Decimal(n: nat): (r: string)
    ensures |r| > 0
  {
    if n < 10 then [Digit(n)] else Decimal(n / 10) + [Digit(n % 10)]
  }

  function Digit(d: nat): char
    requires d < 10
  {
    '0' + d as char
  }

  /** Padded on the left with zeros to a width of five ("{:0>5}"). */
  function Padded(s: string): string
    decreases 5 - |s|
  {
    if |s| >= 5 then s else Padded("0" + s)
  }

  /** conn_name in register_connection. */
  function ConnName(server: string, id: nat): string { server + "#" + Padded(Decimal(id)) }

  /** The number a digit string stands for. */
  function Number(s: string): int {
    if s == [] then 0 else 10 * Number(s[..|s| - 1]) + (s[|s| - 1] as int - '0' as int)
  }

  lemma {:induction false} DecimalNumber(n: nat)
    ensures Number(Decimal(n)) == n
  {
    if n >= 10 {
      DecimalNumber(n / 10);
      var s := Decimal(n);
      assert s[..|s| - 1] == Decimal(n / 10);
    } else {
      assert Decimal(n)[..0] == [];
    }
  }

  lemma {:induction false} LeadingZero(s: string)
    ensures Number("0" + s) == Number(s)
  {
    var z := "0" + s;
    if s == [] {
      assert z[..0] == [];
    } else {
      LeadingZero(s[..|s| - 1]);
      assert z[..|z| - 1] == "0" + s[..|s| - 1];
    }
  }

  lemma {:induction false} PaddedNumber(s: string)
    ensures Number(Padded(s)) == Number(s)
    decreases 5 - |s|
  {
    if |s| < 5 {
      LeadingZero(s);
      PaddedNumber("0" + s);
    }
  }

  lemma {:induction false} PaddedLength(s: string)
    ensures |Padded(s)| == Max(|s|, 5)
    decreases 5 - |s|
  {
    if |s| >= 5 {
    } else {
      PaddedLength("0" + s);
    }
  }

  lemma {:induction false} DecimalDigits(n: nat)
    ensures forall c :: c in Decimal(n) ==> '0' <= c <= '9'
  {
    if n < 10 {
    } else {
      DecimalDigits(n / 10);
    }
  }

  lemma {:induction false} PaddedDigits(s: string)
    requires forall c :: c in s ==> '0' <= c <= '9'
    ensures forall c :: c in Padded(s) ==> '0' <= c <= '9'
    decreases 5 - |s|
  {
    if |s| >= 5 {
    } else {
      PaddedDigits("0" + s);
    }
  }

  /** A name is the server's, a number sign, and at least five digits that stand for the counter. */
  lemma NameExactly(server: string, n: nat)
    ensures |ConnName(server, n)| > |server|
    ensures var name := ConnName(server, n); var digits := name[|server| + 1..];
            && name == server + "#" + digits
            && (forall c :: c in digits ==> '0' <= c <= '9')
            && Number(digits) == n && |digits| == Max(5, |Decimal(n)|)
  {
    var p := Padded(Decimal(n));
    PaddedLength(Decimal(n));
    DecimalDigits(n);
    PaddedDigits(Decimal(n));
    PaddedNumber(Decimal(n));
    DecimalNumber(n);
    assert ConnName(server, n)[|server| + 1..] == p;
  }

  /** Different counter values give different names, also past 99999. */
  lemma NamesDistinct(server: string, m: nat, n: nat)
    ensures ConnName(server, m) == ConnName(server, n) ==> m == n
  {
    if ConnName(server, m) == ConnName(server, n) {
      var p, q := Padded(Decimal(m)), Padded(Decimal(n));
      assert p == ConnName(server, m)[|server| + 1..] && q == ConnName(server, n)[|server| + 1..];
      PaddedNumber(Decimal(m));
      PaddedNumber(Decimal(n));
      DecimalNumber(m);
      DecimalNumber(n);
    }
  }

  class Server {
    const name: string
    var nextConnId: nat
    var connections: map<string, nat>   // connections_map_, to the connection's number
    ghost var s: ServerRuns.State

    ghost predicate Valid()
      reads this
    {
      forall key :: key in connections ==> connections[key] < nextConnId && key == ConnName(name, connections[key])
    }

    /** The map is that of the run so far. */
    ghost predicate Tracks()
      reads this
    {
      && Valid() && ServerRuns.Reachable(s) && nextConnId == s.nextId
      && (forall key :: key in connections ==> connections[key] in s.server)
      && (forall id :: id in s.server ==> ConnName(name, id) in connections)
    }

    constructor (name: string)
      ensures Tracks() && connections == map[] && s == ServerRuns.INITIAL && this.name == name
    {
      this.name := name;
      nextConnId := 1;
      connections := map[];
      s := ServerRuns.INITIAL;
      new;
      assert ServerRuns.Legal(ServerRuns.INITIAL, []);
      assert ServerRuns.Exec(ServerRuns.INITIAL, []) == s;
    }

    ghost method Step(a: ServerRuns.Action)
      requires ServerRuns.Reachable(s) && ServerRuns.Enabled(s, a) && ServerRuns.Safe(s, a)
      modifies this`s
      ensures s == ServerRuns.Apply(old(s), a) && ServerRuns.Reachable(s)
    {
      var run :| ServerRuns.Legal(ServerRuns.INITIAL, run) && s == ServerRuns.Exec(ServerRuns.INITIAL, run);
      ServerRuns.LegalSnoc(ServerRuns.INITIAL, run, a);
      s := ServerRuns.Apply(s, a);
    }

    /** What the loop and the connections do besides opening and closing. */
    ghost method Elsewhere(a: ServerRuns.Action)
      requires Tracks() && ServerRuns.Enabled(s, a) && ServerRuns.Safe(s, a)
      requires a != ServerRuns.Accept && !(a.RunCallback? && ServerRuns.Closes(s, a.readResult))
      modifies this`s
      ensures Tracks() && s == ServerRuns.Apply(old(s), a)
    {
      Step(a);
    }

    /** register_connection never displaces a connection already in the map; made by the acceptor's
        handler it is the Accept step of the run. */
    method RegisterConnection() returns (connName: string)
      requires Valid()
      modifies this
      ensures Valid() && connName !in old(connections)
      ensures connections == old(connections)[connName := old(nextConnId)] && nextConnId == old(nextConnId) + 1
      ensures old(Tracks() && ServerRuns.Enabled(s, ServerRuns.Accept)) ==>
                Tracks() && s == ServerRuns.Apply(old(s), ServerRuns.Accept)
    {
      var id := nextConnId;
      connName := ConnName(name, id);
      if connName in connections {
        NamesDistinct(name, connections[connName], id);
      }
      if Tracks() && ServerRuns.Enabled(s, ServerRuns.Accept) {
        Step(ServerRuns.Accept);
      }
      nextConnId := nextConnId + 1;
      connections := connections[connName := id];
    }

    /** remove_connection_in_loop: n is what erase returns; the source asserts that it is 1. */
    method RemoveConnectionInLoop(connName: string) returns (n: nat)
      requires Valid()
      modifies this`connections
      ensures Valid() && n <= 1 && (n == 1 <==> connName in old(connections))
      ensures connections == old(connections) - {connName}
    {
      n := if connName in connections then 1 else 0;
      connections := connections - {connName};
    }

    lemma NamedInMap(id: nat)
      requires Tracks()
      ensures ConnName(name, id) in connections <==> id in s.server
    {
      if ConnName(name, id) in connections {
        NamesDistinct(name, connections[ConnName(name, id)], id);
      }
    }

    /** remove_connection, called by the handle_close of connection id: the source's assertion
        holds exactly when its event has not closed it before. */
    method RemoveConnection(id: nat, ghost readResult: int, ghost drains: bool) returns (n: nat)
      requires Tracks() && ServerRuns.Enabled(s, ServerRuns.RunCallback(readResult, drains))
      requires id == s.cur.id && ServerRuns.Closes(s, readResult)
      modifies this
      ensures n == 1 <==> !ServerRuns.ClosesTwice(old(s), ServerRuns.RunCallback(readResult, drains))
      ensures n == 1 ==> Tracks() && s == ServerRuns.Apply(old(s), ServerRuns.RunCallback(readResult, drains))
      ensures n != 1 ==> unchanged(this)
    {
      ghost var a := ServerRuns.RunCallback(readResult, drains);
      ServerRuns.ReachableInv(s);
      ServerRuns.SafeExactly(s, a);
      NamedInMap(id);
      n := RemoveConnectionInLoop(ConnName(name, id));
      if n == 1 {
        Step(a);
        forall x | x in s.server ensures ConnName(name, x) in connections {
          NamesDistinct(name, x, id);
        }
      } else {
        assert connections == old(connections);
      }
    }
  }

  /** A step of a run, as the object sees it; state is where the run stands. */
  method Perform(server: Server, state: ServerRuns.State, a: ServerRuns.Action)
    requires server.Tracks() && server.s == state && ServerRuns.Enabled(state, a) && ServerRuns.Safe(state, a)
    modifies server
    ensures server.Tracks() && server.s == ServerRuns.Apply(state, a)
  {
    if a.Accept? {
      var _ := server.RegisterConnection();
    } else if a.RunCallback? && ServerRuns.Closes(state, a.readResult) {
      ServerRuns.ReachableInv(state);
      ServerRuns.SafeExactly(state, a);
      var n := server.RemoveConnection(state.cur.id, a.readResult, a.drains);
      assert n == 1;
    } else {
      server.Elsewhere(a);
    }
  }

  /** Through any safe run the object's map is the run's, and every erase has found its entry. */
  method Replay(name: string, run: seq<ServerRuns.Action>) returns (server: Server)
    requires ServerRuns.Legal(ServerRuns.INITIAL, run)
    ensures fresh(server) && server.Tracks()
    ensures server.s == ServerRuns.Exec(ServerRuns.INITIAL, run)
  {
    server := new Server(name);
    var state := ServerRuns.INITIAL;
    for i := 0 to |run|
      invariant fresh(server) && server.Tracks() && server.s == state
      invariant ServerRuns.Legal(state, run[i..])
      invariant ServerRuns.Exec(state, run[i..]) == ServerRuns.Exec(ServerRuns.INITIAL, run)
    {
      assert run[i..][1..] == run[i + 1..];
      Perform(server, state, run[i]);
      state := ServerRuns.Apply(state, run[i]);
    }
  }
}
