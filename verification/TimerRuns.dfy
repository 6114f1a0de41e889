/** Whole runs of the timer queue (src/net/source/timer_queue.cc, src/net/source/timer.cc): a
    state machine whose steps are the loop-thread operations.  Callbacks may add and cancel
    timers in the middle of a batch, so those steps are enabled at any time. */
module TimerRuns {
  import opened Common
  import opened Clock
  import opened Multimap

  type TimerId = nat

  datatype Timer = Timer(
    first: int,        // the expiry it was added with
    interval: int,     // it repeats when this is positive
    expiration: int,   // expiration_
    runs: nat,
    last: int)         // loop time of the latest run

  predicate Repeats(t: Timer) { t.interval > 0 }

  datatype State = State(
    now: int,
    timers: seq<Entry<TimerId>>,    // timers_
    table: map<TimerId, Timer>,     // every timer made so far
    handling: bool,                 // inside handle_read
    taken: int,                     // the clock as read by handle_read
    batch: seq<TimerId>,            // what pop_expired returned
    todo: seq<TimerId>,             // the part of it still to run
    armed: Option<int>,             // deadline of the OS timer; readable once it has passed
    lastArm: int,
    order: map<TimerId, nat>,       // when each timer was last inserted, by count of insertions
    inserts: nat)

  datatype Action =
    | Tick(now: int)
    | Add(id: TimerId, when: int, interval: int)
    | Cancel(id: TimerId)
    | Expire
    | RunNext
    | Finish

  const INITIAL := State(0, [], map[], false, 0, [], [], None, 0, map[], 0)

  /** poll would report the timerfd. */
  predicate Readable(s: State) { s.armed.Some? && s.armed.value <= s.now }

  /** handle_read may start although the timerfd is no longer readable: a handler that ran earlier
      in the same dispatch pass can have re-armed it. */
  predicate Enabled(s: State, a: Action) {
    match a
    case Tick(now) => s.now <= now
    case Add(id, _, _) => id !in s.table
    case Cancel(id) => id in s.table
    case Expire => !s.handling
    case RunNext => s.handling && s.todo != [] && s.todo[0] in s.table
    case Finish => s.handling && s.todo == []
  }

  /** The repeaters of a finished batch, due one interval after the batch was taken. */
  function Returning(table: map<TimerId, Timer>, batch: seq<TimerId>, taken: int): seq<Entry<TimerId>> {
    if batch == [] then []
    else
      var rest := Returning(table, batch[..|batch| - 1], taken);
      var id := batch[|batch| - 1];
      if id in table && Repeats(table[id]) then rest + [Entry(taken + table[id].interval, id)] else rest
  }

  function Restarted(table: map<TimerId, Timer>, batch: seq<TimerId>, taken: int): (r: map<TimerId, Timer>)
    ensures r.Keys == table.Keys
  {
    map id | id in table ::
      if id in batch && Repeats(table[id]) then table[id].(expiration := taken + table[id].interval) else table[id]
  }

  /** Insertion numbers from n on for the entries es, inserted in order. */
  function Numbered(order: map<TimerId, nat>, es: seq<Entry<TimerId>>, n: nat): map<TimerId, nat> {
    if es == [] then order
    else Numbered(order, es[..|es| - 1], n)[es[|es| - 1].value := n + |es| - 1]
  }

  function ArmFirst(variant: Variant, s: State): State
    requires s.timers != []
  {
    s.(armed := Arm(variant, s.armed, s.now, s.timers[0].key), lastArm := s.now)
  }

  predicate BecomesFirst(s: State, when: int) { s.timers == [] || when < s.timers[0].key }

  function Apply(variant: Variant, s: State, a: Action): State
    requires Enabled(s, a)
  {
    match a
    case Tick(now) => s.(now := now)
    case Add(id, when, interval) =>
      var t := s.(timers := Insert(s.timers, Entry(when, id)),
                  table := s.table[id := Timer(when, interval, when, 0, 0)],
                  order := s.order[id := s.inserts], inserts := s.inserts + 1);
      if BecomesFirst(s, when) then t.(armed := Arm(variant, s.armed, s.now, when), lastArm := s.now) else t
    case Cancel(id) => s.(timers := Erase(s.timers, s.table[id].expiration, id))
    case Expire =>
      var n := LowerBound(s.timers, s.now);
      s.(armed := if Readable(s) then None else s.armed, handling := true, taken := s.now, timers := s.timers[n..],
         batch := Values(s.timers[..n]), todo := Values(s.timers[..n]))
    case RunNext =>
      var t := s.table[s.todo[0]];
      s.(todo := s.todo[1..], table := s.table[s.todo[0] := t.(runs := t.runs + 1, last := s.taken)])
    case Finish =>
      var back := Returning(s.table, s.batch, s.taken);
      var t := s.(handling := false, batch := [], table := Restarted(s.table, s.batch, s.taken),
                  timers := InsertAll(s.timers, back),
                  order := Numbered(s.order, back, s.inserts), inserts := s.inserts + |back|);
      if t.timers == [] then t else ArmFirst(variant, t)
  }

  // ------------------------------------------------------------------
  // What every step keeps
  // ------------------------------------------------------------------

  predicate InMap(s: State, id: TimerId) { Has(s.timers, id) }

  /** Every key is its timer's expiry. */
  ghost predicate Keyed(m: seq<Entry<TimerId>>, table: map<TimerId, Timer>) {
    forall e :: e in m ==> e.value in table && e.key == table[e.value].expiration
  }

  /** Entries with equal keys stand in the order they were inserted. */
  predicate InInsertionOrder(m: seq<Entry<TimerId>>, order: map<TimerId, nat>, inserts: nat) {
    && (forall i :: 0 <= i < |m| ==> m[i].value in order && order[m[i].value] < inserts)
    && (forall i, j :: 0 <= i < j < |m| && m[i].key == m[j].key ==> order[m[i].value] < order[m[j].value])
  }

  /** Keys agree with the timers, and every timer is in at most one place, once. */
  ghost predicate Placed(s: State) {
    && Sorted(s.timers) && Unique(s.timers) && Distinct(s.batch)
    && Keyed(s.timers, s.table)
    && (forall id :: id in s.batch ==> id in s.table && !Has(s.timers, id))
    && |s.todo| <= |s.batch| && s.todo == s.batch[|s.batch| - |s.todo|..]
    && (!s.handling ==> s.batch == [])
  }

  predicate Ordered(s: State) { InInsertionOrder(s.timers, s.order, s.inserts) }

  /** n intervals after the first expiry. */
  function Due(t: Timer, n: int): int { t.first + n * t.interval }

  lemma DueStep(t: Timer, n: int)
    ensures Due(t, n + 1) == Due(t, n) + t.interval
  {
  }

  /** How often, and how far apart, a timer has run, by where it is now. */
  predicate PacedAt(t: Timer, inMap: bool, inTodo: bool, inBatch: bool, taken: int) {
    && (!Repeats(t) ==> t.runs <= 1 && (inMap || inTodo ==> t.runs == 0))
    && (inMap ==> t.expiration >= Due(t, t.runs) && (t.runs > 0 ==> t.expiration == t.last + t.interval))
    && (inTodo ==> taken > Due(t, t.runs) && (t.runs > 0 ==> taken > t.last + t.interval))
    && (inBatch && !inTodo ==> t.runs > 0 && t.last == taken && taken > Due(t, t.runs - 1))
  }

  predicate Paced(s: State, id: TimerId)
    requires id in s.table
  {
    PacedAt(s.table[id], InMap(s, id), id in s.todo, id in s.batch, s.taken)
  }

  ghost predicate Inv(s: State) {
    Placed(s) && Ordered(s) && forall id :: id in s.table ==> Paced(s, id)
  }

  lemma {:induction false} ReturningExactly(table: map<TimerId, Timer>, batch: seq<TimerId>, taken: int)
    requires Distinct(batch) && forall id :: id in batch ==> id in table
    ensures var r := Returning(table, batch, taken);
            && Unique(r)
            && (forall id :: Has(r, id) <==> id in batch && Repeats(table[id]))
            && (forall e :: e in r ==> e.value in batch && e.key == taken + table[e.value].interval)
  {
    if batch == [] {
    } else {
      var init := batch[..|batch| - 1];
      var id := batch[|batch| - 1];
      ReturningExactly(table, init, taken);
      assert batch == init + [id] && id !in init;
      var rest := Returning(table, init, taken);
      Spliced(rest, |rest|, Entry(taken + table[id].interval, id));
      assert rest + [Entry(taken + table[id].interval, id)]
          == rest[..|rest|] + [Entry(taken + table[id].interval, id)] + rest[|rest|..];
    }
  }

  lemma HasAt(m: seq<Entry<TimerId>>, id: TimerId) returns (i: nat)
    requires Has(m, id)
    ensures i < |m| && m[i].value == id && m[i] in m
  {
    i :| 0 <= i < |m| && m[i].value == id;
  }

  lemma MemberHas(m: seq<Entry<TimerId>>, e: Entry<TimerId>)
    requires e in m
    ensures Has(m, e.value)
  {
  }

  // --- insertion order ---

  lemma InsertKeepsOrder(m: seq<Entry<TimerId>>, e: Entry<TimerId>, order: map<TimerId, nat>, n: nat)
    requires Sorted(m) && InInsertionOrder(m, order, n) && !Has(m, e.value)
    ensures InInsertionOrder(Insert(m, e), order[e.value := n], n + 1)
  {
    var i := InsertAt(m, e);
    var r := m[..i] + [e] + m[i..];
    var o := order[e.value := n];
    forall k | 0 <= k < |r| ensures r[k].value in o && o[r[k].value] < n + 1 {
      if k != i { assert r[k] == m[if k < i then k else k - 1]; }
    }
    forall k, l | 0 <= k < l < |r| && r[k].key == r[l].key ensures o[r[k].value] < o[r[l].value] {
      SplicePair(m, e, order, n, i, k, l);
    }
  }

  lemma SplicePair(m: seq<Entry<TimerId>>, e: Entry<TimerId>, order: map<TimerId, nat>, n: nat, i: nat, k: nat, l: nat)
    requires InInsertionOrder(m, order, n) && !Has(m, e.value) && i <= |m| && k < l <= |m|
    requires forall x :: i <= x < |m| ==> e.key < m[x].key
    requires var r := m[..i] + [e] + m[i..]; r[k].key == r[l].key
    ensures var r := m[..i] + [e] + m[i..]; var o := order[e.value := n];
            r[k].value in o && r[l].value in o && o[r[k].value] < o[r[l].value]
  {
    var r := m[..i] + [e] + m[i..];
    if l == i {
      assert r[k] == m[k];
    } else if k != i {
      var k0, l0 := if k < i then k else k - 1, if l < i then l else l - 1;
      assert r[k] == m[k0] && r[l] == m[l0];
    }
  }

  lemma EraseKeepsOrder(m: seq<Entry<TimerId>>, i: nat, order: map<TimerId, nat>, n: nat)
    requires i < |m| && InInsertionOrder(m, order, n)
    ensures InInsertionOrder(m[..i] + m[i + 1..], order, n)
  {
    var r := m[..i] + m[i + 1..];
    assert forall k :: 0 <= k < |r| ==> r[k] == m[if k < i then k else k + 1];
  }

  lemma {:induction false} InsertAllKeepsOrder(m: seq<Entry<TimerId>>, es: seq<Entry<TimerId>>,
                                               order: map<TimerId, nat>, n: nat)
    requires Sorted(m) && InInsertionOrder(m, order, n)
    requires Unique(es) && forall v :: Has(es, v) ==> !Has(m, v)
    ensures InInsertionOrder(InsertAll(m, es), Numbered(order, es, n), n + |es|)
  {
    if es == [] {
    } else {
      var init := es[..|es| - 1];
      var e := es[|es| - 1];
      assert forall v :: Has(init, v) ==> Has(es, v) by {
        forall v | Has(init, v) ensures Has(es, v) {
          var i := HasAt(init, v);
          assert es[i].value == v;
        }
      }
      assert Has(es, e.value) && !Has(init, e.value);
      InsertAllKeepsOrder(m, init, order, n);
      InsertAllMembers(m, init);
      InsertKeepsOrder(InsertAll(m, init), e, Numbered(order, init, n), n + |init|);
    }
  }

  // --- add ---

  lemma AddKeepsPlaced(v: Variant, s: State, id: TimerId, when: int, interval: int)
    requires Placed(s) && id !in s.table
    ensures Placed(Apply(v, s, Add(id, when, interval)))
    ensures forall x :: InMap(Apply(v, s, Add(id, when, interval)), x) <==> InMap(s, x) || x == id
  {
    if Has(s.timers, id) { var i := HasAt(s.timers, id); }
    InsertMembers(s.timers, Entry(when, id));
    var t := Apply(v, s, Add(id, when, interval));
    assert Keyed(t.timers, t.table);
  }

  // --- cancel ---

  /** What cancelling does: nothing, or exactly one entry goes. */
  lemma CancelRemoves(s: State, id: TimerId) returns (i: nat)
    requires Placed(s) && id in s.table
    ensures var r := Erase(s.timers, s.table[id].expiration, id);
            if InMap(s, id) then i < |s.timers| && s.timers[i].value == id && r == s.timers[..i] + s.timers[i + 1..]
            else r == s.timers
  {
    if InMap(s, id) {
      i := HasAt(s.timers, id);
      EraseExactly(s.timers, i);
    } else {
      i := 0;
      EraseAbsent(s.timers, s.table[id].expiration, id);
    }
  }

  lemma CancelKeepsPlaced(v: Variant, s: State, id: TimerId)
    requires Placed(s) && id in s.table
    ensures Placed(Apply(v, s, Cancel(id)))
    ensures forall x :: InMap(Apply(v, s, Cancel(id)), x) <==> InMap(s, x) && x != id
  {
    var i := CancelRemoves(s, id);
    if InMap(s, id) {
      CutOut(s, i);
      assert Apply(v, s, Cancel(id)) == s.(timers := s.timers[..i] + s.timers[i + 1..]);
    } else {
      assert Apply(v, s, Cancel(id)) == s;
    }
  }

  lemma CutOut(s: State, i: nat)
    requires Placed(s) && i < |s.timers|
    ensures Placed(s.(timers := s.timers[..i] + s.timers[i + 1..]))
    ensures forall x :: Has(s.timers[..i] + s.timers[i + 1..], x) <==> Has(s.timers, x) && x != s.timers[i].value
  {
    EraseKeeps(s.timers, i);
  }

  // --- expire ---

  lemma ExpireKeepsPlaced(v: Variant, s: State)
    requires Placed(s) && Enabled(s, Expire)
    ensures var t := Apply(v, s, Expire);
            && Placed(t)
            && (forall id :: InMap(s, id) <==> InMap(t, id) || id in t.batch)
            && (forall id :: id in t.batch ==> id in s.table && s.table[id].expiration < s.now)
  {
    var n := LowerBound(s.timers, s.now);
    LowerBoundSplits(s.timers, s.now);
    Cut(s.timers, n);
    var batch := Values(s.timers[..n]);
    forall id | id in batch ensures id in s.table && s.table[id].expiration < s.now {
      var i := HasAt(s.timers[..n], id);
      assert s.timers[i] in s.timers;
    }
    assert batch == batch[|batch| - |batch|..];
  }

  // --- run the next timer of the batch ---

  lemma RunKeepsPlaced(v: Variant, s: State)
    requires Placed(s) && Enabled(s, RunNext)
    ensures var t := Apply(v, s, RunNext);
            && Placed(t)
            && s.todo[0] in s.batch
            && (forall id :: id in t.todo <==> id in s.todo && id != s.todo[0])
  {
  }

  // --- finish the batch ---

  lemma ReturningStaysKeyed(m: seq<Entry<TimerId>>, table: map<TimerId, Timer>, batch: seq<TimerId>, taken: int)
    requires Sorted(m) && Keyed(m, table) && Distinct(batch)
    requires forall id :: id in batch ==> id in table && !Has(m, id)
    ensures Keyed(InsertAll(m, Returning(table, batch, taken)), Restarted(table, batch, taken))
  {
    var back := Returning(table, batch, taken);
    var all := InsertAll(m, back);
    var after := Restarted(table, batch, taken);
    ReturningExactly(table, batch, taken);
    InsertAllMembers(m, back);
    forall e | e in all ensures e.value in after && e.key == after[e.value].expiration {
      if e in back {
        MemberHas(back, e);
      } else {
        MemberHas(m, e);
      }
    }
  }

  lemma FinishKeepsPlaced(v: Variant, s: State)
    requires Placed(s) && Enabled(s, Finish)
    ensures var t := Apply(v, s, Finish);
            && Placed(t)
            && (forall id :: InMap(t, id) <==> InMap(s, id) || (id in s.batch && Repeats(s.table[id])))
  {
    var back := Returning(s.table, s.batch, s.taken);
    ReturningExactly(s.table, s.batch, s.taken);
    InsertAllMembers(s.timers, back);
    ReturningStaysKeyed(s.timers, s.table, s.batch, s.taken);
  }

  lemma StepKeepsPlaced(v: Variant, s: State, a: Action)
    requires Placed(s) && Enabled(s, a)
    ensures Placed(Apply(v, s, a))
  {
    match a
    case Tick(_) =>
    case Add(id, when, interval) => AddKeepsPlaced(v, s, id, when, interval);
    case Cancel(id) => CancelKeepsPlaced(v, s, id);
    case Expire => ExpireKeepsPlaced(v, s);
    case RunNext => RunKeepsPlaced(v, s);
    case Finish => FinishKeepsPlaced(v, s);
  }

  lemma AddKeepsPace(v: Variant, s: State, x: TimerId, when: int, interval: int, id: TimerId)
    requires Inv(s) && x !in s.table && (id in s.table || id == x)
    ensures Paced(Apply(v, s, Add(x, when, interval)), id)
  {
    AddKeepsPlaced(v, s, x, when, interval);
    assert InMap(Apply(v, s, Add(x, when, interval)), id) == (InMap(s, id) || id == x);
    assert id in s.table ==> Paced(s, id);
    assert id in s.batch ==> id in s.table;
    assert id in s.todo ==> id in s.batch;
  }

  lemma CancelKeepsPace(v: Variant, s: State, x: TimerId, id: TimerId)
    requires Inv(s) && x in s.table && id in s.table
    ensures Paced(Apply(v, s, Cancel(x)), id)
  {
    CancelKeepsPlaced(v, s, x);
    assert Paced(s, id);
  }

  lemma ExpireKeepsPace(v: Variant, s: State, id: TimerId)
    requires Inv(s) && Enabled(s, Expire) && id in s.table
    ensures Paced(Apply(v, s, Expire), id)
  {
    ExpireKeepsPlaced(v, s);
    assert Paced(s, id);
  }

  lemma RunKeepsPace(v: Variant, s: State, id: TimerId)
    requires Inv(s) && Enabled(s, RunNext) && id in s.table
    ensures Paced(Apply(v, s, RunNext), id)
  {
  }

  lemma FinishKeepsPace(v: Variant, s: State, id: TimerId)
    requires Inv(s) && Enabled(s, Finish) && id in s.table
    ensures Paced(Apply(v, s, Finish), id)
  {
    FinishKeepsPlaced(v, s);
    assert Paced(s, id);
    DueStep(s.table[id], s.table[id].runs - 1);
  }

  lemma TickKeepsPace(v: Variant, s: State, now: int, id: TimerId)
    requires Inv(s) && s.now <= now && id in s.table
    ensures Paced(Apply(v, s, Tick(now)), id)
  {
  }

  lemma StepTable(v: Variant, s: State, a: Action)
    requires Enabled(s, a)
    ensures Apply(v, s, a).table.Keys == s.table.Keys + (if a.Add? then {a.id} else {})
  {
  }

  lemma StepKeepsPace(v: Variant, s: State, a: Action, id: TimerId)
    requires Inv(s) && Enabled(s, a) && (id in s.table || (a.Add? && id == a.id))
    ensures id in Apply(v, s, a).table && Paced(Apply(v, s, a), id)
  {
    StepTable(v, s, a);
    match a
    case Tick(now) => TickKeepsPace(v, s, now, id);
    case Add(x, when, interval) => AddKeepsPace(v, s, x, when, interval, id);
    case Cancel(x) => CancelKeepsPace(v, s, x, id);
    case Expire => ExpireKeepsPace(v, s, id);
    case RunNext => RunKeepsPace(v, s, id);
    case Finish => FinishKeepsPace(v, s, id);
  }

  lemma AddKeepsOrdered(v: Variant, s: State, id: TimerId, when: int, interval: int)
    requires Placed(s) && Ordered(s) && id !in s.table
    ensures Ordered(Apply(v, s, Add(id, when, interval)))
  {
    if Has(s.timers, id) { var i := HasAt(s.timers, id); }
    InsertKeepsOrder(s.timers, Entry(when, id), s.order, s.inserts);
  }

  lemma CancelKeepsOrdered(v: Variant, s: State, id: TimerId)
    requires Placed(s) && Ordered(s) && id in s.table
    ensures Ordered(Apply(v, s, Cancel(id)))
  {
    var i := CancelRemoves(s, id);
    if InMap(s, id) { EraseKeepsOrder(s.timers, i, s.order, s.inserts); }
  }

  lemma FinishKeepsOrdered(v: Variant, s: State)
    requires Placed(s) && Ordered(s) && Enabled(s, Finish)
    ensures Ordered(Apply(v, s, Finish))
  {
    ReturningExactly(s.table, s.batch, s.taken);
    InsertAllKeepsOrder(s.timers, Returning(s.table, s.batch, s.taken), s.order, s.inserts);
  }

  lemma StepKeepsOrdered(v: Variant, s: State, a: Action)
    requires Placed(s) && Ordered(s) && Enabled(s, a)
    ensures Ordered(Apply(v, s, a))
  {
    match a
    case Add(id, when, interval) => AddKeepsOrdered(v, s, id, when, interval);
    case Cancel(id) => CancelKeepsOrdered(v, s, id);
    case Finish => FinishKeepsOrdered(v, s);
    case _ =>
  }

  lemma StepKeepsInv(v: Variant, s: State, a: Action)
    requires Inv(s) && Enabled(s, a)
    ensures Inv(Apply(v, s, a))
  {
    StepKeepsPlaced(v, s, a);
    StepKeepsOrdered(v, s, a);
    StepTable(v, s, a);
    forall id | id in Apply(v, s, a).table ensures Paced(Apply(v, s, a), id) {
      StepKeepsPace(v, s, a, id);
    }
  }

  // ------------------------------------------------------------------
  // What each step does
  // ------------------------------------------------------------------

  /** To a timer: it runs when its turn in the batch has come, a repeater is due one interval after
      the batch was taken, and a new one is due when asked for. */
  lemma TimerExactly(v: Variant, s: State, a: Action, id: TimerId)
    requires Enabled(s, a)
    ensures id in Apply(v, s, a).table <==> id in s.table || (a.Add? && a.id == id)
    ensures id in s.table ==>
              var x := s.table[id];
              Apply(v, s, a).table[id] ==
              if a.RunNext? && s.todo[0] == id then x.(runs := x.runs + 1, last := s.taken)
              else if a.Finish? && id in s.batch && x.interval > 0 then x.(expiration := s.taken + x.interval)
              else x
    ensures a.Add? && a.id == id ==> Apply(v, s, a).table[id] == Timer(a.when, a.interval, a.when, 0, 0)
  {
  }

  /** To the map: who is in it afterwards. */
  lemma MapExactly(v: Variant, s: State, a: Action, id: TimerId)
    requires Placed(s) && Enabled(s, a)
    ensures Has(Apply(v, s, a).timers, id) <==>
            match a
            case Add(x, _, _) => Has(s.timers, id) || x == id
            case Cancel(x) => Has(s.timers, id) && x != id
            case Expire => Has(s.timers, id) && s.table[id].expiration >= s.now
            case Finish => Has(s.timers, id) || (id in s.batch && s.table[id].interval > 0)
            case _ => Has(s.timers, id)
  {
    assert InMap(s, id) == Has(s.timers, id);
    assert InMap(Apply(v, s, a), id) == Has(Apply(v, s, a).timers, id);
    match a
    case Tick(_) =>
    case Add(x, when, interval) => AddKeepsPlaced(v, s, x, when, interval);
    case Cancel(x) => CancelKeepsPlaced(v, s, x);
    case Expire =>
      ExpireKeepsPlaced(v, s);
      if Has(Apply(v, s, Expire).timers, id) { StaysWhenNotDue(s, id); }
    case RunNext =>
    case Finish => FinishKeepsPlaced(v, s);
  }

  lemma StaysWhenNotDue(s: State, id: TimerId)
    requires Placed(s) && Has(s.timers[LowerBound(s.timers, s.now)..], id)
    ensures id in s.table && s.table[id].expiration >= s.now
  {
    var n := LowerBound(s.timers, s.now);
    LowerBoundSplits(s.timers, s.now);
    var i := HasAt(s.timers[n..], id);
    assert s.timers[n + i] in s.timers;
  }

  /** To the clock, the batch and the OS timer: armed for the first key, a millisecond from now at
      the earliest, when an add is the first or a batch ends; disarmed when its expiry is read. */
  lemma QueueExactly(v: Variant, s: State, a: Action)
    requires Enabled(s, a)
    ensures var t := Apply(v, s, a);
            && t.now == (if a.Tick? then a.now else s.now)
            && t.handling == (if a.Expire? then true else if a.Finish? then false else s.handling)
            && t.taken == (if a.Expire? then s.now else s.taken)
            && t.todo == (if a.Expire? then t.batch else if a.RunNext? then s.todo[1..] else s.todo)
            && (a.Expire? ==> t.armed == if s.armed.Some? && s.armed.value <= s.now then None else s.armed)
            && (a.Tick? || a.Cancel? || a.RunNext? ==> t.armed == s.armed)
            && t.lastArm ==
               (if (a.Add? && (s.timers == [] || a.when < s.timers[0].key)) || (a.Finish? && t.timers != [])
                then s.now else s.lastArm)
    ensures a.Add? ==>
              Apply(v, s, a).armed ==
              if (s.timers == [] || a.when < s.timers[0].key) && (v.Repaired? || a.when - s.now > -1_000_000_000)
              then Some(Max(a.when, s.now + 1_000_000)) else s.armed
    ensures a.Finish? ==>
              var t := Apply(v, s, a);
              t.armed ==
              if t.timers != [] && (v.Repaired? || t.timers[0].key - s.now > -1_000_000_000)
              then Some(Max(t.timers[0].key, s.now + 1_000_000)) else s.armed
  {
    if a.Add? { ArmsOrNot(v, s.armed, s.now, a.when); }
    if a.Finish? && Apply(v, s, a).timers != [] { ArmsOrNot(v, s.armed, s.now, Apply(v, s, a).timers[0].key); }
  }

  // ------------------------------------------------------------------
  // The OS timer is armed for the earliest key
  // ------------------------------------------------------------------

  /** Outside handle_read a non-empty map has the OS timer armed (or already readable), no later
      than its earliest key or a millisecond after the last arming. */
  predicate ArmedInTime(s: State) {
    s.timers != [] && !s.handling ==>
      s.armed.Some? && s.armed.value <= Max(s.timers[0].key, s.lastArm + NANOS_PER_MS)
  }

  /** The step arms the OS timer for an expiry a second or more in the past. */
  predicate ArmsLate(v: Variant, s: State, a: Action)
    requires Enabled(s, a)
  {
    match a
    case Add(_, when, _) => BecomesFirst(s, when) && when - s.now <= -NANOS_PER_SEC
    case Finish =>
      var t := Apply(v, s, a);
      t.timers != [] && t.timers[0].key - s.now <= -NANOS_PER_SEC
    case _ => false
  }

  lemma AddKeepsArmed(v: Variant, s: State, id: TimerId, when: int, interval: int)
    requires ArmedInTime(s) && id !in s.table
    requires v.Repaired? || !ArmsLate(v, s, Add(id, when, interval))
    ensures ArmedInTime(Apply(v, s, Add(id, when, interval)))
  {
    ArmExactly(s.now, when);
  }

  lemma CancelKeepsArmed(v: Variant, s: State, id: TimerId)
    requires Placed(s) && ArmedInTime(s) && id in s.table
    ensures ArmedInTime(Apply(v, s, Cancel(id)))
  {
    var i := CancelRemoves(s, id);
    var t := Apply(v, s, Cancel(id));
    if t.timers != [] {
      assert s.timers[0].key <= t.timers[0].key;
    }
  }

  lemma FinishKeepsArmed(v: Variant, s: State)
    requires Enabled(s, Finish) && (v.Repaired? || !ArmsLate(v, s, Finish))
    ensures ArmedInTime(Apply(v, s, Finish))
  {
    var t := Apply(v, s, Finish);
    if t.timers != [] { ArmExactly(s.now, t.timers[0].key); }
  }

  /** Armed deadlines survive: non-first inserts, cancelling the first timer, a handled expiry. */
  lemma StepKeepsArmed(v: Variant, s: State, a: Action)
    requires Inv(s) && ArmedInTime(s) && Enabled(s, a)
    requires v.Repaired? || !ArmsLate(v, s, a)
    ensures ArmedInTime(Apply(v, s, a))
  {
    match a
    case Add(id, when, interval) => AddKeepsArmed(v, s, id, when, interval);
    case Cancel(id) => CancelKeepsArmed(v, s, id);
    case Finish => FinishKeepsArmed(v, s);
    case _ =>
  }

  /** The step does not arm late, or it is an add by a callback (the batch re-arms when it ends),
      or the OS timer is due within the slack anyway. */
  predicate KeepsDeadline(v: Variant, s: State, a: Action)
    requires Enabled(s, a)
  {
    || v.Repaired? || !ArmsLate(v, s, a)
    || (a.Add? && s.handling)
    || (s.armed.Some? && s.armed.value <= s.now + NANOS_PER_MS)
  }

  /** Every step of the repaired code keeps the deadline in time, and the code as written keeps it
      exactly by these. */
  lemma StepArmsExactly(v: Variant, s: State, a: Action)
    requires Inv(s) && ArmedInTime(s) && Enabled(s, a)
    ensures ArmedInTime(Apply(v, s, a)) <==> KeepsDeadline(v, s, a)
  {
    if v.Repaired? || !ArmsLate(v, s, a) { StepKeepsArmed(v, s, a); }
  }

  // ------------------------------------------------------------------
  // Runs
  // ------------------------------------------------------------------

  predicate Legal(v: Variant, s: State, run: seq<Action>)
    decreases |run|
  {
    run == [] || (Enabled(s, run[0]) && Legal(v, Apply(v, s, run[0]), run[1..]))
  }

  function Exec(v: Variant, s: State, run: seq<Action>): State
    requires Legal(v, s, run)
    decreases |run|
  {
    if run == [] then s else Exec(v, Apply(v, s, run[0]), run[1..])
  }

  lemma {:induction false} LegalSnoc(v: Variant, s: State, run: seq<Action>, a: Action)
    requires Legal(v, s, run) && Enabled(Exec(v, s, run), a)
    ensures Legal(v, s, run + [a]) && Exec(v, s, run + [a]) == Apply(v, Exec(v, s, run), a)
    decreases |run|
  {
    if run == [] {
      assert run + [a] == [a] && [a][1..] == [];
      assert Legal(v, Apply(v, s, a), []);
    } else {
      LegalSnoc(v, Apply(v, s, run[0]), run[1..], a);
      assert (run + [a])[1..] == run[1..] + [a];
    }
  }

  /** Every step of the run keeps the deadline. */
  predicate InTime(v: Variant, s: State, run: seq<Action>)
    requires Legal(v, s, run)
    decreases |run|
  {
    run == [] || (KeepsDeadline(v, s, run[0]) && InTime(v, Apply(v, s, run[0]), run[1..]))
  }

  /** The OS timer is armed in time in every state of the run. */
  predicate AlwaysArmed(v: Variant, s: State, run: seq<Action>)
    requires Legal(v, s, run)
    decreases |run|
  {
    ArmedInTime(s) && (run == [] || AlwaysArmed(v, Apply(v, s, run[0]), run[1..]))
  }

  lemma {:induction false} RunArmsExactly(v: Variant, s: State, run: seq<Action>)
    requires Inv(s) && ArmedInTime(s) && Legal(v, s, run)
    ensures AlwaysArmed(v, s, run) <==> InTime(v, s, run)
    ensures InTime(v, s, run) ==> ArmedInTime(Exec(v, s, run))
    ensures v.Repaired? ==> InTime(v, s, run)
    decreases |run|
  {
    if run == [] {
    } else {
      StepKeepsInv(v, s, run[0]);
      StepArmsExactly(v, s, run[0]);
      if ArmedInTime(Apply(v, s, run[0])) { RunArmsExactly(v, Apply(v, s, run[0]), run[1..]); }
    }
  }

  lemma {:induction false} RunKeepsInv(v: Variant, s: State, run: seq<Action>)
    requires Inv(s) && Legal(v, s, run)
    ensures Inv(Exec(v, s, run))
    decreases |run|
  {
    if run == [] {
    } else {
      StepKeepsInv(v, s, run[0]);
      RunKeepsInv(v, Apply(v, s, run[0]), run[1..]);
    }
  }

  ghost predicate Reachable(v: Variant, s: State) {
    exists run :: Legal(v, INITIAL, run) && s == Exec(v, INITIAL, run)
  }

  lemma ReachableInv(v: Variant, s: State)
    requires Reachable(v, s)
    ensures Inv(s)
  {
    var run :| Legal(v, INITIAL, run) && s == Exec(v, INITIAL, run);
    RunKeepsInv(v, INITIAL, run);
  }

  lemma ReadableWhenDue(s: State)
    requires ArmedInTime(s) && !s.handling && s.timers != []
    requires s.now >= Max(s.timers[0].key, s.lastArm + NANOS_PER_MS)
    ensures Readable(s)
  {
  }

  /** No timer is forgotten: once the earliest key and the arming slack have passed, the expiry
      is there to be handled; in every run of the repaired code, and of the code as written in
      those whose steps keep the deadline. */
  lemma NoTimerForgotten(v: Variant, run: seq<Action>)
    requires Legal(v, INITIAL, run) && (v.Repaired? || InTime(v, INITIAL, run))
    ensures var s := Exec(v, INITIAL, run);
            !s.handling && s.timers != [] && s.now >= Max(s.timers[0].key, s.lastArm + NANOS_PER_MS) ==> Readable(s)
  {
    RunArmsExactly(v, INITIAL, run);
    var s := Exec(v, INITIAL, run);
    if !s.handling && s.timers != [] && s.now >= Max(s.timers[0].key, s.lastArm + NANOS_PER_MS) {
      ReadableWhenDue(s);
    }
  }

  // ------------------------------------------------------------------
  // Conservation, cancellation, pace
  // ------------------------------------------------------------------

  /** The batch is exactly the timers due, in key order and in insertion order among equal keys;
      the rest stay as they were. */
  lemma ExpireTakesTheDue(v: Variant, s: State)
    requires Inv(s) && Enabled(s, Expire)
    ensures var t := Apply(v, s, Expire); var n := |t.batch|;
            && n <= |s.timers| && t.timers == s.timers[n..]
            && (forall i :: 0 <= i < n ==> t.batch[i] == s.timers[i].value && s.timers[i].key < s.now)
            && (forall i :: n <= i < |s.timers| ==> s.timers[i].key >= s.now)
            && (forall i, j :: 0 <= i < j < n ==>
                  && s.timers[i].key <= s.timers[j].key
                  && (s.timers[i].key == s.timers[j].key ==> s.order[t.batch[i]] < s.order[t.batch[j]]))
  {
    var n := LowerBound(s.timers, s.now);
    LowerBoundSplits(s.timers, s.now);
    forall i | 0 <= i < n ensures Values(s.timers[..n])[i] == s.timers[i].value {
      ValuesAt(s.timers[..n], i);
    }
  }

  /** Of a finished batch the repeaters are back in the map, once each, and the one-shots are
      gone, whatever was cancelled or added while it ran. */
  lemma FinishDisposes(v: Variant, s: State, id: TimerId)
    requires Inv(s) && Enabled(s, Finish) && id in s.batch
    ensures var t := Apply(v, s, Finish);
            && Unique(t.timers)
            && (InMap(t, id) <==> Repeats(s.table[id]))
            && (Repeats(s.table[id]) ==> t.table[id].expiration == s.taken + s.table[id].interval)
            && (!Repeats(s.table[id]) ==> Dead(t, id))
  {
    FinishKeepsPlaced(v, s);
  }

  /** Made, and in neither place. */
  predicate Dead(s: State, id: TimerId) { id in s.table && !InMap(s, id) && id !in s.batch }

  /** Cancelling takes that timer out of the map and no other, equal keys included, and touches
      nothing but the map. */
  lemma CancelRemovesOne(v: Variant, s: State, id: TimerId)
    requires Inv(s) && id in s.table
    ensures var t := Apply(v, s, Cancel(id));
            && (forall x :: InMap(t, x) <==> InMap(s, x) && x != id)
            && t == s.(timers := t.timers)
  {
    CancelKeepsPlaced(v, s, id);
  }

  /** t has nothing of a timer that s did not have. */
  predicate StaysDead(s: State, t: State, id: TimerId) {
    Dead(s, id) ==> Dead(t, id) && t.table[id].runs == s.table[id].runs
  }

  lemma AddLeavesDead(v: Variant, s: State, x: TimerId, when: int, interval: int, id: TimerId)
    requires Placed(s) && x !in s.table
    ensures StaysDead(s, Apply(v, s, Add(x, when, interval)), id)
  {
    AddKeepsPlaced(v, s, x, when, interval);
  }

  lemma CancelLeavesDead(v: Variant, s: State, x: TimerId, id: TimerId)
    requires Placed(s) && x in s.table
    ensures StaysDead(s, Apply(v, s, Cancel(x)), id)
  {
    CancelKeepsPlaced(v, s, x);
  }

  lemma ExpireLeavesDead(v: Variant, s: State, id: TimerId)
    requires Placed(s) && Enabled(s, Expire)
    ensures StaysDead(s, Apply(v, s, Expire), id)
  {
    ExpireKeepsPlaced(v, s);
  }

  lemma RunLeavesDead(v: Variant, s: State, id: TimerId)
    requires Placed(s) && Enabled(s, RunNext)
    ensures StaysDead(s, Apply(v, s, RunNext), id)
  {
  }

  lemma FinishLeavesDead(v: Variant, s: State, id: TimerId)
    requires Placed(s) && Enabled(s, Finish)
    ensures StaysDead(s, Apply(v, s, Finish), id)
  {
    FinishKeepsPlaced(v, s);
  }

  lemma DeadStaysDead(v: Variant, s: State, a: Action, id: TimerId)
    requires Placed(s) && Enabled(s, a)
    ensures StaysDead(s, Apply(v, s, a), id)
  {
    match a
    case Tick(_) =>
    case Add(x, when, interval) => AddLeavesDead(v, s, x, when, interval, id);
    case Cancel(x) => CancelLeavesDead(v, s, x, id);
    case Expire => ExpireLeavesDead(v, s, id);
    case RunNext => RunLeavesDead(v, s, id);
    case Finish => FinishLeavesDead(v, s, id);
  }

  /** Cancellation is final: a dead timer never runs again and never returns. */
  lemma {:induction false} DeadForever(v: Variant, s: State, run: seq<Action>, id: TimerId)
    requires Inv(s) && Legal(v, s, run) && Dead(s, id)
    ensures Dead(Exec(v, s, run), id) && Exec(v, s, run).table[id].runs == s.table[id].runs
    decreases |run|
  {
    if run == [] {
    } else {
      DeadStaysDead(v, s, run[0], id);
      StepKeepsInv(v, s, run[0]);
      DeadForever(v, Apply(v, s, run[0]), run[1..], id);
    }
  }

  /** In how many of its places a timer is: due in the map; in hand, which is in the batch and
      still to run or to return to the map; or over, a one-shot that has run. */
  function PlacesAt(t: Timer, inMap: bool, inTodo: bool, inBatch: bool): nat {
    (if inMap then 1 else 0)
    + (if inBatch && (Repeats(t) || inTodo) then 1 else 0)
    + (if !Repeats(t) && t.runs == 1 then 1 else 0)
  }

  function Places(s: State, id: TimerId): nat
    requires id in s.table
  {
    PlacesAt(s.table[id], InMap(s, id), id in s.todo, id in s.batch)
  }

  /** A step leaves the count alone, but for a cancel of the timer while it is in the map. */
  predicate PlacesFollow(s: State, a: Action, t: State, id: TimerId) {
    id in s.table ==> id in t.table && Places(t, id) == if a == Cancel(id) && InMap(s, id) then 0 else Places(s, id)
  }

  lemma AddPlaces(v: Variant, s: State, x: TimerId, when: int, interval: int, id: TimerId)
    requires Placed(s) && id in s.table && x !in s.table
    ensures PlacesFollow(s, Add(x, when, interval), Apply(v, s, Add(x, when, interval)), id)
  {
    AddKeepsPlaced(v, s, x, when, interval);
    var t := Apply(v, s, Add(x, when, interval));
    assert InMap(t, id) == InMap(s, id) && t.table[id] == s.table[id];
  }

  lemma CancelPlaces(v: Variant, s: State, x: TimerId, id: TimerId)
    requires Placed(s) && id in s.table && Paced(s, id) && x in s.table
    ensures PlacesFollow(s, Cancel(x), Apply(v, s, Cancel(x)), id)
  {
    CancelKeepsPlaced(v, s, x);
    var t := Apply(v, s, Cancel(x));
    assert InMap(t, id) == (InMap(s, id) && x != id);
  }

  lemma ExpirePlaces(v: Variant, s: State, id: TimerId)
    requires Placed(s) && id in s.table && Enabled(s, Expire)
    ensures PlacesFollow(s, Expire, Apply(v, s, Expire), id)
  {
    ExpireKeepsPlaced(v, s);
    var t := Apply(v, s, Expire);
    assert InMap(s, id) == (InMap(t, id) || id in t.batch);
    assert id in t.batch ==> !InMap(t, id);
  }

  lemma RunNextPlaces(v: Variant, s: State, id: TimerId)
    requires Placed(s) && id in s.table && Paced(s, id) && Enabled(s, RunNext)
    ensures PlacesFollow(s, RunNext, Apply(v, s, RunNext), id)
  {
    RunKeepsPlaced(v, s);
  }

  lemma FinishPlaces(v: Variant, s: State, id: TimerId)
    requires Placed(s) && id in s.table && Enabled(s, Finish)
    ensures PlacesFollow(s, Finish, Apply(v, s, Finish), id)
  {
    FinishKeepsPlaced(v, s);
    var t := Apply(v, s, Finish);
    assert InMap(t, id) == (InMap(s, id) || (id in s.batch && Repeats(s.table[id])));
    assert id in s.batch ==> !InMap(s, id);
  }

  lemma StepPlaces(v: Variant, s: State, a: Action, id: TimerId)
    requires Placed(s) && Enabled(s, a) && id in s.table && Paced(s, id)
    ensures PlacesFollow(s, a, Apply(v, s, a), id)
  {
    match a
    case Tick(_) =>
    case Add(x, when, interval) => AddPlaces(v, s, x, when, interval, id);
    case Cancel(x) => CancelPlaces(v, s, x, id);
    case Expire => ExpirePlaces(v, s, id);
    case RunNext => RunNextPlaces(v, s, id);
    case Finish => FinishPlaces(v, s, id);
  }

  lemma AddedOnce(v: Variant, s: State, id: TimerId, when: int, interval: int)
    requires Placed(s) && id !in s.table
    ensures Places(Apply(v, s, Add(id, when, interval)), id) == 1
  {
    AddKeepsPlaced(v, s, id, when, interval);
    assert id !in s.batch && id !in s.todo;
  }

  /** Some step of the run cancels the timer while it is in the map. */
  predicate CancelsWaiting(v: Variant, s: State, run: seq<Action>, id: TimerId)
    requires Legal(v, s, run)
    decreases |run|
  {
    run != [] && ((run[0] == Cancel(id) && InMap(s, id)) || CancelsWaiting(v, Apply(v, s, run[0]), run[1..], id))
  }

  lemma {:induction false} RunPlaces(v: Variant, s: State, run: seq<Action>, id: TimerId)
    requires Inv(s) && Legal(v, s, run) && id in Exec(v, s, run).table
    requires id in s.table ==> Places(s, id) <= 1
    ensures Places(Exec(v, s, run), id)
         == if CancelsWaiting(v, s, run, id) then 0 else if id in s.table then Places(s, id) else 1
    decreases |run|
  {
    if run == [] {
    } else {
      StepKeepsInv(v, s, run[0]);
      StepTable(v, s, run[0]);
      if id in s.table {
        StepPlaces(v, s, run[0], id);
      } else if run[0].Add? && run[0].id == id {
        AddedOnce(v, s, id, run[0].when, run[0].interval);
      }
      RunPlaces(v, Apply(v, s, run[0]), run[1..], id);
    }
  }

  /** Timers are conserved: in every run an added timer is in exactly one place, due in the map,
      in hand, or over after its one run; and it is in none exactly when some step cancelled it
      while it was in the map. */
  lemma TimersAreConserved(v: Variant, run: seq<Action>, id: TimerId)
    requires Legal(v, INITIAL, run) && id in Exec(v, INITIAL, run).table
    ensures Places(Exec(v, INITIAL, run), id) == if CancelsWaiting(v, INITIAL, run, id) then 0 else 1
  {
    RunPlaces(v, INITIAL, run, id);
  }

  // --- when a cancelled timer never runs again ---

  function RunsOf(s: State, id: TimerId): nat { if id in s.table then s.table[id].runs else 0 }

  /** No run from s runs the timer once more. */
  ghost predicate NeverRunsAgain(v: Variant, s: State, id: TimerId) {
    forall run :: Legal(v, s, run) ==> RunsOf(Exec(v, s, run), id) == RunsOf(s, id)
  }

  /** A step forgets neither a timer nor a run of it, and does not make a repeater of a one-shot. */
  predicate Remembers(s: State, t: State, id: TimerId) {
    id in s.table ==>
      id in t.table && RunsOf(s, id) <= RunsOf(t, id) && t.table[id].interval == s.table[id].interval
  }

  lemma StepRemembers(v: Variant, s: State, a: Action, id: TimerId)
    requires Enabled(s, a)
    ensures Remembers(s, Apply(v, s, a), id)
  {
  }

  lemma {:induction false} RunRemembers(v: Variant, s: State, run: seq<Action>, id: TimerId)
    requires Legal(v, s, run)
    ensures Remembers(s, Exec(v, s, run), id)
    decreases |run|
  {
    if run == [] {
    } else {
      StepRemembers(v, s, run[0], id);
      RunRemembers(v, Apply(v, s, run[0]), run[1..], id);
    }
  }

  /** A one-shot that has run is over, wherever it still stands. */
  lemma RanIsOver(v: Variant, s: State, id: TimerId)
    requires Inv(s) && id in s.table && !Repeats(s.table[id]) && s.table[id].runs == 1
    ensures NeverRunsAgain(v, s, id)
  {
    forall run | Legal(v, s, run) ensures RunsOf(Exec(v, s, run), id) == RunsOf(s, id) {
      RunKeepsInv(v, s, run);
      RunRemembers(v, s, run, id);
      assert Paced(Exec(v, s, run), id);
    }
  }

  lemma DeadIsOver(v: Variant, s: State, id: TimerId)
    requires Inv(s) && Dead(s, id)
    ensures NeverRunsAgain(v, s, id)
  {
    forall run | Legal(v, s, run) ensures RunsOf(Exec(v, s, run), id) == RunsOf(s, id) {
      DeadForever(v, s, run, id);
    }
  }

  lemma Prepended(v: Variant, s: State, a: Action, rest: seq<Action>)
    requires Enabled(s, a) && Legal(v, Apply(v, s, a), rest)
    ensures Legal(v, s, [a] + rest) && Exec(v, s, [a] + rest) == Exec(v, Apply(v, s, a), rest)
  {
    assert ([a] + rest)[1..] == rest;
  }

  lemma RunsNext(v: Variant, s: State, id: TimerId)
    requires Inv(s) && s.todo != []
    ensures Enabled(s, RunNext)
    ensures var t := Apply(v, s, RunNext);
            && Inv(t) && t.handling && t.todo == s.todo[1..] && t.batch == s.batch && t.timers == s.timers
            && RunsOf(t, id) == RunsOf(s, id) + (if s.todo[0] == id then 1 else 0)
            && (id in s.table ==> id in t.table && t.table[id].interval == s.table[id].interval)
  {
    assert s.todo[0] in s.todo && s.todo[0] in s.batch;
    StepKeepsInv(v, s, RunNext);
  }

  /** A timer still to run in the batch runs. */
  lemma {:induction false} RunsInBatch(v: Variant, s: State, id: TimerId) returns (run: seq<Action>)
    requires Inv(s) && id in s.todo
    ensures Legal(v, s, run) && RunsOf(Exec(v, s, run), id) > RunsOf(s, id)
    decreases |s.todo|
  {
    RunsNext(v, s, id);
    var t := Apply(v, s, RunNext);
    if s.todo[0] == id {
      run := [RunNext] + [];
      Prepended(v, s, RunNext, []);
    } else {
      var rest := RunsInBatch(v, t, id);
      run := [RunNext] + rest;
      Prepended(v, s, RunNext, rest);
    }
  }

  /** Once the batch is over and its key has passed, a timer of the map runs. */
  lemma RunsFromMap(v: Variant, s: State, id: TimerId) returns (run: seq<Action>)
    requires Inv(s) && !s.handling && InMap(s, id)
    ensures Legal(v, s, run) && RunsOf(Exec(v, s, run), id) > RunsOf(s, id)
  {
    var i := HasAt(s.timers, id);
    var tick := Tick(Max(s.now, s.timers[i].key + 1));
    var late := Apply(v, s, tick);
    StepKeepsInv(v, s, tick);
    ExpireTakesTheDue(v, late);
    var taken := Apply(v, late, Expire);
    assert i < |taken.batch| && taken.batch[i] == id && taken.todo == taken.batch;
    StepKeepsInv(v, late, Expire);
    var rest := RunsInBatch(v, taken, id);
    Prepended(v, late, Expire, rest);
    run := [tick] + ([Expire] + rest);
    Prepended(v, s, tick, [Expire] + rest);
  }

  /** A repeater of the batch returns to the map when the batch is over, and runs. */
  lemma {:induction false} ReturnsAndRuns(v: Variant, s: State, id: TimerId) returns (run: seq<Action>)
    requires Inv(s) && id in s.batch && id in s.table && Repeats(s.table[id])
    ensures Legal(v, s, run) && RunsOf(Exec(v, s, run), id) > RunsOf(s, id)
    decreases |s.todo|
  {
    if s.todo == [] {
      StepKeepsInv(v, s, Finish);
      FinishDisposes(v, s, id);
      var rest := RunsFromMap(v, Apply(v, s, Finish), id);
      run := [Finish] + rest;
      Prepended(v, s, Finish, rest);
      StepRemembers(v, s, Finish, id);
    } else {
      RunsNext(v, s, id);
      var rest := ReturnsAndRuns(v, Apply(v, s, RunNext), id);
      run := [RunNext] + rest;
      Prepended(v, s, RunNext, rest);
    }
  }

  /** A run that runs the timer once more, if it is still to run in the batch or to return. */
  lemma RunsOnceMore(v: Variant, s: State, id: TimerId)
    requires Inv(s) && id in s.table && (id in s.todo || (id in s.batch && Repeats(s.table[id])))
    ensures !NeverRunsAgain(v, s, id)
  {
    var run: seq<Action>;
    if id in s.todo {
      run := RunsInBatch(v, s, id);
    } else {
      run := ReturnsAndRuns(v, s, id);
    }
    assert Legal(v, s, run) && RunsOf(Exec(v, s, run), id) != RunsOf(s, id);
  }

  /** What cancelling is for, exactly: the timer never runs again unless it is in the batch being
      run and has still to run in it, or repeats. */
  lemma CancelStopsExactly(v: Variant, s: State, id: TimerId)
    requires Inv(s) && id in s.table
    ensures NeverRunsAgain(v, Apply(v, s, Cancel(id)), id)
       <==> !(id in s.todo || (id in s.batch && Repeats(s.table[id])))
  {
    var t := Apply(v, s, Cancel(id));
    StepKeepsInv(v, s, Cancel(id));
    CancelRemovesOne(v, s, id);
    if id in s.todo || (id in s.batch && Repeats(s.table[id])) {
      RunsOnceMore(v, t, id);
    } else if id in s.batch {
      assert Paced(s, id);
      RanIsOver(v, t, id);
    } else {
      DeadIsOver(v, t, id);
    }
  }

  /** Timer 7, due at 1 and then every nanosecond, and the OS timer armed for it has fired. */
  lemma TimerFires(v: Variant) returns (run: seq<Action>)
    ensures Legal(v, INITIAL, run)
    ensures var s := Exec(v, INITIAL, run);
            && Readable(s) && s.now == 2 * NANOS_PER_MS && !s.handling
            && s.timers == [Entry(1, 7)] && s.table == map[7 := Timer(1, 1, 1, 0, 0)]
  {
    var add := Add(7, 1, 1);
    assert [add][1..] == [];
    assert Exec(v, INITIAL, [add]) == Apply(v, INITIAL, add);
    LegalSnoc(v, INITIAL, [add], Tick(2 * NANOS_PER_MS));
    run := [add] + [Tick(2 * NANOS_PER_MS)];
  }

  /** From there the timer is taken, runs and cancels itself. */
  lemma CancelsItself(v: Variant, s: State)
    requires Placed(s) && !s.handling && s.now == 2 * NANOS_PER_MS
    requires s.timers == [Entry(1, 7)] && s.table == map[7 := Timer(1, 1, 1, 0, 0)]
    ensures Enabled(s, Expire)
    ensures var taken := Apply(v, s, Expire);
            && Enabled(taken, RunNext)
            && var ran := Apply(v, taken, RunNext);
               && Enabled(ran, Cancel(7))
               && var done := Apply(v, ran, Cancel(7));
                  Placed(done) && Enabled(done, Finish) && done.batch == [7] && Repeats(done.table[7])
  {
    var taken := Apply(v, s, Expire);
    ExpireKeepsPlaced(v, s);
    assert taken.batch == [7] && taken.todo == [7];
    var ran := Apply(v, taken, RunNext);
    RunKeepsPlaced(v, taken);
    CancelKeepsPlaced(v, ran, 7);
  }

  /** A repeater that cancels itself while it runs is due again. */
  lemma SelfCancelIsForgotten(v: Variant) returns (fired: seq<Action>, run: seq<Action>)
    ensures Legal(v, INITIAL, fired) && Readable(Exec(v, INITIAL, fired))
    ensures run == fired + [Expire] + [RunNext] + [Cancel(7)] + [Finish] && Legal(v, INITIAL, run)
    ensures InMap(Exec(v, INITIAL, run), 7)
  {
    fired := TimerFires(v);
    RunKeepsInv(v, INITIAL, fired);
    CancelsItself(v, Exec(v, INITIAL, fired));
    LegalSnoc(v, INITIAL, fired, Expire);
    run := fired + [Expire];
    LegalSnoc(v, INITIAL, run, RunNext);
    run := run + [RunNext];
    LegalSnoc(v, INITIAL, run, Cancel(7));
    run := run + [Cancel(7)];
    LegalSnoc(v, INITIAL, run, Finish);
    FinishKeepsPlaced(v, Exec(v, INITIAL, run));
    run := run + [Finish];
  }

  /** Two one-shots, 6 and 7, are due and the OS timer has fired. */
  lemma TwoFire(v: Variant) returns (run: seq<Action>)
    ensures Legal(v, INITIAL, run)
    ensures var s := Exec(v, INITIAL, run);
            && Readable(s) && !s.handling && s.now == 2 * NANOS_PER_MS
            && s.timers == [Entry(1, 6), Entry(1, 7)]
            && s.table == map[6 := Timer(1, 0, 1, 0, 0), 7 := Timer(1, 0, 1, 0, 0)]
  {
    var add := Add(6, 1, 0);
    assert [add][1..] == [];
    assert Exec(v, INITIAL, [add]) == Apply(v, INITIAL, add);
    LegalSnoc(v, INITIAL, [add], Add(7, 1, 0));
    run := [add] + [Add(7, 1, 0)];
    LegalSnoc(v, INITIAL, run, Tick(2 * NANOS_PER_MS));
    run := run + [Tick(2 * NANOS_PER_MS)];
  }

  lemma TwoTaken(v: Variant, s: State)
    requires s.timers == [Entry(1, 6), Entry(1, 7)] && s.now == 2 * NANOS_PER_MS && !s.handling
    ensures Apply(v, s, Expire).todo == [6, 7] && Apply(v, s, Expire).timers == []
  {
    assert s.timers[1..] == [Entry(1, 7)] && s.timers[1..][1..] == [];
    assert LowerBound(s.timers, s.now) == 2 && s.timers[..2] == s.timers;
    ValuesAt(s.timers, 0);
    ValuesAt(s.timers, 1);
  }

  /** A one-shot cancelled by the callback before its own runs all the same. */
  lemma CancelledOneShotRuns(v: Variant) returns (fired: seq<Action>, run: seq<Action>)
    ensures Legal(v, INITIAL, fired) && Readable(Exec(v, INITIAL, fired))
    ensures run == fired + [Expire] + [RunNext] + [Cancel(7)] + [RunNext] && Legal(v, INITIAL, run)
    ensures RunsOf(Exec(v, INITIAL, run), 7) == 1
  {
    fired := TwoFire(v);
    TwoTaken(v, Exec(v, INITIAL, fired));
    LegalSnoc(v, INITIAL, fired, Expire);
    run := fired + [Expire];
    LegalSnoc(v, INITIAL, run, RunNext);
    run := run + [RunNext];
    LegalSnoc(v, INITIAL, run, Cancel(7));
    run := run + [Cancel(7)];
    LegalSnoc(v, INITIAL, run, RunNext);
    run := run + [RunNext];
  }

  /** No timer runs early, a one-shot runs once, and the runs of a repeater never bunch up: run
      number k comes more than k - 1 intervals after the first expiry (so more than k intervals
      after a run_every call), and more than one interval after the run before it. */
  lemma RunsInPace(v: Variant, run: seq<Action>)
    requires Legal(v, INITIAL, run) && Enabled(Exec(v, INITIAL, run), RunNext)
    ensures var s := Exec(v, INITIAL, run); var t := s.table[s.todo[0]]; var k := t.runs + 1;
            && s.taken > t.first + (k - 1) * t.interval
            && (t.runs > 0 ==> Repeats(t) && s.taken > t.last + t.interval)
  {
    RunKeepsInv(v, INITIAL, run);
    assert Paced(Exec(v, INITIAL, run), Exec(v, INITIAL, run).todo[0]);
  }
}
