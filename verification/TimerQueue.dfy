/** The timer_queue object of src/net/source/timer_queue.cc: timer objects whose expiration_ the
    queue changes in place, a multimap keyed by it, and one OS timer.  Its public methods take
    steps of TimerRuns: Valid() says the object's state is one those runs reach, so everything
    proved there holds between any two calls. */
module TimerQueue {
  import opened Common
  import opened Clock
  import opened Multimap
  import TimerRuns

  class Timer {
    ghost const id: TimerRuns.TimerId
    const interval: int
    var expiration: int

    constructor (ghost id: TimerRuns.TimerId, when: int, interval: int)
      ensures this.id == id && expiration == when && this.interval == interval
    {
      this.id := id;
      expiration := when;
      this.interval := interval;
    }

    predicate Repeats() { interval > 0 }

    method Restart(now: int)
      modifies this
      ensures expiration == if Repeats() then now + interval else old(expiration)
    {
      if Repeats() {
        expiration := now + interval;
      }
    }
  }

  // ------------------------------------------------------------------
  // Timer objects as the numbers TimerRuns knows them by
  // ------------------------------------------------------------------

  ghost function IdsOf(batch: seq<Timer>): seq<TimerRuns.TimerId> {
    seq(|batch|, i requires 0 <= i < |batch| => batch[i].id)
  }

  ghost function Ids(m: seq<Entry<Timer>>): seq<Entry<TimerRuns.TimerId>> {
    seq(|m|, i requires 0 <= i < |m| => Entry(m[i].key, m[i].value.id))
  }

  lemma {:induction false} IdsInsert(m: seq<Entry<Timer>>, e: Entry<Timer>)
    ensures Ids(Multimap.Insert(m, e)) == Multimap.Insert(Ids(m), Entry(e.key, e.value.id))
  {
    if m != [] && e.key >= m[0].key {
      IdsInsert(m[1..], e);
      assert Ids(m)[1..] == Ids(m[1..]);
    }
  }

  lemma {:induction false} IdsLowerBound(m: seq<Entry<Timer>>, now: int)
    ensures LowerBound(Ids(m), now) == LowerBound(m, now)
  {
    if m == [] {
    } else {
      IdsLowerBound(m[1..], now);
      assert Ids(m)[1..] == Ids(m[1..]);
    }
  }

  lemma {:induction false} IdsValues(m: seq<Entry<Timer>>)
    ensures Values(Ids(m)) == IdsOf(Values(m))
  {
    if m == [] {
    } else {
      IdsValues(m[1..]);
      assert Ids(m)[1..] == Ids(m[1..]);
    }
  }

  /** The timers of the batch are recorded in the table with their intervals. */
  ghost predicate Recorded(batch: seq<Timer>, table: map<TimerRuns.TimerId, TimerRuns.Timer>) {
    forall t :: t in batch ==> t.id in table && table[t.id].interval == t.interval
  }

  lemma InsertAllSnoc<T>(m: seq<Entry<T>>, es: seq<Entry<T>>, e: Entry<T>)
    ensures InsertAll(m, es + [e]) == Multimap.Insert(InsertAll(m, es), e)
  {
    assert (es + [e])[..|es|] == es;
  }

  lemma ReturningSnoc(table: map<TimerRuns.TimerId, TimerRuns.Timer>, ids: seq<TimerRuns.TimerId>,
                      id: TimerRuns.TimerId, now: int)
    requires id in table
    ensures TimerRuns.Returning(table, ids + [id], now) ==
            TimerRuns.Returning(table, ids, now)
            + if TimerRuns.Repeats(table[id]) then [Entry(now + table[id].interval, id)] else []
  {
    assert (ids + [id])[..|ids|] == ids;
  }

  /** One more timer of the batch restarted. */
  lemma ReturningNext(start: seq<Entry<TimerRuns.TimerId>>, batch: seq<Timer>, k: nat, now: int,
                      table: map<TimerRuns.TimerId, TimerRuns.Timer>)
    requires k < |batch| && Recorded(batch, table)
    ensures InsertAll(start, TimerRuns.Returning(table, IdsOf(batch[..k + 1]), now)) ==
            var m := InsertAll(start, TimerRuns.Returning(table, IdsOf(batch[..k]), now));
            if batch[k].Repeats() then Multimap.Insert(m, Entry(now + batch[k].interval, batch[k].id)) else m
  {
    assert batch[k] in batch;
    assert IdsOf(batch[..k + 1]) == IdsOf(batch[..k]) + [batch[k].id];
    ReturningSnoc(table, IdsOf(batch[..k]), batch[k].id, now);
    var rest := TimerRuns.Returning(table, IdsOf(batch[..k]), now);
    InsertAllSnoc(start, rest, Entry(now + batch[k].interval, batch[k].id));
    assert rest + [] == rest;
  }

  /** What the step of taking the batch does, in timer objects. */
  lemma ExpireIds(timers: seq<Entry<Timer>>, now: int)
    ensures var n := LowerBound(timers, now);
            && LowerBound(Ids(timers), now) == n
            && Ids(timers)[n..] == Ids(timers[n..])
            && Values(Ids(timers)[..n]) == IdsOf(Values(timers[..n]))
  {
    var n := LowerBound(timers, now);
    IdsLowerBound(timers, now);
    IdsValues(timers[..n]);
    assert Ids(timers)[..n] == Ids(timers[..n]);
  }

  predicate SameBatch(s: TimerRuns.State, t: TimerRuns.State) {
    t.handling == s.handling && t.taken == s.taken && t.batch == s.batch && t.todo == s.todo
  }

  /** A call a timer callback makes on the queue; after is the time since the last one. */
  datatype Call =
    | AddTimer(after: nat, when: int, interval: int)
    | CancelTimer(timer: Timer)

  /** How long the calls take, and how many timers they make. */
  function Elapsed(calls: seq<Call>): nat {
    if calls == [] then 0 else (if calls[0].AddTimer? then calls[0].after else 0) + Elapsed(calls[1..])
  }

  function Added(calls: seq<Call>): nat {
    if calls == [] then 0 else (if calls[0].AddTimer? then 1 else 0) + Added(calls[1..])
  }

  /** The steps of a run that the calls of a callback are: a timer added is a new one, numbered id
      and up, and a timer cancelled is one of the queue's. */
  ghost function ActionsOf(calls: seq<Call>, now: int, id: TimerRuns.TimerId, owned: set<Timer>):
      seq<TimerRuns.Action>
  {
    if calls == [] then []
    else match calls[0]
      case AddTimer(after, when, interval) =>
        [TimerRuns.Tick(now + after), TimerRuns.Add(id, when, interval)]
        + ActionsOf(calls[1..], now + after, id + 1, owned)
      case CancelTimer(t) =>
        (if t in owned then [TimerRuns.Cancel(t.id)] else []) + ActionsOf(calls[1..], now, id, owned)
  }

  lemma OneCall(call: Call, now: int, id: TimerRuns.TimerId, owned: set<Timer>)
    ensures ActionsOf([call], now, id, owned) ==
            match call
            case AddTimer(after, when, interval) => [TimerRuns.Tick(now + after), TimerRuns.Add(id, when, interval)]
            case CancelTimer(t) => if t in owned then [TimerRuns.Cancel(t.id)] else []
    ensures Added([call]) == (if call.AddTimer? then 1 else 0)
    ensures Elapsed([call]) == (if call.AddTimer? then call.after else 0)
  {
    assert [call][1..] == [];
  }

  lemma FirstCall(calls: seq<Call>, now: int, id: TimerRuns.TimerId, owned: set<Timer>)
    requires calls != []
    ensures Elapsed(calls) == Elapsed([calls[0]]) + Elapsed(calls[1..])
    ensures Added(calls) == Added([calls[0]]) + Added(calls[1..])
    ensures ActionsOf(calls, now, id, owned) ==
            ActionsOf([calls[0]], now, id, owned)
            + ActionsOf(calls[1..], now + Elapsed([calls[0]]), id + Added([calls[0]]), owned)
  {
    assert [calls[0]][1..] == [];
  }

  /** Timers made meanwhile are not those a callback knew before. */
  lemma {:induction false} SameActions(calls: seq<Call>, now: int, id: TimerRuns.TimerId,
                                       before: set<Timer>, after: set<Timer>)
    requires forall i :: 0 <= i < |calls| && calls[i].CancelTimer? ==>
               (calls[i].timer in before <==> calls[i].timer in after)
    ensures ActionsOf(calls, now, id, before) == ActionsOf(calls, now, id, after)
    decreases |calls|
  {
    if calls == [] {
    } else {
      match calls[0]
      case AddTimer(wait, _, _) => SameActions(calls[1..], now + wait, id + 1, before, after);
      case CancelTimer(_) => SameActions(calls[1..], now, id, before, after);
    }
  }

  /** The steps of call i are the first of what is left. */
  lemma NextCall(calls: seq<Call>, i: nat, now: int, id: TimerRuns.TimerId, base: set<Timer>, owned: set<Timer>,
                 done: seq<TimerRuns.Action>, whole: seq<TimerRuns.Action>)
    returns (step: seq<TimerRuns.Action>)
    requires i < |calls| && done + ActionsOf(calls[i..], now, id, base) == whole
    requires calls[i].CancelTimer? ==> (calls[i].timer in base <==> calls[i].timer in owned)
    ensures step == ActionsOf([calls[i]], now, id, owned)
    ensures (done + step)
            + ActionsOf(calls[i + 1..], now + Elapsed([calls[i]]), id + Added([calls[i]]), base) == whole
  {
    step := ActionsOf([calls[i]], now, id, owned);
    SameActions([calls[i]], now, id, base, owned);
    FirstCall(calls[i..], now, id, base);
    assert calls[i..][1..] == calls[i + 1..];
  }

  /** The callbacks of a whole batch, one after the other. */
  function AllElapsed(callbacks: seq<seq<Call>>): nat {
    if callbacks == [] then 0 else Elapsed(callbacks[0]) + AllElapsed(callbacks[1..])
  }

  ghost function ActionsOfBatch(callbacks: seq<seq<Call>>, now: int, id: TimerRuns.TimerId, owned: set<Timer>):
      seq<TimerRuns.Action>
  {
    if callbacks == [] then []
    else
      [TimerRuns.RunNext] + ActionsOf(callbacks[0], now, id, owned)
      + ActionsOfBatch(callbacks[1..], now + Elapsed(callbacks[0]), id + Added(callbacks[0]), owned)
  }

  /** t is what s becomes by the steps run. */
  ghost predicate Took(variant: Variant, s: TimerRuns.State, t: TimerRuns.State, run: seq<TimerRuns.Action>) {
    TimerRuns.Legal(variant, s, run) && TimerRuns.Exec(variant, s, run) == t
  }

  lemma {:induction false} TookMore(variant: Variant, s: TimerRuns.State, t: TimerRuns.State, u: TimerRuns.State,
                                    run: seq<TimerRuns.Action>, more: seq<TimerRuns.Action>)
    requires Took(variant, s, t, run) && Took(variant, t, u, more)
    ensures Took(variant, s, u, run + more)
    decreases |run|
  {
    if run == [] {
      assert run + more == more;
    } else {
      TookMore(variant, TimerRuns.Apply(variant, s, run[0]), t, u, run[1..], more);
      assert (run + more)[1..] == run[1..] + more;
    }
  }

  lemma TookOne(variant: Variant, s: TimerRuns.State, a: TimerRuns.Action)
    requires TimerRuns.Enabled(s, a)
    ensures Took(variant, s, TimerRuns.Apply(variant, s, a), [a])
  {
    assert [a][1..] == [];
  }

  lemma TookTwo(variant: Variant, s: TimerRuns.State, a: TimerRuns.Action, b: TimerRuns.Action)
    requires TimerRuns.Enabled(s, a) && TimerRuns.Enabled(TimerRuns.Apply(variant, s, a), b)
    ensures Took(variant, s, TimerRuns.Apply(variant, TimerRuns.Apply(variant, s, a), b), [a, b])
  {
    var t := TimerRuns.Apply(variant, s, a);
    TookOne(variant, s, a);
    TookOne(variant, t, b);
    TookMore(variant, s, t, TimerRuns.Apply(variant, t, b), [a], [b]);
    assert [a] + [b] == [a, b];
  }

  lemma HandleReadTook(variant: Variant, s: TimerRuns.State, t: TimerRuns.State, u: TimerRuns.State,
                       w: TimerRuns.State, a: seq<TimerRuns.Action>, b: seq<TimerRuns.Action>,
                       c: seq<TimerRuns.Action>)
    requires Took(variant, s, t, a) && Took(variant, t, u, b) && Took(variant, u, w, c)
    ensures Took(variant, s, w, a + b + c)
  {
    TookMore(variant, s, t, u, a, b);
    TookMore(variant, s, u, w, a + b, c);
  }

  /** What the callbacks of n timers do; those beyond the script do nothing. */
  function Padded(script: seq<seq<Call>>, n: nat): (r: seq<seq<Call>>)
    ensures |r| == n
  {
    seq(n, i => if 0 <= i < |script| then script[i] else [])
  }

  class Queue {
    const variant: Variant
    var timers: seq<Entry<Timer>>
    var armed: Option<int>
    ghost var owned: set<Timer>   // the timer objects added so far
    ghost var s: TimerRuns.State
    ghost var byId: map<TimerRuns.TimerId, Timer>
    ghost var nextId: TimerRuns.TimerId

    /** Sorted, no timer twice, and every key is its timer's current expiry. */
    ghost predicate Keyed()
      reads this, owned
    {
      && Sorted(timers) && Unique(timers)
      && forall i :: 0 <= i < |timers| ==> timers[i].value in owned && timers[i].key == timers[i].value.expiration
    }

    /** Every timer object is in the table, under a number of its own. */
    ghost predicate Numbered()
      reads this
    {
      && (forall t :: t in owned ==> t.id in s.table && s.table[t.id].interval == t.interval)
      && (forall t :: t in owned ==> t.id in byId && byId[t.id] == t)
      && (forall id :: id in s.table ==> id < nextId)
    }

    /** And with its current expiry. */
    ghost predicate Known()
      reads this, owned
    {
      Numbered() && forall t :: t in owned ==> s.table[t.id].expiration == t.expiration
    }

    ghost predicate Valid()
      reads this, owned
    {
      && Keyed() && Known()
      && TimerRuns.Reachable(variant, s) && s.timers == Ids(timers) && s.armed == armed
    }

    constructor (variant: Variant)
      ensures Valid() && s == TimerRuns.INITIAL && owned == {} && this.variant == variant
    {
      this.variant := variant;
      timers := [];
      armed := None;
      owned := {};
      s := TimerRuns.INITIAL;
      byId, nextId := map[], 0;
      new;
      assert TimerRuns.Legal(variant, TimerRuns.INITIAL, []);
      assert TimerRuns.Exec(variant, TimerRuns.INITIAL, []) == s;
    }

    ghost method Step(a: TimerRuns.Action)
      requires TimerRuns.Reachable(variant, s) && TimerRuns.Enabled(s, a)
      modifies this`s
      ensures s == TimerRuns.Apply(variant, old(s), a) && TimerRuns.Reachable(variant, s)
    {
      var run :| TimerRuns.Legal(variant, TimerRuns.INITIAL, run)
              && s == TimerRuns.Exec(variant, TimerRuns.INITIAL, run);
      TimerRuns.LegalSnoc(variant, TimerRuns.INITIAL, run, a);
      s := TimerRuns.Apply(variant, s, a);
    }

    /** insert: true exactly when the new expiry is a strict minimum. */
    method Insert(t: Timer) returns (first: bool)
      requires Keyed() && !Has(timers, t)
      modifies this`timers, this`owned
      ensures Keyed() && owned == old(owned) + {t}
      ensures timers == Multimap.Insert(old(timers), Entry(t.expiration, t))
      ensures first <==> old(timers) == [] || t.expiration < old(timers)[0].key
    {
      var expired := t.expiration;
      first := timers == [] || expired < timers[0].key;
      ghost var i := InsertAt(timers, Entry(expired, t));
      InsertMembers(timers, Entry(expired, t));
      timers := Multimap.Insert(timers, Entry(expired, t));
      owned := owned + {t};
    }

    /** pop_expired: exactly the timers due, in key order and in insertion order among equal
        keys; the others stay. */
    method PopExpired(now: int) returns (expired: seq<Timer>)
      requires Keyed()
      modifies this`timers
      ensures Keyed()
      ensures |expired| == LowerBound(old(timers), now) && timers == old(timers)[|expired|..]
      ensures expired == Values(old(timers)[..|expired|])
      ensures forall i :: 0 <= i < |expired| ==> old(timers)[i].key < now
      ensures forall i :: 0 <= i < |timers| ==> timers[i].key >= now
      ensures Distinct(expired) && forall t :: t in expired ==> t in owned && !Has(timers, t)
    {
      var end := LowerBound(timers, now);
      LowerBoundSplits(timers, now);
      Cut(timers, end);
      expired := [];
      for i := 0 to end
        invariant timers == old(timers) && expired == Values(timers[..i])
      {
        assert timers[..i + 1] == timers[..i] + [timers[i]];
        ValuesSnoc(timers[..i], timers[i]);
        expired := expired + [timers[i].value];
      }
      forall t | t in expired ensures t in owned {
        ValuesHas(timers[..end], t);
        var i :| 0 <= i < |timers[..end]| && timers[..end][i].value == t;
        assert timers[i].value in owned;
      }
      timers := timers[end..];
    }

    /** reset_expieration_from_now. */
    method ResetExpirationFromNow(expir: int, now: int)
      modifies this`armed
      ensures armed == Arm(variant, old(armed), now, expir)
    {
      var wait := if variant.Repaired? then Max(expir - now, 0) else expir - now;
      var (sec, nano) := ParseTimeDuration(wait);
      var rounded := if sec == 0 && nano < NANOS_PER_MS then NANOS_PER_MS else nano;
      if Accepted((sec, rounded)) {
        armed := Some(now + sec * NANOS_PER_SEC + rounded);
      }
    }

    /** t, just recorded in the table, is one of the queue's timers from now on. */
    ghost method Note(t: Timer)
      requires t !in owned && t.id >= nextId
      requires t.id in s.table && s.table[t.id].interval == t.interval && s.table[t.id].expiration == t.expiration
      requires forall u :: u in owned ==> u.id in s.table && s.table[u.id].interval == u.interval
      requires forall u :: u in owned ==> s.table[u.id].expiration == u.expiration && u.id in byId && byId[u.id] == u
      requires forall u :: u in owned ==> u.id != t.id
      requires forall id :: id in s.table ==> id < nextId || id == t.id
      modifies this`owned, this`byId, this`nextId
      ensures owned == old(owned) + {t} && nextId == t.id + 1 && Known()
    {
      owned, byId, nextId := owned + {t}, byId[t.id := t], t.id + 1;
    }

    /** The step of adding t to the map. */
    ghost method StepAdd(t: Timer)
      requires Valid() && t !in owned && t.id >= nextId
      modifies this`s, this`owned, this`byId, this`nextId
      ensures Keyed() && Known() && TimerRuns.Reachable(variant, s)
      ensures owned == old(owned) + {t} && nextId == t.id + 1
      ensures s == TimerRuns.Apply(variant, old(s), TimerRuns.Add(t.id, t.expiration, t.interval))
      ensures t.id !in old(s).table && s.timers == Ids(Multimap.Insert(timers, Entry(t.expiration, t)))
      ensures s.armed == if timers == [] || t.expiration < timers[0].key
                         then Arm(variant, armed, s.now, t.expiration) else armed
    {
      IdsInsert(timers, Entry(t.expiration, t));
      Step(TimerRuns.Add(t.id, t.expiration, t.interval));
      Note(t);
    }

    /** add_timer_in_loop, for the timer add_timer has just made. */
    method AddTimerInLoop(t: Timer, now: int)
      requires Valid() && t !in owned && t.id >= nextId && s.now == now
      modifies this
      ensures Valid() && owned == old(owned) + {t} && nextId == t.id + 1
      ensures timers == Multimap.Insert(old(timers), Entry(t.expiration, t)) && t.id !in old(s).table
      ensures s == TimerRuns.Apply(variant, old(s), TimerRuns.Add(t.id, t.expiration, t.interval))
    {
      StepAdd(t);
      var isTheFirst := Insert(t);
      if isTheFirst {
        ResetExpirationFromNow(t.expiration, now);
      }
    }

    /** find_if over the equal keys, by identity. */
    method Find(t: Timer) returns (i: nat)
      requires Keyed()
      ensures i <= |timers| && (i < |timers| ==> timers[i].value == t)
      ensures i == |timers| ==> !Has(timers, t)
    {
      i := 0;
      while i < |timers| && timers[i] != Entry(t.expiration, t)
        invariant i <= |timers|
        invariant forall k :: 0 <= k < i ==> timers[k].value != t
      {
        i := i + 1;
      }
    }

    /** A timer has its number in the map exactly when it is in the map. */
    lemma HasId(t: Timer)
      requires Keyed() && Known() && t in owned
      ensures Has(Ids(timers), t.id) <==> Has(timers, t)
    {
      if Has(timers, t) {
        var i :| 0 <= i < |timers| && timers[i].value == t;
        assert Ids(timers)[i].value == t.id;
      }
      if Has(Ids(timers), t.id) {
        var i :| 0 <= i < |timers| && Ids(timers)[i].value == t.id;
        assert timers[i].value == t;
      }
    }

    /** The step of cancelling t, given where Find stopped. */
    ghost method StepCancel(t: Timer, i: nat)
      requires Valid() && t in owned
      requires i <= |timers| && (i < |timers| ==> timers[i].value == t) && (i == |timers| ==> !Has(timers, t))
      modifies this`s
      ensures Known() && TimerRuns.Reachable(variant, s) && s.armed == armed
      ensures s == TimerRuns.Apply(variant, old(s), TimerRuns.Cancel(t.id))
      ensures s.timers == if i < |timers| then Ids(timers)[..i] + Ids(timers)[i + 1..] else Ids(timers)
    {
      TimerRuns.ReachableInv(variant, s);
      HasId(t);
      ghost var j := TimerRuns.CancelRemoves(s, t.id);
      if i < |timers| {
        assert s.timers[i].value == t.id;
        assert i == j;
      }
      Step(TimerRuns.Cancel(t.id));
    }

    method EraseAt(i: nat)
      requires Keyed() && i < |timers|
      modifies this`timers
      ensures Keyed() && !Has(timers, old(timers)[i].value)
      ensures forall x :: x != old(timers)[i].value ==> (Has(timers, x) <==> Has(old(timers), x))
      ensures Ids(timers) == Ids(old(timers))[..i] + Ids(old(timers))[i + 1..]
    {
      EraseKeeps(timers, i);
      timers := timers[..i] + timers[i + 1..];
    }

    /** cancel_timer_in_loop: that timer goes, and no other. */
    method CancelTimerInLoop(t: Timer)
      requires Valid()
      modifies this`timers, this`s
      ensures Valid() && !Has(timers, t)
      ensures forall x :: x != t ==> (Has(timers, x) <==> Has(old(timers), x))
      ensures s == if t in owned then TimerRuns.Apply(variant, old(s), TimerRuns.Cancel(t.id)) else old(s)
    {
      var i := Find(t);
      if t in owned {
        StepCancel(t, i);
      }
      if i < |timers| {
        EraseAt(i);
      }
    }

    /** reset_timers: every repeater of the batch restarts and returns, once; nothing else moves. */
    method ResetTimers(expired: seq<Timer>, now: int)
      requires Keyed() && Distinct(expired) && Recorded(expired, s.table)
      requires forall t :: t in expired ==> t in owned && !Has(timers, t)
      modifies this`timers, this`owned, expired
      ensures Keyed() && owned == old(owned)
      ensures Ids(timers) == InsertAll(old(Ids(timers)), TimerRuns.Returning(s.table, IdsOf(expired), now))
      ensures forall t :: t in expired ==> (Has(timers, t) <==> t.Repeats())
      ensures forall t :: t in expired ==> t.expiration == if t.Repeats() then now + t.interval else old(t.expiration)
    {
      ghost var start := Ids(timers);
      ghost var exps := seq(|expired|, i requires 0 <= i < |expired| reads expired => expired[i].expiration);
      for k := 0 to |expired|
        invariant Keyed() && owned == old(owned)
        invariant HandledUpTo(expired, k, now, exps)
        invariant Ids(timers) == InsertAll(start, TimerRuns.Returning(s.table, IdsOf(expired[..k]), now))
      {
        ReturningNext(start, expired, k, now, s.table);
        Reset(expired, k, now, exps);
      }
      assert expired[..|expired|] == expired;
    }

    /** The first k timers of the batch are dealt with; the others are still out of the map, with
        the expiries they had. */
    ghost predicate HandledUpTo(expired: seq<Timer>, k: nat, now: int, exps: seq<int>)
      requires k <= |expired| == |exps|
      reads this, expired
    {
      && (forall i :: 0 <= i < k ==> (Has(timers, expired[i]) <==> expired[i].Repeats()))
      && (forall i :: 0 <= i < k ==>
            expired[i].expiration == if expired[i].Repeats() then now + expired[i].interval else exps[i])
      && (forall i :: k <= i < |expired| ==> !Has(timers, expired[i]) && expired[i].expiration == exps[i])
    }

    /** A repeater restarts and returns to the map. */
    method Return(t: Timer, now: int)
      requires Keyed() && t in owned && !Has(timers, t) && t.Repeats()
      modifies this`timers, this`owned, t
      ensures Keyed() && owned == old(owned) && t.expiration == now + t.interval
      ensures forall x :: Has(timers, x) <==> Has(old(timers), x) || x == t
      ensures Ids(timers) == Multimap.Insert(old(Ids(timers)), Entry(now + t.interval, t.id))
    {
      t.Restart(now);
      InsertMembers(timers, Entry(t.expiration, t));
      IdsInsert(timers, Entry(t.expiration, t));
      var _ := Insert(t);
    }

    /** One round of reset_timers. */
    method Reset(expired: seq<Timer>, k: nat, now: int, ghost exps: seq<int>)
      requires k < |expired| == |exps|
      requires Keyed() && Distinct(expired) && HandledUpTo(expired, k, now, exps)
      requires forall t :: t in expired ==> t in owned
      modifies this`timers, this`owned, expired[k]
      ensures Keyed() && owned == old(owned) && HandledUpTo(expired, k + 1, now, exps)
      ensures Ids(timers) ==
              if expired[k].Repeats()
              then Multimap.Insert(old(Ids(timers)), Entry(now + expired[k].interval, expired[k].id))
              else old(Ids(timers))
    {
      assert expired[k] in expired;
      if expired[k].Repeats() {
        Return(expired[k], now);
      }
    }

    /** The timers of the batch are known, and out of the map. */
    ghost predicate InBatch(batch: seq<Timer>)
      reads this
    {
      s.handling && s.batch == IdsOf(batch) && forall t :: t in batch ==> t in owned && !Has(timers, t)
    }

    ghost method StepTick(now: int)
      requires Valid() && s.now <= now
      modifies this`s
      ensures Valid() && s == old(s).(now := now)
    {
      Step(TimerRuns.Tick(now));
    }

    /** add_timer from a callback: a new timer, in the map under the expiry asked for. */
    method AddNew(when: int, interval: int, now: int, ghost batch: seq<Timer>) returns (t: Timer)
      requires Valid() && s.now == now && InBatch(batch)
      modifies this
      ensures Valid() && owned == old(owned) + {t} && nextId == old(nextId) + 1
      ensures fresh(t) && t.id == old(nextId) && t.expiration == when && t.interval == interval
      ensures timers == Multimap.Insert(old(timers), Entry(when, t))
      ensures s == TimerRuns.Apply(variant, old(s), TimerRuns.Add(t.id, when, interval)) && t.id !in old(s).table
      ensures InBatch(batch) && SameBatch(old(s), s)
    {
      t := new Timer(nextId, when, interval);
      ghost var before := timers;
      AddTimerInLoop(t, now);
      InsertMembers(before, Entry(when, t));
    }

    /** A call of a callback, at time now. */
    method MakeCall(call: Call, now: int, ghost batch: seq<Timer>) returns (clock: int)
      requires Valid() && s.now == now && InBatch(batch)
      modifies this
      ensures Valid() && fresh(owned - old(owned)) && old(owned) <= owned
      ensures nextId == old(nextId) + Added([call]) && s.now == clock == now + Elapsed([call])
      ensures InBatch(batch) && SameBatch(old(s), s)
      ensures Took(variant, old(s), s, ActionsOf([call], now, old(nextId), old(owned)))
    {
      OneCall(call, now, nextId, owned);
      clock := now;
      match call
      case AddTimer(after, when, interval) =>
        clock := clock + after;
        clock := AddAfter(when, interval, clock, batch);
      case CancelTimer(t) =>
        if t in owned {
          TookOne(variant, s, TimerRuns.Cancel(t.id));
        }
        CancelTimerInLoop(t);
    }

    method AddAfter(when: int, interval: int, clock: int, ghost batch: seq<Timer>) returns (r: int)
      requires Valid() && s.now <= clock && InBatch(batch)
      modifies this
      ensures Valid() && fresh(owned - old(owned)) && old(owned) <= owned
      ensures nextId == old(nextId) + 1 && s.now == clock == r
      ensures InBatch(batch) && SameBatch(old(s), s)
      ensures Took(variant, old(s), s, [TimerRuns.Tick(clock), TimerRuns.Add(old(nextId), when, interval)])
    {
      r := clock;
      TookOne(variant, s, TimerRuns.Tick(clock));
      StepTick(clock);
      ghost var ticked := s;
      var t := AddNew(when, interval, clock, batch);
      TookOne(variant, ticked, TimerRuns.Add(t.id, when, interval));
      TookMore(variant, old(s), ticked, s, [TimerRuns.Tick(clock)], [TimerRuns.Add(t.id, when, interval)]);
      assert [TimerRuns.Tick(clock)] + [TimerRuns.Add(t.id, when, interval)]
          == [TimerRuns.Tick(clock), TimerRuns.Add(t.id, when, interval)];
    }

    /** Before call i of a callback, after the steps done: what is left makes up the whole run. */
    ghost predicate CallsAt(calls: seq<Call>, i: nat, clock: int, batch: seq<Timer>, base: set<Timer>,
                            done: seq<TimerRuns.Action>, whole: seq<TimerRuns.Action>)
      requires i <= |calls|
      reads this, owned
    {
      && Valid() && InBatch(batch) && base <= owned && s.now == clock
      && done + ActionsOf(calls[i..], clock, nextId, base) == whole
    }

    method CallTurn(calls: seq<Call>, i: nat, now: int, ghost batch: seq<Timer>, ghost base: set<Timer>,
                    ghost done: seq<TimerRuns.Action>, ghost whole: seq<TimerRuns.Action>)
      returns (clock: int, ghost step: seq<TimerRuns.Action>)
      requires i < |calls| && CallsAt(calls, i, now, batch, base, done, whole)
      requires calls[i].CancelTimer? ==> (calls[i].timer in base <==> calls[i].timer in owned)
      modifies this
      ensures CallsAt(calls, i + 1, clock, batch, base, done + step, whole) && SameBatch(old(s), s)
      ensures fresh(owned - old(owned)) && old(owned) <= owned
      ensures clock == now + Elapsed([calls[i]]) && nextId == old(nextId) + Added([calls[i]])
      ensures Took(variant, old(s), s, step)
    {
      step := NextCall(calls, i, now, nextId, base, owned, done, whole);
      clock := MakeCall(calls[i], now, batch);
    }

    /** What a timer's callback does to the queue while the batch runs, from time now on; clock is
        the time when it returns. */
    method RunCallback(calls: seq<Call>, now: int, ghost batch: seq<Timer>) returns (clock: int)
      requires Valid() && s.now == now && InBatch(batch)
      modifies this
      ensures Valid() && fresh(owned - old(owned)) && old(owned) <= owned
      ensures nextId == old(nextId) + Added(calls) && s.now == clock == now + Elapsed(calls)
      ensures InBatch(batch) && SameBatch(old(s), s)
      ensures Took(variant, old(s), s, ActionsOf(calls, now, old(nextId), old(owned)))
    {
      clock := now;
      ghost var done := [];
      ghost var whole := ActionsOf(calls, now, nextId, owned);
      for i := 0 to |calls|
        invariant CallsAt(calls, i, clock, batch, old(owned), done, whole) && SameBatch(old(s), s)
        invariant fresh(owned - old(owned))
        invariant clock + Elapsed(calls[i..]) == now + Elapsed(calls)
        invariant nextId + Added(calls[i..]) == old(nextId) + Added(calls)
        invariant Took(variant, old(s), s, done)
      {
        ghost var before := s;
        ghost var step;
        FirstCall(calls[i..], clock, nextId, old(owned));
        assert calls[i..][1..] == calls[i + 1..];
        clock, step := CallTurn(calls, i, clock, batch, old(owned), done, whole);
        TookMore(variant, old(s), before, s, done, step);
        done := done + step;
      }
      assert done == whole;
    }

    /** The steps of reading the clock and taking from the map m the timers due. */
    ghost method StepExpire(m: seq<Entry<Timer>>, now: int)
      requires TimerRuns.Reachable(variant, s) && s.timers == Ids(m) && !s.handling && s.now <= now
      modifies this`s
      ensures TimerRuns.Reachable(variant, s)
      ensures s.handling && s.now == now && s.taken == now && s.table == old(s).table
      ensures s.timers == Ids(m[LowerBound(m, now)..])
      ensures s.batch == s.todo == IdsOf(Values(m[..LowerBound(m, now)]))
      ensures s.armed == if old(s).armed.Some? && old(s).armed.value <= now then None else old(s).armed
      ensures Took(variant, old(s), s, [TimerRuns.Tick(now), TimerRuns.Expire])
    {
      ExpireIds(m, now);
      TookTwo(variant, s, TimerRuns.Tick(now), TimerRuns.Expire);
      Step(TimerRuns.Tick(now));
      Step(TimerRuns.Expire);
    }

    /** The first half of handle_read: the timerfd is read and the due timers are taken. */
    method TakeBatch(now: int) returns (expired: seq<Timer>)
      requires Valid() && !s.handling && s.now <= now
      modifies this`timers, this`armed, this`s
      ensures Valid() && InBatch(expired) && Distinct(expired)
      ensures s.now == now && s.taken == now && s.todo == IdsOf(expired)
      ensures Took(variant, old(s), s, [TimerRuns.Tick(now), TimerRuns.Expire])
      ensures |expired| == LowerBound(old(timers), now) && expired == Values(old(timers)[..|expired|])
    {
      StepExpire(timers, now);
      if armed.Some? && armed.value <= now {
        armed := None;
      }
      expired := PopExpired(now);
    }

    /** The timers of the batch are those whose numbers are in it. */
    lemma BatchId(t: Timer, batch: seq<Timer>)
      requires Numbered() && InBatch(batch) && t in owned
      ensures t.id in s.batch <==> t in batch
    {
      if t.id in s.batch {
        var i :| 0 <= i < |batch| && s.batch[i] == t.id;
        assert batch[i] in batch && byId[t.id] == batch[i];
      }
      if t in batch {
        var i :| 0 <= i < |batch| && batch[i] == t;
        assert s.batch[i] == t.id;
      }
    }

    lemma BatchIds(batch: seq<Timer>)
      requires Numbered() && InBatch(batch)
      ensures forall t :: t in owned ==> (t.id in s.batch <==> t in batch)
    {
      forall t | t in owned ensures t.id in s.batch <==> t in batch {
        BatchId(t, batch);
      }
    }

    /** What reset_timers makes of a timer's expiry, as the table has it. */
    ghost predicate ResetTo(t: Timer, expired: seq<Timer>)
      reads this, t
    {
      t.id in s.table &&
      t.expiration == if t in expired && t.Repeats() then s.taken + t.interval else s.table[t.id].expiration
    }

    /** The step that ends the batch. */
    ghost method StepFinish(later: int)
      requires TimerRuns.Reachable(variant, s) && s.now <= later && s.handling && s.todo == []
      modifies this`s
      ensures TimerRuns.Reachable(variant, s) && !s.handling && s.now == later
      ensures s.table == TimerRuns.Restarted(old(s).table, old(s).batch, old(s).taken)
      ensures s.timers == InsertAll(old(s).timers, TimerRuns.Returning(old(s).table, old(s).batch, old(s).taken))
      ensures s.armed ==
              if s.timers == [] then old(s).armed else Arm(variant, old(s).armed, later, s.timers[0].key)
      ensures Took(variant, old(s), s, [TimerRuns.Tick(later), TimerRuns.Finish])
    {
      TookTwo(variant, s, TimerRuns.Tick(later), TimerRuns.Finish);
      Step(TimerRuns.Tick(later));
      Step(TimerRuns.Finish);
    }

    /** Once the timers have been reset that step knows them again. */
    ghost method FinishStep(expired: seq<Timer>, later: int)
      requires Numbered() && TimerRuns.Reachable(variant, s) && s.now <= later && s.handling && s.todo == []
      requires forall t :: t in owned ==> (t.id in s.batch <==> t in expired)
      requires forall t :: t in owned ==> ResetTo(t, expired)
      modifies this`s
      ensures Known() && TimerRuns.Reachable(variant, s) && !s.handling && s.now == later
      ensures s.timers == InsertAll(old(s).timers, TimerRuns.Returning(old(s).table, old(s).batch, old(s).taken))
      ensures s.armed ==
              if s.timers == [] then old(s).armed else Arm(variant, old(s).armed, later, s.timers[0].key)
      ensures Took(variant, old(s), s, [TimerRuns.Tick(later), TimerRuns.Finish])
    {
      StepFinish(later);
      forall t | t in owned ensures s.table[t.id].expiration == t.expiration {
        assert old(ResetTo(t, expired));
      }
    }

    /** reset_timers, as seen by every timer object. */
    method ResetBatch(expired: seq<Timer>, now: int)
      requires Valid() && InBatch(expired) && Distinct(expired) && s.taken == now
      modifies this`timers, this`owned, expired
      ensures Keyed() && owned == old(owned)
      ensures Ids(timers) == InsertAll(s.timers, TimerRuns.Returning(s.table, s.batch, s.taken))
      ensures forall t :: t in expired ==> (Has(timers, t) <==> t.Repeats())
      ensures forall t :: t in owned ==> ResetTo(t, expired)
    {
      ResetTimers(expired, now);
    }

    /** The second half: the repeaters of the batch return and the earliest key is armed for. */
    method FinishBatch(expired: seq<Timer>, now: int, later: int)
      requires Valid() && InBatch(expired) && Distinct(expired) && s.todo == []
      requires s.taken == now && s.now <= later
      modifies this, expired
      ensures Valid() && owned == old(owned) && !s.handling && s.now == later
      ensures Took(variant, old(s), s, [TimerRuns.Tick(later), TimerRuns.Finish])
      ensures Ids(timers) == InsertAll(old(Ids(timers)), TimerRuns.Returning(old(s).table, IdsOf(expired), now))
      ensures timers != [] ==> armed == Arm(variant, old(armed), later, timers[0].key)
      ensures forall t :: t in expired ==> (Has(timers, t) <==> t.Repeats())
      ensures forall t :: t in expired && t.Repeats() ==> t.expiration == now + t.interval
    {
      BatchIds(expired);
      ResetBatch(expired, now);
      FinishStep(expired, later);
      if timers != [] {
        ResetExpirationFromNow(timers[0].key, later);
      }
    }

    /** The callback of the next timer of the batch starts. */
    ghost method RunNext(i: nat, batch: seq<Timer>)
      requires Valid() && InBatch(batch) && i < |batch| && s.todo == IdsOf(batch)[i..]
      modifies this`s
      ensures Valid() && InBatch(batch) && s.todo == IdsOf(batch)[i + 1..]
      ensures s == old(s).(table := s.table, todo := s.todo)
      ensures Took(variant, old(s), s, [TimerRuns.RunNext])
    {
      assert batch[i] in batch && s.todo[0] == batch[i].id;
      TookOne(variant, s, TimerRuns.RunNext);
      Step(TimerRuns.RunNext);
    }

    /** A timer of the batch runs. */
    method RunTimer(expired: seq<Timer>, i: nat, calls: seq<Call>, now: int) returns (clock: int)
      requires Valid() && InBatch(expired) && s.now == now
      requires i < |expired| && s.todo == IdsOf(expired)[i..]
      modifies this
      ensures Valid() && InBatch(expired) && fresh(owned - old(owned)) && old(owned) <= owned
      ensures nextId == old(nextId) + Added(calls) && s.now == clock == now + Elapsed(calls)
      ensures s.taken == old(s).taken && s.todo == IdsOf(expired)[i + 1..]
      ensures Took(variant, old(s), s, [TimerRuns.RunNext] + ActionsOf(calls, now, old(nextId), old(owned)))
    {
      RunNext(i, expired);
      ghost var started, run := s, ActionsOf(calls, now, nextId, owned);
      clock := RunCallback(calls, now, expired);
      TookMore(variant, old(s), started, s, [TimerRuns.RunNext], run);
    }

    /** Before timer i of the batch, after the steps done: what is left makes up the whole run. */
    ghost predicate BatchAt(expired: seq<Timer>, i: nat, callbacks: seq<seq<Call>>, clock: int, base: set<Timer>,
                            done: seq<TimerRuns.Action>, whole: seq<TimerRuns.Action>)
      requires i <= |expired| == |callbacks|
      reads this, owned
    {
      && Valid() && InBatch(expired) && base <= owned
      && s.now == clock && s.todo == IdsOf(expired)[i..]
      && done + ActionsOfBatch(callbacks[i..], clock, nextId, base) == whole
    }

    method Turn(expired: seq<Timer>, i: nat, callbacks: seq<seq<Call>>, now: int, ghost base: set<Timer>,
                ghost done: seq<TimerRuns.Action>, ghost whole: seq<TimerRuns.Action>)
      returns (clock: int, ghost step: seq<TimerRuns.Action>)
      requires i < |expired| == |callbacks| && BatchAt(expired, i, callbacks, now, base, done, whole)
      requires forall k :: 0 <= k < |callbacks[i]| && callbacks[i][k].CancelTimer? ==>
                 (callbacks[i][k].timer in base <==> callbacks[i][k].timer in owned)
      modifies this
      ensures BatchAt(expired, i + 1, callbacks, clock, base, done + step, whole)
      ensures fresh(owned - old(owned)) && old(owned) <= owned
      ensures clock == now + Elapsed(callbacks[i]) && s.taken == old(s).taken
      ensures Took(variant, old(s), s, step)
    {
      SameActions(callbacks[i], now, nextId, base, owned);
      assert callbacks[i..][0] == callbacks[i] && callbacks[i..][1..] == callbacks[i + 1..];
      step := [TimerRuns.RunNext] + ActionsOf(callbacks[i], now, nextId, owned);
      clock := RunTimer(expired, i, callbacks[i], now);
    }

    /** The batch runs, in order; clock is the time when it is over. */
    method RunBatch(expired: seq<Timer>, now: int, callbacks: seq<seq<Call>>) returns (clock: int)
      requires Valid() && InBatch(expired) && s.now == now && s.taken == now && s.todo == IdsOf(expired)
      requires |callbacks| == |expired|
      modifies this
      ensures Valid() && InBatch(expired) && fresh(owned - old(owned)) && old(owned) <= owned
      ensures s.now == clock == now + AllElapsed(callbacks) && s.taken == now && s.todo == []
      ensures Took(variant, old(s), s, ActionsOfBatch(callbacks, now, old(nextId), old(owned)))
    {
      clock := now;
      ghost var done := [];
      ghost var whole := ActionsOfBatch(callbacks, now, nextId, owned);
      for i := 0 to |expired|
        invariant BatchAt(expired, i, callbacks, clock, old(owned), done, whole)
        invariant fresh(owned - old(owned)) && s.taken == now
        invariant clock + AllElapsed(callbacks[i..]) == now + AllElapsed(callbacks)
        invariant Took(variant, old(s), s, done)
      {
        ghost var before := s;
        ghost var step;
        assert callbacks[i..][1..] == callbacks[i + 1..];
        clock, step := Turn(expired, i, callbacks, clock, old(owned), done, whole);
        TookMore(variant, old(s), before, s, done, step);
        done := done + step;
      }
      assert done == whole;
    }

    /** handle_read: read the timerfd, take and run the batch, restart its repeaters, arm for the
        earliest key.  script says what the callbacks of the batch do, and after how long the
        arming follows them, at time later. */
    method HandleRead(now: int, script: seq<seq<Call>>, after: nat) returns (expired: seq<Timer>, later: int)
      requires Valid() && !s.handling && s.now <= now
      modifies this, owned
      ensures Valid() && Distinct(expired)
      ensures |expired| <= |old(timers)| && expired == Values(old(timers)[..|expired|])
      ensures forall i :: 0 <= i < |old(timers)| ==> (i < |expired| <==> old(timers)[i].key < now)
      ensures later == now + AllElapsed(Padded(script, |expired|)) + after
      ensures Took(variant, old(s), s,
                [TimerRuns.Tick(now), TimerRuns.Expire]
                + ActionsOfBatch(Padded(script, |expired|), now, old(nextId), old(owned))
                + [TimerRuns.Tick(later), TimerRuns.Finish])
      ensures forall t :: t in expired ==> (Has(timers, t) <==> t.Repeats())
      ensures forall t :: t in expired && t.Repeats() ==> t.expiration == now + t.interval
      ensures timers != [] && (variant.Repaired? || timers[0].key - later > -NANOS_PER_SEC) ==>
                ArmsFor(armed, later, timers[0].key)
    {
      LowerBoundSplits(timers, now);
      expired := TakeBatch(now);
      assert forall t :: t in expired ==> t in old(owned);
      ghost var taken, id := s, nextId;
      var callbacks := Padded(script, |expired|);
      later := RunBatch(expired, now, callbacks);
      later := later + after;
      ghost var ran := s;
      FinishBatch(expired, now, later);
      if timers != [] {
        ArmExactly(later, timers[0].key);
      }
      HandleReadTook(variant, old(s), taken, ran, s, [TimerRuns.Tick(now), TimerRuns.Expire],
                     ActionsOfBatch(callbacks, now, id, old(owned)), [TimerRuns.Tick(later), TimerRuns.Finish]);
    }
  }

  lemma {:induction false} ValuesSnoc<T>(m: seq<Entry<T>>, e: Entry<T>)
    ensures Values(m + [e]) == Values(m) + [e.value]
  {
    if m == [] {
    } else {
      assert (m + [e])[1..] == m[1..] + [e];
      ValuesSnoc(m[1..], e);
    }
  }
}
