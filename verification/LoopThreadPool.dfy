/** Round robin over the I/O loops: src/net/source/loop_thread_pool.cc. */
module LoopThreadPool {
  import opened Common

  /** Loop 0 is the master; the others are numbered from 1 as start() makes them. */
  type LoopId = nat

  /** The pick made at index i of k loops, and the index that follows. */
  function Following(i: nat, k: nat): nat { if i + 1 >= k then 0 else i + 1 }

  /** The first n picks out of k loops, starting at index i. */
  function Picks(i: nat, k: nat, n: nat): (r: seq<nat>)
    ensures |r| == n
    decreases n
  {
    if n == 0 then [] else [i] + Picks(Following(i, k), k, n - 1)
  }

  function Count(picks: seq<nat>, x: nat): nat {
    if picks == [] then 0 else (if picks[0] == x then 1 else 0) + Count(picks[1..], x)
  }

  /** How many picks it takes from index i until x is the next one. */
  function Distance(i: nat, x: nat, k: nat): nat
    requires i < k && x < k
  {
    if x >= i then x - i else x + k - i
  }

  /** Fairness: among n = q * k + r picks every loop is picked q times, and once more exactly if
      it lies among the r loops that come first. */
  lemma {:induction false} FairRoundRobin(i: nat, k: nat, q: nat, r: nat, x: nat)
    requires i < k && x < k && r < k
    ensures Count(Picks(i, k, q * k + r), x) == q + (if Distance(i, x, k) < r then 1 else 0)
    decreases q * k + r
  {
    var n := q * k + r;
    if n > 0 {
      var j := Following(i, k);
      assert Picks(i, k, n)[1..] == Picks(j, k, n - 1);
      if r > 0 {
        FairRoundRobin(j, k, q, r - 1, x);
      } else {
        assert (q - 1) * k + (k - 1) == n - 1;
        FairRoundRobin(j, k, q - 1, k - 1, x);
      }
    } else {
      assert q == 0 && r == 0;
    }
  }

  class Pool {
    var loops: seq<LoopId>
    var nextThreadIdx: nat

    ghost predicate Valid()
      reads this
    {
      nextThreadIdx < |loops| || (loops == [] && nextThreadIdx == 0)
    }

    /** start(): one loop per thread. */
    constructor (threadNum: nat)
      ensures Valid() && |loops| == threadNum && nextThreadIdx == 0
      ensures forall i :: 0 <= i < threadNum ==> loops[i] == i + 1
    {
      var made: seq<LoopId> := [];
      for i := 0 to threadNum
        invariant |made| == i && forall j :: 0 <= j < i ==> made[j] == j + 1
      {
        made := made + [i + 1];
      }
      loops := made;
      nextThreadIdx := 0;
    }

    method GetNextLoop() returns (loop: LoopId)
      requires Valid()
      modifies this`nextThreadIdx
      ensures Valid()
      ensures loops == [] ==> loop == 0 && nextThreadIdx == old(nextThreadIdx)
      ensures loops != [] ==> loop == loops[old(nextThreadIdx)]
      ensures loops != [] ==> nextThreadIdx == Following(old(nextThreadIdx), |loops|)
    {
      loop := 0;
      if loops != [] {
        loop := loops[nextThreadIdx];
        nextThreadIdx := nextThreadIdx + 1;
        if nextThreadIdx >= |loops| {
          nextThreadIdx := 0;
        }
      }
    }

    /** n calls in a row make the picks the fairness lemma counts. */
    method GetLoops(n: nat) returns (picked: seq<LoopId>)
      requires Valid() && loops != []
      modifies this`nextThreadIdx
      ensures Valid() && |picked| == n
      ensures forall j :: 0 <= j < n ==>
                Picks(old(nextThreadIdx), |loops|, n)[j] < |loops|
                && picked[j] == loops[Picks(old(nextThreadIdx), |loops|, n)[j]]
    {
      picked := [];
      for i := 0 to n
        invariant Valid() && |picked| == i
        invariant PicksSplit(old(nextThreadIdx), nextThreadIdx, i, n)
        invariant forall j :: 0 <= j < i ==>
                    Picks(old(nextThreadIdx), |loops|, n)[j] < |loops|
                    && picked[j] == loops[Picks(old(nextThreadIdx), |loops|, n)[j]]
      {
        assert Picks(nextThreadIdx, |loops|, n - i)[0] == nextThreadIdx;
        assert Picks(nextThreadIdx, |loops|, n - i)[1..]
            == Picks(Following(nextThreadIdx, |loops|), |loops|, n - i - 1);
        var loop := GetNextLoop();
        picked := picked + [loop];
      }
    }

    /** What is left to pick after i of n picks is what the pool will pick from where it is. */
    ghost predicate PicksSplit(start: nat, now: nat, i: nat, n: nat)
      requires i <= n
      reads this`loops
    {
      Picks(start, |loops|, n)[i..] == Picks(now, |loops|, n - i)
    }
  }
}
