/** std::multimap keyed by time, as the sequence an in-order walk yields.  Insertion goes to the
    end of the equal keys (section 22.2.6 of ISO C++20). */
module Multimap {
  import opened Common

  datatype Entry<+T> = Entry(key: int, value: T)

  predicate Sorted<T>(m: seq<Entry<T>>) {
    forall i, j :: 0 <= i < j < |m| ==> m[i].key <= m[j].key
  }

  /** Some entry holds v. */
  predicate Has<T(==)>(m: seq<Entry<T>>, v: T) {
    exists i :: 0 <= i < |m| && m[i].value == v
  }

  /** No two entries hold the same value. */
  predicate Unique<T(==)>(m: seq<Entry<T>>) {
    forall i, j :: 0 <= i < j < |m| ==> m[i].value != m[j].value
  }

  function Values<T>(m: seq<Entry<T>>): (r: seq<T>)
    ensures |r| == |m|
  {
    if m == [] then [] else [m[0].value] + Values(m[1..])
  }

  function Insert<T>(m: seq<Entry<T>>, e: Entry<T>): seq<Entry<T>> {
    if m == [] then [e]
    else if e.key < m[0].key then [e] + m
    else [m[0]] + Insert(m[1..], e)
  }

  /** lower_bound: how many entries come before the first key that is not below now. */
  function LowerBound<T>(m: seq<Entry<T>>, now: int): (n: nat)
    ensures n <= |m|
  {
    if m == [] || m[0].key >= now then 0 else 1 + LowerBound(m[1..], now)
  }

  /** find_if over equal_range(key), then erase: the first entry with this key and value. */
  function Erase<T(==)>(m: seq<Entry<T>>, key: int, value: T): seq<Entry<T>> {
    if m == [] then []
    else if m[0] == Entry(key, value) then m[1..]
    else [m[0]] + Erase(m[1..], key, value)
  }

  function InsertAll<T>(m: seq<Entry<T>>, es: seq<Entry<T>>): seq<Entry<T>> {
    if es == [] then m else Insert(InsertAll(m, es[..|es| - 1]), es[|es| - 1])
  }

  /** Insert puts e after every key not above its own, and moves nothing else. */
  lemma {:induction false} InsertAt<T>(m: seq<Entry<T>>, e: Entry<T>) returns (i: nat)
    requires Sorted(m)
    ensures i <= |m| && Insert(m, e) == m[..i] + [e] + m[i..]
    ensures forall k :: 0 <= k < i ==> m[k].key <= e.key
    ensures forall k :: i <= k < |m| ==> e.key < m[k].key
    ensures Sorted(Insert(m, e))
  {
    if m == [] || e.key < m[0].key {
      i := 0;
    } else {
      var j := InsertAt(m[1..], e);
      i := j + 1;
      assert Insert(m, e) == [m[0]] + (m[1..][..j] + [e] + m[1..][j..]);
      assert m[..i] == [m[0]] + m[1..][..j];
      assert m[i..] == m[1..][j..];
      assert forall k :: 1 <= k < |m| ==> m[k] == m[1..][k - 1];
    }
  }

  /** What is in the map after an insertion. */
  lemma InsertMembers<T>(m: seq<Entry<T>>, e: Entry<T>)
    requires Sorted(m)
    ensures Sorted(Insert(m, e))
    ensures forall x :: x in Insert(m, e) <==> x in m || x == e
    ensures forall v :: Has(Insert(m, e), v) <==> Has(m, v) || v == e.value
    ensures Unique(m) && !Has(m, e.value) ==> Unique(Insert(m, e))
  {
    var i := InsertAt(m, e);
    Spliced(m, i, e);
  }

  lemma Spliced<T>(m: seq<Entry<T>>, i: nat, e: Entry<T>)
    requires i <= |m|
    ensures var r := m[..i] + [e] + m[i..];
            && (forall x :: x in r <==> x in m || x == e)
            && (forall v :: Has(r, v) <==> Has(m, v) || v == e.value)
            && (Unique(m) && !Has(m, e.value) ==> Unique(r))
  {
    assert m == m[..i] + m[i..];
    var r := m[..i] + [e] + m[i..];
    forall v ensures Has(r, v) <==> Has(m, v) || v == e.value {
      SplicedHas(m, i, e, v);
    }
    if Unique(m) && !Has(m, e.value) {
      SplicedUnique(m, i, e);
    }
  }

  lemma SplicedHas<T>(m: seq<Entry<T>>, i: nat, e: Entry<T>, v: T)
    requires i <= |m|
    ensures Has(m[..i] + [e] + m[i..], v) <==> Has(m, v) || v == e.value
  {
    var r := m[..i] + [e] + m[i..];
    if Has(m, v) {
      var k :| 0 <= k < |m| && m[k].value == v;
      assert r[if k < i then k else k + 1] == m[k];
    }
    if v == e.value { assert r[i].value == v; }
    if Has(r, v) {
      var k :| 0 <= k < |r| && r[k].value == v;
      if k != i { assert m[if k < i then k else k - 1].value == v; }
    }
  }

  lemma SplicedUnique<T>(m: seq<Entry<T>>, i: nat, e: Entry<T>)
    requires i <= |m| && Unique(m) && !Has(m, e.value)
    ensures Unique(m[..i] + [e] + m[i..])
  {
  }

  /** The keys below now are exactly a prefix. */
  lemma {:induction false} LowerBoundSplits<T>(m: seq<Entry<T>>, now: int)
    requires Sorted(m)
    ensures forall k :: 0 <= k < LowerBound(m, now) ==> m[k].key < now
    ensures forall k :: LowerBound(m, now) <= k < |m| ==> m[k].key >= now
  {
    if m != [] && m[0].key < now {
      LowerBoundSplits(m[1..], now);
      assert forall k :: 1 <= k < |m| ==> m[k] == m[1..][k - 1];
    }
  }

  /** Erasing a value that occurs once removes its entry and no other, equal keys included. */
  lemma {:induction false} EraseExactly<T>(m: seq<Entry<T>>, i: nat)
    requires i < |m| && Unique(m)
    ensures Erase(m, m[i].key, m[i].value) == m[..i] + m[i + 1..]
  {
    if i > 0 {
      assert m[0].value != m[i].value;
      EraseExactly(m[1..], i - 1);
      assert m[..i] == [m[0]] + m[1..][..i - 1];
    }
  }

  lemma {:induction false} EraseAbsent<T>(m: seq<Entry<T>>, key: int, value: T)
    requires !Has(m, value)
    ensures Erase(m, key, value) == m
  {
    if m == [] {
    } else {
      assert m[0].value != value;
      EraseAbsent(m[1..], key, value);
    }
  }

  lemma EraseKeeps<T>(m: seq<Entry<T>>, i: nat)
    requires i < |m| && Sorted(m) && Unique(m)
    ensures var r := m[..i] + m[i + 1..];
            && Sorted(r) && Unique(r)
            && (forall v :: Has(r, v) <==> Has(m, v) && v != m[i].value)
            && (forall x :: x in r ==> x in m)
  {
    var r := m[..i] + m[i + 1..];
    forall v ensures Has(r, v) <==> Has(m, v) && v != m[i].value {
      if Has(m, v) && v != m[i].value {
        var k :| 0 <= k < |m| && m[k].value == v;
        assert r[if k < i then k else k - 1] == m[k];
      }
      if Has(r, v) {
        var k :| 0 <= k < |r| && r[k].value == v;
        assert m[if k < i then k else k + 1].value == v;
      }
    }
  }

  lemma {:induction false} ValuesAt<T>(m: seq<Entry<T>>, i: nat)
    requires i < |m|
    ensures Values(m)[i] == m[i].value
  {
    if i > 0 { ValuesAt(m[1..], i - 1); }
  }

  lemma {:induction false} ValuesHas<T>(m: seq<Entry<T>>, v: T)
    ensures v in Values(m) <==> Has(m, v)
  {
    if v in Values(m) {
      var i :| 0 <= i < |m| && Values(m)[i] == v;
      ValuesAt(m, i);
    }
    if Has(m, v) {
      var i :| 0 <= i < |m| && m[i].value == v;
      ValuesAt(m, i);
    }
  }

  lemma {:induction false} ValuesDistinct<T>(m: seq<Entry<T>>)
    requires Unique(m)
    ensures Distinct(Values(m))
  {
    forall i, j | 0 <= i < j < |m| ensures Values(m)[i] != Values(m)[j] {
      ValuesAt(m, i);
      ValuesAt(m, j);
    }
  }

  lemma CutHas<T>(m: seq<Entry<T>>, n: nat, v: T)
    requires n <= |m| && Unique(m)
    ensures Has(m, v) <==> Has(m[n..], v) || v in Values(m[..n])
    ensures v in Values(m[..n]) ==> !Has(m[n..], v) && Has(m[..n], v)
  {
    ValuesHas(m[..n], v);
    if Has(m, v) {
      var i :| 0 <= i < |m| && m[i].value == v;
      if i < n { assert m[..n][i].value == v; } else { assert m[n..][i - n].value == v; }
    }
    if Has(m[..n], v) {
      var i :| 0 <= i < |m[..n]| && m[..n][i].value == v;
      assert m[i].value == v;
    }
    if Has(m[n..], v) {
      var i :| 0 <= i < |m[n..]| && m[n..][i].value == v;
      assert m[n + i].value == v;
    }
  }

  /** Cutting a map of unique values at n. */
  lemma Cut<T>(m: seq<Entry<T>>, n: nat)
    requires n <= |m| && Sorted(m) && Unique(m)
    ensures Sorted(m[n..]) && Unique(m[n..]) && Distinct(Values(m[..n]))
    ensures forall v :: Has(m, v) <==> Has(m[n..], v) || v in Values(m[..n])
    ensures forall v :: v in Values(m[..n]) ==> !Has(m[n..], v) && Has(m[..n], v)
  {
    ValuesDistinct(m[..n]);
    forall v ensures Has(m, v) <==> Has(m[n..], v) || v in Values(m[..n]) {
      CutHas(m, n, v);
    }
    forall v | v in Values(m[..n]) ensures !Has(m[n..], v) && Has(m[..n], v) {
      CutHas(m, n, v);
    }
  }

  lemma {:induction false} InsertAllMembers<T>(m: seq<Entry<T>>, es: seq<Entry<T>>)
    requires Sorted(m)
    ensures Sorted(InsertAll(m, es))
    ensures forall x :: x in InsertAll(m, es) <==> x in m || x in es
    ensures forall v :: Has(InsertAll(m, es), v) <==> Has(m, v) || Has(es, v)
    ensures Unique(m) && Unique(es) && (forall v :: Has(es, v) ==> !Has(m, v)) ==> Unique(InsertAll(m, es))
  {
    if es == [] {
    } else {
      var init := es[..|es| - 1];
      var e := es[|es| - 1];
      InsertAllMembers(m, init);
      Spliced(init, |init|, e);
      assert es == init[..|init|] + [e] + init[|init|..];
      InsertMembers(InsertAll(m, init), e);
      if Unique(es) {
        assert Unique(init);
      }
    }
  }
}
