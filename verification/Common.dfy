/** Types shared by every component of the model. */
module Common {

  type byte = bv8

  datatype Option<+T> = None | Some(value: T)

  /** What a call does in the code as it is written: it returns, it stops at a source
      assertion, it touches memory outside the object, or it throws. */
  datatype Outcome<+T> =
    | Done(value: T)
    | AssertFailed
    | OutOfBounds
    | Throws

  function Min(a: int, b: int): int { if a <= b then a else b }

  function Max(a: int, b: int): int { if a >= b then a else b }

  /** Every element occurs once. */
  predicate Distinct<T(==)>(s: seq<T>) {
    forall i, j :: 0 <= i < j < |s| ==> s[i] != s[j]
  }

  lemma DistinctTail<T>(s: seq<T>)
    requires Distinct(s) && s != []
    ensures Distinct(s[1..]) && s[0] !in s[1..]
  {
  }

}

module ConnStates {
  /** tcp_connection's state_e. */
  datatype ConnState = Connecting | Connected | Disconnecting | Disconnected
}
