/** Small helpers that several modules share. */
module Numbers {
  function Min(a: nat, b: nat): nat { if a < b then a else b }

  function One(b: bool): nat { if b then 1 else 0 }

  /** None of these calls fails. */
  predicate NoneFails(fails: nat -> bool, from: nat, to: nat)
  {
    forall k :: from <= k < to ==> !fails(k)
  }

  /** The first failing call from lo on, or hi if there is none before it. */
  function FirstFailure(fails: nat -> bool, lo: nat, hi: nat): (k: nat)
    requires lo <= hi
    ensures lo <= k <= hi && (k < hi ==> fails(k)) && forall i: nat :: lo <= i < k ==> !fails(i)
    decreases hi - lo
  {
    if lo == hi || fails(lo) then lo else FirstFailure(fails, lo + 1, hi)
  }

  lemma FirstFailureIs(fails: nat -> bool, lo: nat, hi: nat, k: nat)
    requires lo <= k <= hi && NoneFails(fails, lo, k) && (k < hi ==> fails(k))
    ensures FirstFailure(fails, lo, hi) == k
  {
  }
}
