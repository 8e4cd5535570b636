/**
 * The rules behind bracket generation: the power-of-two test on the number
 * of candidates, and the shape of the matches each generator creates.
 */
module Bracket {
  import opened Models

  /** The `&` operator on non-negative integers, bit by bit from the least significant end. */
  function BitAnd(a: nat, b: nat): nat {
    if a == 0 || b == 0 then 0
    else 2 * BitAnd(a / 2, b / 2) + (if a % 2 == 1 && b % 2 == 1 then 1 else 0)
  }

  /** IsPowerOfTwo: n > 0 && (n & (n - 1)) == 0, for a candidate count n. */
  predicate IsPowerOfTwo(n: nat) {
    n > 0 && BitAnd(n, n - 1) == 0
  }

  function Pow2(k: nat): (p: nat)
    ensures p >= 1
  {
    if k == 0 then 1 else 2 * Pow2(k - 1)
  }

  lemma {:induction false} BitAndSelf(a: nat)
    ensures BitAnd(a, a) == a
  {
    if a != 0 {
      BitAndSelf(a / 2);
    }
  }

  /** Above one, the bit test holds of n exactly when n is even and it holds of n / 2. */
  lemma PowerOfTwoHalves(n: nat)
    requires n > 1
    ensures IsPowerOfTwo(n) <==> n % 2 == 0 && IsPowerOfTwo(n / 2)
  {
    var m := n / 2;
    if n % 2 == 1 {
      BitAndSelf(m);
      assert BitAnd(n, n - 1) == 2 * BitAnd(m, m);
    } else {
      assert (n - 1) / 2 == m - 1;
      assert BitAnd(n, n - 1) == 2 * BitAnd(m, m - 1);
    }
  }

  /** The bit test accepts exactly the powers of two. */
  lemma {:induction false} IsPowerOfTwoCorrect(n: nat)
    ensures IsPowerOfTwo(n) <==> exists k :: Pow2(k) == n
  {
    if n == 1 {
      assert Pow2(0) == 1;
    } else if n > 1 {
      PowerOfTwoHalves(n);
      IsPowerOfTwoCorrect(n / 2);
      if IsPowerOfTwo(n) {
        var k: nat :| Pow2(k) == n / 2;
        assert Pow2(k + 1) == n;
      }
      if exists k :: Pow2(k) == n {
        var k: nat :| Pow2(k) == n;
        assert k > 0;
        assert Pow2(k - 1) == n / 2;
      }
    }
  }

  /**
   * The guard the knockout generator evidently intends: a power of two with
   * at least one pair.  The guard as written, IsPowerOfTwo alone, also admits
   * a single candidate (see SingleCandidatePassesGuard).
   */
  predicate IsKnockoutSize(n: nat) {
    n >= 2 && IsPowerOfTwo(n)
  }

  /** As written, one candidate passes the guard while the loop then reads candidates[1]. */
  lemma SingleCandidatePassesGuard()
    ensures forall cands: seq<Id> :: |cands| == 1 ==> IsPowerOfTwo(|cands|) && !(0 + 1 < |cands|)
  {
  }

  /** Under the corrected guard the pairing loop reads only existing candidates. */
  lemma KnockoutSizePairsUp(n: nat)
    requires IsKnockoutSize(n)
    ensures n % 2 == 0
    ensures forall i :: 0 <= i < n && i % 2 == 0 ==> i + 1 < n
  {
    PowerOfTwoHalves(n);
  }

  /** `new List<int>(new int[n])`: n zeros. */
  function Zeros(n: nat): (z: seq<int>)
    ensures |z| == n && forall i :: 0 <= i < n ==> z[i] == 0
  {
    seq(n, _ => 0)
  }

  /** The one match of a legacy election. */
  function LegacyMatch(id: Id, electionId: Id, candidates: seq<Id>): Match {
    Match(id, electionId, candidates, Zeros(|candidates|), false, 1, 1, true, None)
  }

  /** Round-one knockout match number k + 1, between candidates 2k and 2k + 1. */
  function FirstRoundMatch(id: Id, electionId: Id, first: Id, second: Id, k: nat): Match {
    Match(id, electionId, [first, second], [0, 0], false, k + 1, 1, k == 0, None)
  }
}
