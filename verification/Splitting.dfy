/** The split of RFC 6962 section 2.1: the largest power of two below n (internal/merkle/proof.go). */
module Splitting {
  import opened ByteStrings

  function Pow2(j: nat): (p: nat)
    ensures p >= 1
  {
    if j == 0 then 1 else 2 * Pow2(j - 1)
  }

  lemma PowerZero()
    ensures Pow2(0) == 1
  {
  }

  lemma Pow2Step(j: nat)
    requires j > 0
    ensures Pow2(j) == 2 * Pow2(j - 1)
  {
  }

  // ---- halving ----

  lemma HalfBelow(p: nat)
    requires p >= 1
    ensures (2 * p - 1) / 2 == p - 1 && (2 * p - 1) % 2 == 1
  {
  }

  lemma HalfOfSum(a: nat, p: nat)
    ensures (a + 2 * p) / 2 == a / 2 + p && (a + 2 * p) % 2 == a % 2
  {
  }

  ghost predicate IsPow2(k: int) {
    exists j: nat :: k == Pow2(j)
  }

  /** The loop of `splitPoint` on unbounded integers, from a current value of k. */
  function SplitFrom(k: nat, n: int): (r: nat)
    requires k >= 1
    ensures k < n ==> k <= r < n <= 2 * r
    decreases n - k
  {
    if k < n then SplitFrom(2 * k, n) else k / 2
  }

  /** 0 when n <= 1, as the source returns. */
  function Split(n: int): (k: nat)
    ensures n >= 2 ==> 1 <= k < n <= 2 * k
  {
    SplitFrom(1, n)
  }

  lemma {:induction false} SplitFromIsPower(j: nat, n: int)
    requires Pow2(j) < n
    ensures IsPow2(SplitFrom(Pow2(j), n))
    decreases n - Pow2(j)
  {
    assert Pow2(j + 1) == 2 * Pow2(j);
    if Pow2(j + 1) < n {
      SplitFromIsPower(j + 1, n);
    } else {
      assert SplitFrom(Pow2(j), n) == Pow2(j);
    }
  }

  /** The RFC's requirement k < n <= 2k with k a power of two. */
  lemma SplitIsLargestPower(n: int)
    requires n >= 2
    ensures IsPow2(Split(n)) && 1 <= Split(n) < n <= 2 * Split(n)
  {
    assert Pow2(0) == 1;
    SplitFromIsPower(0, n);
  }

  lemma {:induction false} Pow2Monotone(i: nat, j: nat)
    requires i < j
    ensures 2 * Pow2(i) <= Pow2(j)
    decreases j
  {
    if i + 1 < j {
      Pow2Monotone(i, j - 1);
    }
  }

  lemma SplitUnique(k: int, n: int)
    requires IsPow2(k) && k < n <= 2 * k
    ensures k == Split(n)
  {
    SplitIsLargestPower(n);
    var i: nat :| k == Pow2(i);
    var j: nat :| Split(n) == Pow2(j);
    if i < j {
      Pow2Monotone(i, j);
    } else if j < i {
      Pow2Monotone(j, i);
    }
  }

  /** What lets the old and the new tree of a consistency proof share their left subtree. */
  lemma SplitStable(m: int, n: int)
    requires n >= 2 && Split(n) < m <= n
    ensures Split(m) == Split(n)
  {
    SplitIsLargestPower(n);
    SplitUnique(Split(n), m);
  }

  /** Both subtrees fit the next smaller height. */
  lemma SplitHalves(n: int, height: nat)
    requires 2 <= n <= Pow2(height)
    ensures height >= 1 && Split(n) <= Pow2(height - 1) && n - Split(n) <= Pow2(height - 1)
  {
    SplitIsLargestPower(n);
    var i: nat :| Split(n) == Pow2(i);
    if height <= i {
      if height < i { Pow2Monotone(height, i); }
      assert false;
    }
    if i < height - 1 {
      Pow2Monotone(i, height - 1);
    }
  }

  // ---- the machine loop ----

  /** `k <<= 1` on a signed 64-bit k. */
  function ShiftLeft64(k: int): int {
    var d := (2 * k) % TWO64;
    if d >= TWO63 then d - TWO64 else d
  }

  /** The value of k after some iterations of the loop, whatever n is. */
  function ShiftedTimes(steps: nat): int {
    if steps == 0 then 1 else ShiftLeft64(ShiftedTimes(steps - 1))
  }

  lemma {:induction false} ShiftedWithin(steps: nat)
    requires steps <= 62
    ensures ShiftedTimes(steps) == Pow2(steps) <= TWO62
  {
    if steps > 0 {
      ShiftedWithin(steps - 1);
      Pow2Bound(steps);
    }
  }

  lemma FiveMore(j: nat)
    ensures Pow2(j + 5) == 32 * Pow2(j)
  {
    hide Pow2;
    Pow2Step(j + 1);
    Pow2Step(j + 2);
    Pow2Step(j + 3);
    Pow2Step(j + 4);
    Pow2Step(j + 5);
  }

  lemma Pow2At62()
    ensures Pow2(62) == TWO62
  {
    hide Pow2;
    PowerZero();
    FiveMore(0);
    FiveMore(5);
    FiveMore(10);
    FiveMore(15);
    FiveMore(20);
    FiveMore(25);
    FiveMore(30);
    FiveMore(35);
    FiveMore(40);
    FiveMore(45);
    FiveMore(50);
    FiveMore(55);
    Pow2Step(61);
    Pow2Step(62);
  }

  lemma Pow2Bound(j: nat)
    requires j <= 62
    ensures Pow2(j) <= TWO62
  {
    Pow2At62();
    if j < 62 {
      Pow2Monotone(j, 62);
    }
  }

  lemma ShiftOverflows()
    ensures ShiftLeft64(TWO62) == -TWO63 && ShiftLeft64(-TWO63) == 0 && ShiftLeft64(0) == 0
  {
  }

  lemma {:induction false} ShiftedBeyond(steps: nat)
    requires steps > 62
    ensures ShiftedTimes(steps) in {-TWO63, 0}
  {
    hide Pow2, ShiftLeft64;
    ShiftOverflows();
    if steps == 63 {
      ShiftedWithin(62);
      Pow2At62();
    } else {
      ShiftedBeyond(steps - 1);
    }
  }

  /** The loop `for k < n { k <<= 1 }` on a 64-bit k ends. */
  ghost predicate LoopEnds(n: int) {
    exists steps: nat :: ShiftedTimes(steps) >= n
  }

  /** It does exactly for n up to 2^62; above that k becomes negative and then stays 0. */
  lemma LoopEndsIffWithinRange(n: int)
    ensures LoopEnds(n) <==> n <= TWO62
  {
    ShiftedWithin(62);
    Pow2At62();
    forall steps: nat | n > TWO62 ensures ShiftedTimes(steps) < n {
      if steps <= 62 {
        ShiftedWithin(steps);
      } else {
        ShiftedBeyond(steps);
      }
    }
  }

  lemma ShiftDoubles(j: nat)
    requires Pow2(j) < TWO62
    ensures ShiftLeft64(Pow2(j)) == Pow2(j + 1) == 2 * Pow2(j) <= TWO62
  {
    Pow2At62();
    if j >= 62 {
      if j > 62 { Pow2Monotone(62, j); }
      assert false;
    }
    Pow2Bound(j + 1);
  }

  /** `splitPoint` on a 64-bit int. It is called only where its loop ends. */
  method SplitPoint(n: int) returns (result: int)
    requires n <= TWO62
    ensures result == Split(n)
  {
    hide Pow2;
    ghost var j: nat := 0;
    var k := 1;
    assert Pow2(0) == 1 by { PowerZero(); }
    while k < n
      invariant k == Pow2(j) && (k == 1 || k <= TWO62)
      invariant SplitFrom(k, n) == Split(n)
      decreases n - k
    {
      ShiftDoubles(j);
      j := j + 1;
      k := ShiftLeft64(k);
    }
    result := k / 2;
  }
}
