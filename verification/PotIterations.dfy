/** Signage-point and infusion-point iterations (pot_iterations.py). */
module PotIterations {
  import opened Types

  predicate IsOverflow(k: Constants, spIndex: nat) {
    spIndex >= k.numSpsSubSlot - k.numSpIntervalsExtra
  }

  function SpInterval(k: Constants, subSlotIters: nat): nat
    requires k.numSpsSubSlot > 0
  {
    subSlotIters / k.numSpsSubSlot
  }

  /** Exactly the conditions under which none of the three calculations raises. */
  predicate ItersDefined(k: Constants, subSlotIters: nat, spIndex: nat, requiredIters: nat) {
    && k.numSpsSubSlot > 0
    && subSlotIters % k.numSpsSubSlot == 0
    && spIndex < k.numSpsSubSlot
    && 0 < requiredIters < SpInterval(k, subSlotIters)
  }

  function SpIters(k: Constants, subSlotIters: nat, spIndex: nat): nat
    requires k.numSpsSubSlot > 0
  {
    SpInterval(k, subSlotIters) * spIndex
  }

  /** The infusion point lies strictly inside its sub-slot. */
  function IpIters(k: Constants, subSlotIters: nat, spIndex: nat, requiredIters: nat): (r: nat)
    requires ItersDefined(k, subSlotIters, spIndex, requiredIters)
    ensures r < subSlotIters
  {
    (SpIters(k, subSlotIters, spIndex) + k.numSpIntervalsExtra * SpInterval(k, subSlotIters) + requiredIters)
    % subSlotIters
  }

  // ---- the two overflow tests -----------------------------------------------------------

  /**
   The signage points at which the validator's index test and the creator's comparison of
   iterations say the same: all of them when the extra intervals fit into a sub-slot, and
   otherwise those that the extra intervals, reduced, move past the end of one.
   */
  predicate OverflowTestsFit(k: Constants, spIndex: nat)
    requires k.numSpsSubSlot > 0
  {
    k.numSpIntervalsExtra < k.numSpsSubSlot || spIndex + k.numSpIntervalsExtra % k.numSpsSubSlot >= k.numSpsSubSlot
  }

  lemma ModUnique(a: nat, t: nat, d: nat, r: nat)
    requires a == t * d + r && r < d
    ensures a % d == r
  {
    var q := a / d;
    Distribute(q, t, d);
    SmallMultiple(q - t, d, r - a % d);
  }

  lemma Distribute(q: int, t: int, d: int)
    ensures (q - t) * d == q * d - t * d
  {
  }

  lemma SmallMultiple(u: int, d: int, e: int)
    requires u * d == e && 0 - d < e < d
    ensures u == 0
  {
    if u > 0 {
      AtLeastOnce(u, d);
    } else if u < 0 {
      AtLeastOnce(-u, d);
      Distribute(0, u, d);
    }
  }

  lemma AtLeastOnce(u: int, d: int)
    requires u >= 1 && d >= 0
    ensures u * d >= d
  {
  }

  /** Adding a number to an index and reducing. */
  lemma FoldExtra(i: nat, x: nat, n: nat)
    requires i < n
    ensures var m := i + x % n; (i + x) % n == if m < n then m else m - n
  {
    var m, t := i + x % n, x / n;
    assert x == t * n + x % n;
    if m < n {
      ModUnique(i + x, t, n, m);
    } else {
      assert (t + 1) * n == t * n + n;
      ModUnique(i + x, t + 1, n, m - n);
    }
  }

  /** A position of whole intervals and a rest, reduced by whole sub-slots. */
  lemma IntervalMod(w: nat, n: nat, s: nat, q: nat)
    requires 0 < n && q < w
    ensures n * w > 0 && (s * w + q) % (n * w) == s % n * w + q
  {
    var t, m := s / n, s % n;
    Bounded(m, n, w);
    Regroup(t, n, m, w);
    ModUnique(s * w + q, t, n * w, m * w + q);
  }

  lemma Bounded(m: nat, n: nat, w: nat)
    requires m < n
    ensures m * w + w <= n * w
  {
    assert m * w + w == (m + 1) * w;
  }

  lemma Regroup(t: nat, n: nat, m: nat, w: nat)
    ensures (t * n + m) * w == t * (n * w) + m * w
  {
  }

  /** Comparing whole intervals with whole intervals and a rest. */
  lemma Compare(w: nat, i: nat, m: nat, q: nat)
    requires q < w
    ensures w * i > m * w + q <==> i > m
  {
    if i > m {
      assert w * i >= w * (m + 1) == m * w + w;
    } else {
      assert w * i <= w * m;
    }
  }

  lemma SumInIntervals(w: nat, n: nat, i: nat, x: nat, q: nat, slot: nat)
    requires 0 < n && q < w && slot == n * w
    ensures slot > 0 && (w * i + x * w + q) % slot == (i + x) % n * w + q
  {
    IntervalMod(w, n, i + x, q);
    assert (i + x) * w == w * i + x * w;
  }

  lemma WholeIntervals(slot: nat, n: nat)
    requires n > 0 && slot % n == 0
    ensures slot == n * (slot / n)
  {
  }

  /** The two calculations in terms of the interval between signage points. */
  lemma ItersInIntervals(k: Constants, subSlotIters: nat, spIndex: nat, requiredIters: nat)
    requires ItersDefined(k, subSlotIters, spIndex, requiredIters)
    ensures var w, n := SpInterval(k, subSlotIters), k.numSpsSubSlot;
            && SpIters(k, subSlotIters, spIndex) == w * spIndex
            && IpIters(k, subSlotIters, spIndex, requiredIters)
               == (spIndex + k.numSpIntervalsExtra) % n * w + requiredIters
  {
    var w, n := SpInterval(k, subSlotIters), k.numSpsSubSlot;
    WholeIntervals(subSlotIters, n);
    SumInIntervals(w, n, spIndex, k.numSpIntervalsExtra, requiredIters, subSlotIters);
  }

  /** The validator's index test and the creator's "sp_iters > ip_iters" say the same exactly at those points. */
  lemma OverflowTestsAgree(k: Constants, subSlotIters: nat, spIndex: nat, requiredIters: nat)
    requires ItersDefined(k, subSlotIters, spIndex, requiredIters)
    ensures (IsOverflow(k, spIndex) <==>
             SpIters(k, subSlotIters, spIndex) > IpIters(k, subSlotIters, spIndex, requiredIters))
            <==> OverflowTestsFit(k, spIndex)
  {
    hide SpInterval, SpIters, IpIters;
    var w, n, x := SpInterval(k, subSlotIters), k.numSpsSubSlot, k.numSpIntervalsExtra;
    ItersInIntervals(k, subSlotIters, spIndex, requiredIters);
    FoldExtra(spIndex, x, n);
    Compare(w, spIndex, (spIndex + x) % n, requiredIters);
    ReducedExtra(x, n);
  }

  lemma ReducedExtra(x: nat, n: nat)
    requires n > 0
    ensures x < n ==> x % n == x
    ensures x % n < n
  {
  }

  /**
   ... so at every signage point that the validator gets past (it raises on an overflow at
   signage point 0) exactly when the extra intervals fit into a sub-slot, or miss a whole
   number of sub-slots by one.
   */
  lemma OverflowTestsAgreeExactlyWhen(k: Constants, subSlotIters: nat, requiredIters: nat)
    requires ItersDefined(k, subSlotIters, 0, requiredIters)
    ensures k.numSpIntervalsExtra < k.numSpsSubSlot ||
            k.numSpIntervalsExtra % k.numSpsSubSlot == k.numSpsSubSlot - 1 <==>
            forall i: nat :: 1 <= i < k.numSpsSubSlot ==>
              (IsOverflow(k, i) <==> SpIters(k, subSlotIters, i) > IpIters(k, subSlotIters, i, requiredIters))
  {
    hide SpIters, IpIters;
    forall i: nat | i < k.numSpsSubSlot
      ensures (IsOverflow(k, i) <==> SpIters(k, subSlotIters, i) > IpIters(k, subSlotIters, i, requiredIters))
              <==> OverflowTestsFit(k, i)
    {
      OverflowTestsAgree(k, subSlotIters, i, requiredIters);
    }
    ReducedExtra(k.numSpIntervalsExtra, k.numSpsSubSlot);
    if k.numSpsSubSlot > 1 {
      var one: nat := 1;
      OverflowTestsAgree(k, subSlotIters, one, requiredIters);
    }
  }
}
