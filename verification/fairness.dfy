// Smooth weighted round-robin is exactly fair while the set of eligible upstreams stays fixed.
module Fairness {
  import opened Wrappers
  import opened Upstreams
  import opened PoolInvariants

  // No breaker is about to half-open and no trial request is waiting: selection is plain round-robin.
  predicate Steady(s: Pool, now: int) {
    forall i :: 0 <= i < |s| ==> !(s[i].state == Open && s[i].openUntil <= now) && !TrialReady(s[i])
  }

  // The pool after the first k of a series of next() calls whose clock readings are given.
  function PoolAfter(s: Pool, clock: nat -> int, k: nat): Pool {
    if k == 0 then s else Next(PoolAfter(s, clock, k - 1), clock(k - 1)).0
  }

  // How often upstream i is picked by the first k of those calls.
  function Picks(s: Pool, clock: nat -> int, k: nat, i: nat): nat {
    if k == 0 then 0
    else
      var hit := Next(PoolAfter(s, clock, k - 1), clock(k - 1)).1 == Some(i);
      Picks(s, clock, k - 1, i) + (if hit then 1 else 0)
  }

  function AvailableCount(s: Pool): nat {
    if s == [] then 0 else AvailableCount(s[..|s| - 1]) + if Available(s[|s| - 1]) then 1 else 0
  }

  // The eligible upstreams stay the same, whatever weights they have come to.
  ghost predicate SteadyStart(s: Pool, clock: nat -> int) {
    && (exists i :: 0 <= i < |s| && Available(s[i]))
    && (forall i :: 0 <= i < |s| && Available(s[i]) ==> s[i].weight > 0)
    && (forall k: nat :: Steady(s, clock(k)))
  }

  ghost predicate Start(s: Pool, clock: nat -> int) {
    SteadyStart(s, clock) && forall i :: 0 <= i < |s| && Available(s[i]) ==> s[i].currentWeight == 0
  }

  // Two pools that differ in current weights only.
  predicate SameButWeights(s: Pool, t: Pool) {
    |s| == |t| && forall i :: 0 <= i < |s| ==> s[i] == t[i].(currentWeight := s[i].currentWeight)
  }

  lemma SteadyNextRotates(s: Pool, now: int)
    requires Steady(s, now)
    ensures Next(s, now) == Rotate(s)
  {
    assert ExpireAll(s, now) == s;
  }

  lemma {:induction false} TotalsIgnoreCurrentWeights(s: Pool, t: Pool)
    requires SameButWeights(s, t)
    ensures TotalWeight(s) == TotalWeight(t) && AvailableCount(s) == AvailableCount(t)
  {
    if s != [] {
      assert Available(s[|s| - 1]) == Available(t[|s| - 1]);
      TotalsIgnoreCurrentWeights(s[..|s| - 1], t[..|s| - 1]);
    }
  }

  lemma {:induction false} WeightBelowTotal(s: Pool, i: nat)
    requires i < |s| && Available(s[i])
    ensures s[i].weight <= TotalWeight(s) && AvailableCount(s) > 0
  {
    if i < |s| - 1 { WeightBelowTotal(s[..|s| - 1], i); }
  }

  lemma {:induction false} NonPositiveSum(s: Pool)
    requires forall i :: 0 <= i < |s| && Available(s[i]) ==> s[i].currentWeight <= 0
    ensures WeightSum(s, true) <= 0
  {
    if s != [] { NonPositiveSum(s[..|s| - 1]); }
  }

  // Only an upstream whose advanced weight is positive is ever selected.
  lemma SelectedWasPositive(s: Pool)
    requires WeightSum(s, true) == 0 && TotalWeight(s) > 0
    ensures Rotate(s).1.Some?
    ensures var b := Rotate(s).1.value; b < |s| && Available(s[b]) && s[b].currentWeight + s[b].weight > 0
  {
    var t := AdvanceAll(s);
    SumOfAdvance(s, true);
    if Best(t).None? || t[Best(t).value].currentWeight <= 0 {
      NonPositiveSum(t);
      assert false;
    }
  }

  // What k calls leave: nothing but current weights moved, they sum to zero, none fell a whole turn.
  ghost predicate Balanced(s: Pool, t: Pool) {
    && SameButWeights(t, s)
    && WeightSum(t, true) == 0
    && (forall i :: 0 <= i < |s| && Available(s[i]) ==> t[i].currentWeight + TotalWeight(s) > 0)
    && (forall i :: 0 <= i < |s| && !Available(s[i]) ==> t[i].currentWeight == s[i].currentWeight)
  }

  lemma {:induction false} ZeroWeightsSumToZero(s: Pool)
    requires forall i :: 0 <= i < |s| && Available(s[i]) ==> s[i].currentWeight == 0
    ensures WeightSum(s, true) == 0
  {
    if s != [] { ZeroWeightsSumToZero(s[..|s| - 1]); }
  }

  lemma SteadyCarriesOver(s: Pool, t: Pool, now: int)
    requires SameButWeights(t, s) && Steady(s, now)
    ensures Steady(t, now)
  {
    forall i | 0 <= i < |t| ensures !(t[i].state == Open && t[i].openUntil <= now) && !TrialReady(t[i]) {
      assert t[i] == s[i].(currentWeight := t[i].currentWeight);
    }
  }

  lemma RotateKeepsBalance(s: Pool, t: Pool)
    requires TotalWeight(s) > 0 && Balanced(s, t)
    ensures Balanced(s, Rotate(t).0)
  {
    TotalsIgnoreCurrentWeights(t, s);
    SelectedWasPositive(t);
    RotateKeepsSums(t, true);
    var t' := Rotate(t).0;
    forall i | 0 <= i < |s|
      ensures t'[i] == s[i].(currentWeight := t'[i].currentWeight)
      ensures Available(s[i]) ==> t'[i].currentWeight + TotalWeight(s) > 0
      ensures !Available(s[i]) ==> t'[i].currentWeight == s[i].currentWeight
    {
      assert t[i] == s[i].(currentWeight := t[i].currentWeight);
    }
  }

  lemma StartHasWeight(s: Pool, clock: nat -> int)
    requires SteadyStart(s, clock)
    ensures TotalWeight(s) > 0
  {
    var a :| 0 <= a < |s| && Available(s[a]);
    WeightBelowTotal(s, a);
  }

  lemma RotateKeepsRest(s: Pool, t: Pool)
    requires SameButWeights(t, s)
    ensures SameButWeights(Rotate(t).0, s)
  {
    var t' := Rotate(t).0;
    forall i | 0 <= i < |s| ensures t'[i] == s[i].(currentWeight := t'[i].currentWeight) {
      assert t[i] == s[i].(currentWeight := t[i].currentWeight);
    }
  }

  // Each call is one turn of the round-robin and changes current weights only.
  lemma {:induction false} SteadyRuns(s: Pool, clock: nat -> int, k: nat)
    requires SteadyStart(s, clock)
    ensures SameButWeights(PoolAfter(s, clock, k), s)
    ensures PoolAfter(s, clock, k + 1) == Rotate(PoolAfter(s, clock, k)).0
    ensures Next(PoolAfter(s, clock, k), clock(k)) == Rotate(PoolAfter(s, clock, k))
  {
    hide Rotate, ExpireAll;
    if k > 0 {
      SteadyRuns(s, clock, k - 1);
      RotateKeepsRest(s, PoolAfter(s, clock, k - 1));
    }
    var t := PoolAfter(s, clock, k);
    assert Steady(s, clock(k));
    SteadyCarriesOver(s, t, clock(k));
    SteadyNextRotates(t, clock(k));
  }

  lemma StartIsBalanced(s: Pool, clock: nat -> int)
    requires Start(s, clock)
    ensures Balanced(s, s)
  {
    StartHasWeight(s, clock);
    ZeroWeightsSumToZero(s);
  }

  lemma {:induction false} AlwaysBalanced(s: Pool, clock: nat -> int, k: nat)
    requires Start(s, clock)
    ensures Balanced(s, PoolAfter(s, clock, k))
  {
    hide Rotate, Next, Balanced;
    StartHasWeight(s, clock);
    if k == 0 {
      StartIsBalanced(s, clock);
    } else {
      AlwaysBalanced(s, clock, k - 1);
      SteadyRuns(s, clock, k - 1);
      RotateKeepsBalance(s, PoolAfter(s, clock, k - 1));
    }
  }

  lemma RotateMovesOne(t: Pool, i: nat)
    requires i < |t| && Available(t[i])
    ensures Rotate(t).0[i].currentWeight ==
      t[i].currentWeight + t[i].weight - if Rotate(t).1 == Some(i) then TotalWeight(t) else 0
  {
  }

  // Repeated addition: keeps the proofs below free of products of unknowns.
  function Times(n: nat, x: int): int {
    if n == 0 then 0 else Times(n - 1, x) + x
  }

  lemma {:induction false} TimesIsProduct(n: nat, x: int)
    ensures Times(n, x) == n * x
  {
    if n > 0 {
      TimesIsProduct(n - 1, x);
      assert (n - 1) * x + x == n * x;
    }
  }

  lemma StepRotates(s: Pool, clock: nat -> int, k: nat)
    requires SteadyStart(s, clock)
    ensures PoolAfter(s, clock, k + 1) == Rotate(PoolAfter(s, clock, k)).0
  {
    SteadyRuns(s, clock, k);
  }

  lemma StepMovesOne(s: Pool, clock: nat -> int, k: nat, i: nat)
    requires SteadyStart(s, clock) && i < |s| && Available(s[i])
    ensures |PoolAfter(s, clock, k)| == |PoolAfter(s, clock, k + 1)| == |s|
    ensures PoolAfter(s, clock, k + 1)[i].currentWeight == PoolAfter(s, clock, k)[i].currentWeight + s[i].weight
      - if Picks(s, clock, k + 1, i) == Picks(s, clock, k, i) then 0 else TotalWeight(s)
  {
    hide Rotate, Next;
    var t := PoolAfter(s, clock, k);
    SteadyRuns(s, clock, k);
    SteadyRuns(s, clock, k + 1);
    TotalsIgnoreCurrentWeights(t, s);
    assert t[i] == s[i].(currentWeight := t[i].currentWeight);
    RotateMovesOne(t, i);
  }

  // A current weight is what it was, plus the calls the upstream was owed, less those it got.
  lemma {:induction false} WeightIsDebt(s: Pool, clock: nat -> int, k: nat, i: nat)
    requires SteadyStart(s, clock) && i < |s| && Available(s[i])
    ensures |PoolAfter(s, clock, k)| == |s|
    ensures PoolAfter(s, clock, k)[i].currentWeight ==
      s[i].currentWeight + Times(k, s[i].weight) - Times(Picks(s, clock, k, i), TotalWeight(s))
  {
    hide Next, Rotate;
    if k > 0 {
      WeightIsDebt(s, clock, k - 1, i);
      StepMovesOne(s, clock, k - 1, i);
    }
  }

  lemma {:induction false} OthersBoundOne(s: Pool, i: nat, floor: int)
    requires i < |s| && Available(s[i])
    requires forall j :: 0 <= j < |s| && Available(s[j]) ==> s[j].currentWeight >= -floor
    ensures WeightSum(s, true) >= s[i].currentWeight - (AvailableCount(s) - 1) * floor
  {
    var n := |s| - 1;
    if i < n {
      OthersBoundOne(s[..n], i, floor);
      var c := AvailableCount(s[..n]);
      assert (c + 1 - 1) * floor == (c - 1) * floor + floor;
    } else {
      AllBoundSum(s[..n], floor);
    }
  }

  lemma {:induction false} AllBoundSum(s: Pool, floor: int)
    requires forall j :: 0 <= j < |s| && Available(s[j]) ==> s[j].currentWeight >= -floor
    ensures WeightSum(s, true) >= -(AvailableCount(s) * floor)
  {
    if s != [] {
      AllBoundSum(s[..|s| - 1], floor);
      var c := AvailableCount(s[..|s| - 1]);
      assert (c + 1) * floor == c * floor + floor;
    }
  }

  // The sum over the eligible is zero, so what one is owed the others are ahead.
  lemma DebtBounds(s: Pool, clock: nat -> int, k: nat, i: nat)
    requires Start(s, clock) && i < |s| && Available(s[i])
    ensures |PoolAfter(s, clock, k)| == |s|
    ensures PoolAfter(s, clock, k)[i].currentWeight + TotalWeight(s) > 0
    ensures PoolAfter(s, clock, k)[i].currentWeight <= (AvailableCount(s) - 1) * (TotalWeight(s) - 1)
  {
    hide Next, Rotate, PoolAfter;
    AlwaysBalanced(s, clock, k);
    var t := PoolAfter(s, clock, k);
    var floor := TotalWeight(s) - 1;
    TotalsIgnoreCurrentWeights(t, s);
    assert t[i] == s[i].(currentWeight := t[i].currentWeight);
    forall j | 0 <= j < |t| && Available(t[j]) ensures t[j].currentWeight >= -floor {
      assert t[j] == s[j].(currentWeight := t[j].currentWeight);
    }
    OthersBoundOne(t, i, floor);
  }

  lemma ZeroStart(s: Pool, clock: nat -> int, i: nat)
    requires Start(s, clock) && i < |s| && Available(s[i])
    ensures SteadyStart(s, clock) && s[i].currentWeight == 0
  {
  }

  // At no time is an upstream a whole turn ahead of its share, nor further behind than the others can be ahead.
  lemma ShareBounds(s: Pool, clock: nat -> int, k: nat, i: nat)
    requires Start(s, clock) && i < |s| && Available(s[i])
    ensures var total := TotalWeight(s); var picks := Picks(s, clock, k, i);
      && picks * total < k * s[i].weight + total
      && k * s[i].weight - picks * total <= (AvailableCount(s) - 1) * (total - 1)
  {
    ZeroStart(s, clock, i);
    hide Next, Rotate, Start, SteadyStart, Picks, PoolAfter, TotalWeight, AvailableCount, Times;
    WeightIsDebt(s, clock, k, i);
    DebtBounds(s, clock, k, i);
    TimesIsProduct(k, s[i].weight);
    TimesIsProduct(Picks(s, clock, k, i), TotalWeight(s));
  }

  lemma {:induction false} MultipleIsLarger(total: int, m: nat)
    requires total > 0 && m > 0
    ensures m * total >= total
  {
    if m > 1 {
      MultipleIsLarger(total, m - 1);
      assert m * total == (m - 1) * total + total;
    }
  }

  // A multiple of the total that lies less than one total below zero is not below zero.
  lemma MultipleAboveMinusOne(total: int, weight: int, picks: int)
    requires total > 0 && weight * total - picks * total + total > 0
    ensures weight * total - picks * total >= 0
  {
    assert (weight - picks) * total == weight * total - picks * total;
    if picks > weight {
      assert (picks - weight) * total == picks * total - weight * total;
      MultipleIsLarger(total, picks - weight);
      assert false;
    } else if picks < weight {
      MultipleIsLarger(total, weight - picks);
    }
  }

  lemma {:induction false} NonNegativeZeroSum(s: Pool, i: nat)
    requires forall j :: 0 <= j < |s| && Available(s[j]) ==> s[j].currentWeight >= 0
    requires WeightSum(s, true) <= 0 && i < |s| && Available(s[i])
    ensures s[i].currentWeight == 0
  {
    AllBoundSum(s[..|s| - 1], 0);
    if i < |s| - 1 { NonNegativeZeroSum(s[..|s| - 1], i); }
  }

  lemma NoDebtAfterFullTurn(s: Pool, clock: nat -> int, i: nat)
    requires Start(s, clock) && i < |s| && Available(s[i])
    ensures |PoolAfter(s, clock, TotalWeight(s))| == |s|
    ensures PoolAfter(s, clock, TotalWeight(s))[i].currentWeight >= 0
  {
    hide Next, Rotate, PoolAfter, Picks, Times, TotalWeight;
    var total := TotalWeight(s);
    StartHasWeight(s, clock);
    AlwaysBalanced(s, clock, total);
    WeightIsDebt(s, clock, total, i);
    var picks := Picks(s, clock, total, i);
    TimesIsProduct(total, s[i].weight);
    TimesIsProduct(picks, total);
    assert total * s[i].weight == s[i].weight * total;
    MultipleAboveMinusOne(total, s[i].weight, picks);
  }

  // A full turn of TotalWeight calls returns every upstream to where it started.
  lemma FullTurnRestores(s: Pool, clock: nat -> int)
    requires Start(s, clock)
    ensures PoolAfter(s, clock, TotalWeight(s)) == s
  {
    var t := PoolAfter(s, clock, TotalWeight(s));
    AlwaysBalanced(s, clock, TotalWeight(s));
    forall j | 0 <= j < |t| && Available(t[j]) ensures t[j].currentWeight >= 0 {
      assert t[j] == s[j].(currentWeight := t[j].currentWeight);
      NoDebtAfterFullTurn(s, clock, j);
    }
    forall i | 0 <= i < |s| ensures t[i] == s[i] {
      assert t[i] == s[i].(currentWeight := t[i].currentWeight);
      if Available(s[i]) { NonNegativeZeroSum(t, i); }
    }
  }

  // Round-robin does not look at the clock, so the pool repeats with period TotalWeight.
  lemma {:induction false} PoolIsPeriodic(s: Pool, clock: nat -> int, k: nat)
    requires Start(s, clock)
    ensures PoolAfter(s, clock, k + TotalWeight(s)) == PoolAfter(s, clock, k)
  {
    hide Next, Rotate;
    var total := TotalWeight(s);
    if k == 0 {
      FullTurnRestores(s, clock);
    } else {
      PoolIsPeriodic(s, clock, k - 1);
      StepRotates(s, clock, k - 1);
      StepRotates(s, clock, k - 1 + total);
    }
  }

  // Main result: any TotalWeight consecutive calls pick each eligible upstream exactly weight times.
  lemma ExactlyFair(s: Pool, clock: nat -> int, k: nat, i: nat)
    requires Start(s, clock) && i < |s| && Available(s[i])
    ensures Picks(s, clock, k + TotalWeight(s), i) - Picks(s, clock, k, i) == s[i].weight
  {
    hide Next, Rotate;
    var total := TotalWeight(s);
    PoolIsPeriodic(s, clock, k);
    WeightIsDebt(s, clock, k, i);
    WeightIsDebt(s, clock, k + total, i);
    StartHasWeight(s, clock);
    EqualDebts(k, total, s[i].weight, Picks(s, clock, k, i), Picks(s, clock, k + total, i));
  }

  lemma EqualDebts(k: nat, total: nat, weight: int, p: nat, q: nat)
    requires total > 0 && Times(k, weight) - Times(p, total) == Times(k + total, weight) - Times(q, total)
    ensures q - p == weight
  {
    TimesIsProduct(k, weight);
    TimesIsProduct(k + total, weight);
    TimesIsProduct(p, total);
    TimesIsProduct(q, total);
    assert (k + total) * weight == k * weight + total * weight;
    assert total * (weight - (q - p)) == 0;
  }

  // ---- From any weights ----

  // No eligible upstream has received more than `credit` beyond its share.
  predicate CreditBound(s: Pool, credit: nat) {
    forall i :: 0 <= i < |s| && Available(s[i]) ==> s[i].currentWeight + credit >= 0
  }

  lemma {:induction false} AllBelowSum(s: Pool, ceiling: int)
    requires forall j :: 0 <= j < |s| && Available(s[j]) ==> s[j].currentWeight <= ceiling
    ensures WeightSum(s, true) <= AvailableCount(s) * ceiling
  {
    if s != [] {
      AllBelowSum(s[..|s| - 1], ceiling);
      var c := AvailableCount(s[..|s| - 1]);
      assert (c + 1) * ceiling == c * ceiling + ceiling;
    }
  }

  // The upstream selected has not received more than the bound before it is charged for its turn.
  lemma SelectedIsWithin(t: Pool, credit: nat)
    requires TotalWeight(t) > 0 && WeightSum(t, true) + AvailableCount(t) * credit >= 0
    requires Rotate(t).1.Some?
    ensures var b := Rotate(t).1.value; b < |t| && Available(t[b]) && t[b].currentWeight + t[b].weight + credit >= 0
  {
    hide WeightSum, TotalWeight, AvailableCount;
    var a := AdvanceAll(t);
    var b := Best(a).value;
    SumOfAdvance(t, true);
    CountIgnoresAdvance(t);
    if a[b].currentWeight + credit < 0 {
      AllBelowSum(a, -(credit as int) - 1);
      NotBelowEvenly(WeightSum(t, true), AvailableCount(t), credit, TotalWeight(t));
    }
  }

  lemma NotBelowEvenly(sum: int, n: nat, credit: nat, total: int)
    requires total > 0 && sum + n * credit >= 0
    ensures sum + total > n * (-(credit as int) - 1)
  {
    assert n * (-(credit as int) - 1) + n * credit == -(n as int);
  }

  lemma {:induction false} CountIgnoresAdvance(t: Pool)
    ensures AvailableCount(AdvanceAll(t)) == AvailableCount(t)
  {
    if t != [] {
      assert AdvanceAll(t)[..|t| - 1] == AdvanceAll(t[..|t| - 1]);
      CountIgnoresAdvance(t[..|t| - 1]);
    }
  }

  // What every call keeps: the sum over the eligible, and a floor one turn below the first bound.
  ghost predicate Floored(s: Pool, t: Pool, credit: nat) {
    && SameButWeights(t, s) && WeightSum(t, true) == WeightSum(s, true)
    && forall i :: 0 <= i < |s| && Available(s[i]) ==> t[i].currentWeight + credit + TotalWeight(s) >= 0
  }

  lemma RotateKeepsFloor(s: Pool, t: Pool, credit: nat)
    requires TotalWeight(s) > 0 && CreditBound(s, credit) && Floored(s, t, credit)
    ensures Floored(s, Rotate(t).0, credit)
  {
    TotalsIgnoreCurrentWeights(t, s);
    AllBoundSum(s, credit);
    RotateKeepsSums(t, true);
    RotateKeepsRest(s, t);
    var t' := Rotate(t).0;
    if Rotate(t).1.Some? { SelectedIsWithin(t, credit); }
    forall i | 0 <= i < |s| && Available(s[i]) ensures t'[i].currentWeight + credit + TotalWeight(s) >= 0 {
      assert t[i] == s[i].(currentWeight := t[i].currentWeight);
      RotateMovesOne(t, i);
    }
  }

  lemma {:induction false} AlwaysFloored(s: Pool, clock: nat -> int, k: nat, credit: nat)
    requires SteadyStart(s, clock) && CreditBound(s, credit)
    ensures Floored(s, PoolAfter(s, clock, k), credit)
  {
    hide Rotate, Next, Floored;
    StartHasWeight(s, clock);
    if k == 0 {
      FlooredAtStart(s, credit);
    } else {
      AlwaysFloored(s, clock, k - 1, credit);
      SteadyRuns(s, clock, k - 1);
      RotateKeepsFloor(s, PoolAfter(s, clock, k - 1), credit);
    }
  }

  lemma FlooredAtStart(s: Pool, credit: nat)
    requires CreditBound(s, credit)
    ensures Floored(s, s, credit)
  {
  }

  lemma FloorAndCeiling(s: Pool, clock: nat -> int, k: nat, i: nat, credit: nat)
    requires SteadyStart(s, clock) && i < |s| && Available(s[i]) && CreditBound(s, credit)
    ensures |PoolAfter(s, clock, k)| == |s|
    ensures PoolAfter(s, clock, k)[i].currentWeight + credit + TotalWeight(s) >= 0
    ensures PoolAfter(s, clock, k)[i].currentWeight
      <= WeightSum(s, true) + (AvailableCount(s) - 1) * (credit + TotalWeight(s))
  {
    hide Next, Rotate, PoolAfter;
    AlwaysFloored(s, clock, k, credit);
    var t := PoolAfter(s, clock, k);
    TotalsIgnoreCurrentWeights(t, s);
    assert t[i] == s[i].(currentWeight := t[i].currentWeight);
    var floor: int := credit + TotalWeight(s);
    forall j | 0 <= j < |t| && Available(t[j]) ensures t[j].currentWeight >= -floor {
      assert t[j] == s[j].(currentWeight := t[j].currentWeight);
    }
    OthersBoundOne(t, i, floor);
  }

  // From whatever weights a run of failures, recoveries and drains has left, shares stay within bounds that do not
  // grow with the number of calls.
  lemma LongRunShares(s: Pool, clock: nat -> int, k: nat, i: nat, credit: nat)
    requires SteadyStart(s, clock) && i < |s| && Available(s[i]) && CreditBound(s, credit)
    ensures var total := TotalWeight(s); var ahead := Picks(s, clock, k, i) * total - k * s[i].weight;
      && ahead <= s[i].currentWeight + credit + total
      && -ahead <= WeightSum(s, true) - s[i].currentWeight + (AvailableCount(s) - 1) * (credit + total)
  {
    hide Next, Rotate, SteadyStart, Picks, PoolAfter, TotalWeight, AvailableCount, Times, WeightSum;
    WeightIsDebt(s, clock, k, i);
    FloorAndCeiling(s, clock, k, i, credit);
    TimesIsProduct(k, s[i].weight);
    TimesIsProduct(Picks(s, clock, k, i), TotalWeight(s));
  }
}
