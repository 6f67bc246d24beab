// What every interleaving of pool operations keeps, and whom a selection may hand out.
module PoolInvariants {
  import opened Wrappers
  import opened Upstreams

  function WeightSum(s: Pool, onlyAvailable: bool): int {
    if s == [] then 0
    else
      var u := s[|s| - 1];
      WeightSum(s[..|s| - 1], onlyAvailable) + if onlyAvailable && !Available(u) then 0 else u.currentWeight
  }

  predicate UpstreamOk(u: Upstream, policy: Policy) {
    && (u.state == Healthy <==> u.consecutiveFailures < policy.failureThreshold)
    && (u.halfOpenInFlight ==> u.state == HalfOpen)
    && (!u.activeHealthy <==> u.activeState == ProbedUnhealthy)
  }

  predicate PoolOk(s: Pool, policy: Policy) {
    && WeightSum(s, false) == 0
    && forall i :: 0 <= i < |s| ==> UpstreamOk(s[i], policy)
  }

  datatype Op =
    | Select(now: int)
    | MarkFailure(index: nat, now: int)
    | MarkSuccess(index: nat)
    | SetDraining(index: nat, draining: bool)
    | RecordProbe(index: nat, healthy: bool)

  function Update(s: Pool, policy: Policy, op: Op): Pool {
    match op
    case Select(now) => Next(s, now).0
    case MarkFailure(i, now) => if i < |s| then s[i := Failed(s[i], policy, now)] else s
    case MarkSuccess(i) => if i < |s| then s[i := Succeeded(s[i])] else s
    case SetDraining(i, d) => if i < |s| then s[i := s[i].(draining := d)] else s
    case RecordProbe(i, h) => if i < |s| then s[i := Probed(s[i], h)] else s
  }

  function Run(s: Pool, policy: Policy, ops: seq<Op>): Pool
    decreases |ops|
  {
    if ops == [] then s else Run(Update(s, policy, ops[0]), policy, ops[1..])
  }

  lemma {:induction false} SumOfPointwise(s: Pool, t: Pool, only: bool)
    requires |s| == |t|
    requires forall i :: 0 <= i < |s| ==> Available(s[i]) == Available(t[i]) && s[i].currentWeight == t[i].currentWeight
    ensures WeightSum(s, only) == WeightSum(t, only)
  {
    if s != [] { SumOfPointwise(s[..|s| - 1], t[..|s| - 1], only); }
  }

  lemma {:induction false} SumOfUpdate(s: Pool, i: nat, u: Upstream, only: bool)
    requires i < |s|
    requires only ==> Available(u) && Available(s[i])
    ensures WeightSum(s[i := u], only) == WeightSum(s, only) - s[i].currentWeight + u.currentWeight
  {
    var n := |s| - 1;
    if i == n {
      assert s[i := u][..n] == s[..n];
    } else {
      assert s[i := u][..n] == s[..n][i := u];
      SumOfUpdate(s[..n], i, u, only);
    }
  }

  lemma {:induction false} SumOfAdvance(s: Pool, only: bool)
    ensures WeightSum(AdvanceAll(s), only) == WeightSum(s, only) + TotalWeight(s)
  {
    if s != [] {
      assert AdvanceAll(s)[..|s| - 1] == AdvanceAll(s[..|s| - 1]);
      SumOfAdvance(s[..|s| - 1], only);
    }
  }

  lemma {:induction false} NoneAvailableWeighsNothing(s: Pool)
    requires forall i :: 0 <= i < |s| ==> !Available(s[i])
    ensures TotalWeight(s) == 0
  {
    if s != [] { NoneAvailableWeighsNothing(s[..|s| - 1]); }
  }

  lemma RotateKeepsSums(s: Pool, only: bool)
    ensures WeightSum(Rotate(s).0, only) == WeightSum(s, only)
  {
    SumOfAdvance(s, only);
    var t := AdvanceAll(s);
    var b := Best(t);
    if b.Some? {
      SumOfUpdate(t, b.value, t[b.value].(currentWeight := t[b.value].currentWeight - TotalWeight(s)), only);
    } else {
      forall i | 0 <= i < |s| ensures !Available(s[i]) {
        assert !Available(t[i]);
      }
      NoneAvailableWeighsNothing(s);
    }
  }

  lemma {:induction false} SumIgnoresBreaker(s: Pool, t: Pool)
    requires |s| == |t|
    requires forall i :: 0 <= i < |s| ==> s[i].currentWeight == t[i].currentWeight
    ensures WeightSum(s, false) == WeightSum(t, false)
  {
    if s != [] { SumIgnoresBreaker(s[..|s| - 1], t[..|s| - 1]); }
  }

  lemma RotateKeepsUpstreamsOk(s: Pool, policy: Policy)
    requires forall i :: 0 <= i < |s| ==> UpstreamOk(s[i], policy)
    ensures var t := Rotate(s).0; |t| == |s| && forall i :: 0 <= i < |s| ==> UpstreamOk(t[i], policy)
  {
    var t := Rotate(s).0;
    forall i | 0 <= i < |s| ensures UpstreamOk(t[i], policy) {
      assert UpstreamOk(s[i], policy);
    }
  }

  lemma NextKeepsPoolOk(s: Pool, policy: Policy, now: int)
    requires PoolOk(s, policy)
    ensures PoolOk(Next(s, now).0, policy)
  {
    var t := ExpireAll(s, now);
    SumIgnoresBreaker(s, t);
    forall i | 0 <= i < |t| ensures UpstreamOk(t[i], policy) {
      assert UpstreamOk(s[i], policy);
    }
    match FirstTrial(t, 0) {
      case Some(i) => SumIgnoresBreaker(t, t[i := t[i].(halfOpenInFlight := true)]);
      case None =>
        RotateKeepsSums(t, false);
        RotateKeepsUpstreamsOk(t, policy);
    }
  }

  lemma UpdateKeepsPoolOk(s: Pool, policy: Policy, op: Op)
    requires policy.failureThreshold > 0 && PoolOk(s, policy)
    ensures PoolOk(Update(s, policy, op), policy)
  {
    if op.Select? {
      NextKeepsPoolOk(s, policy, op.now);
    } else if op.index < |s| {
      assert UpstreamOk(s[op.index], policy);
      SumIgnoresBreaker(s, Update(s, policy, op));
    }
  }

  // Every interleaving of selections, failures, successes, drains and probes keeps the pool consistent.
  lemma {:induction false} RunKeepsPoolOk(s: Pool, policy: Policy, ops: seq<Op>)
    requires policy.failureThreshold > 0 && PoolOk(s, policy)
    ensures PoolOk(Run(s, policy, ops), policy) && |Run(s, policy, ops)| == |s|
    decreases |ops|
  {
    if ops != [] {
      UpdateKeepsPoolOk(s, policy, ops[0]);
      RunKeepsPoolOk(Update(s, policy, ops[0]), policy, ops[1..]);
    }
  }

  // What a caller may rely on when an upstream is handed out, and when none is.
  predicate Eligible(u: Upstream, now: int) {
    && !u.draining
    && (|| (u.state == Healthy && u.activeHealthy)
        || (u.state == HalfOpen && !u.halfOpenInFlight)
        || (u.state == Open && u.openUntil <= now && !u.halfOpenInFlight))
  }

  lemma SelectionIsEligible(s: Pool, now: int)
    ensures var (t, pick) := Next(s, now);
      && |t| == |s|
      && (pick.None? <==> forall i :: 0 <= i < |s| ==> !Eligible(s[i], now))
      && (pick.Some? ==> pick.value < |s| && Eligible(s[pick.value], now))
      && (pick.Some? && s[pick.value].state != Healthy ==>
            t[pick.value].state == HalfOpen && t[pick.value].halfOpenInFlight)
      && (pick.Some? && s[pick.value].state == Healthy ==>
            forall i :: 0 <= i < |s| && Eligible(s[i], now) ==> s[i].state == Healthy)
  {
    var t := ExpireAll(s, now);
    forall i | 0 <= i < |s|
      ensures Eligible(s[i], now) <==> TrialReady(t[i]) || Available(t[i])
      ensures Eligible(s[i], now) && s[i].state != Healthy <==> TrialReady(t[i])
    {
    }
    if FirstTrial(t, 0).None? {
      var a := AdvanceAll(t);
      assert forall i :: 0 <= i < |s| ==> Available(a[i]) == Available(t[i]);
    }
  }

  // A trial waits for this upstream, or will as soon as its breaker is looked at.
  predicate TrialWaits(u: Upstream, now: int) {
    !u.draining && !u.halfOpenInFlight && (u.state == HalfOpen || (u.state == Open && u.openUntil <= now))
  }

  // Read off the fields: the first waiting trial, or, when no trial waits, the available upstream whose advanced
  // weight beats every earlier one and is not beaten by a later one.
  predicate Offered(s: Pool, now: int, i: nat)
    requires i < |s|
  {
    if TrialWaits(s[i], now) then forall j :: 0 <= j < i ==> !TrialWaits(s[j], now)
    else
      && Available(s[i])
      && (forall j :: 0 <= j < |s| ==> !TrialWaits(s[j], now))
      && (forall j :: 0 <= j < i && Available(s[j]) ==> s[j].currentWeight + s[j].weight < s[i].currentWeight + s[i].weight)
      && forall j :: i < j < |s| && Available(s[j]) ==> s[j].currentWeight + s[j].weight <= s[i].currentWeight + s[i].weight
  }

  lemma BestIsUnique(s: Pool, i: nat)
    requires i < |s| && Available(s[i])
    ensures Best(s) == Some(i) <==>
      && (forall j :: 0 <= j < i && Available(s[j]) ==> s[j].currentWeight < s[i].currentWeight)
      && forall j :: i < j < |s| && Available(s[j]) ==> s[j].currentWeight <= s[i].currentWeight
  {
    var b := Best(s);
    if b != Some(i) && b.value < i { assert s[b.value].currentWeight >= s[i].currentWeight; }
  }

  lemma TrialIsFirst(s: Pool, i: nat)
    requires i < |s| && TrialReady(s[i])
    ensures FirstTrial(s, 0) == Some(i) <==> forall j :: 0 <= j < i ==> !TrialReady(s[j])
  {
  }

  // Which upstream the selection offers, in terms of the fields alone.
  lemma OfferedExactly(s: Pool, now: int, i: nat)
    requires i < |s|
    ensures Next(s, now).1 == Some(i) <==> Offered(s, now, i)
  {
    hide Best, FirstTrial;
    var t := ExpireAll(s, now);
    forall j | 0 <= j < |s|
      ensures TrialReady(t[j]) <==> TrialWaits(s[j], now)
      ensures Available(t[j]) <==> Available(s[j])
      ensures t[j].currentWeight == s[j].currentWeight && t[j].weight == s[j].weight
    {
    }
    if TrialReady(t[i]) {
      TrialIsFirst(t, i);
      SomeTrial(t, i);
    } else {
      NoTrial(t);
      var a := AdvanceAll(t);
      forall j | 0 <= j < |s|
        ensures Available(a[j]) <==> Available(s[j])
        ensures Available(s[j]) ==> a[j].currentWeight == s[j].currentWeight + s[j].weight
      {
      }
      if Available(a[i]) { BestIsUnique(a, i); } else { BestIsAvailable(a); }
    }
  }

  lemma SomeTrial(s: Pool, i: nat)
    requires i < |s| && TrialReady(s[i])
    ensures FirstTrial(s, 0).Some?
  {
  }

  lemma NoTrial(s: Pool)
    ensures FirstTrial(s, 0).None? <==> forall j :: 0 <= j < |s| ==> !TrialReady(s[j])
    ensures FirstTrial(s, 0).Some? ==> FirstTrial(s, 0).value < |s| && TrialReady(s[FirstTrial(s, 0).value])
  {
  }

  lemma BestIsAvailable(s: Pool)
    ensures Best(s).Some? ==> Best(s).value < |s| && Available(s[Best(s).value])
  {
  }

  // While a half-open trial is out, no selection hands the same upstream out again,
  // whatever other requests, probes and drains do in between.
  lemma {:induction false} TrialIsExclusive(s: Pool, policy: Policy, ops: seq<Op>, trial: nat, last: int)
    requires policy.failureThreshold > 0 && PoolOk(s, policy)
    requires trial < |s| && s[trial].halfOpenInFlight
    requires forall k :: 0 <= k < |ops| ==> !(ops[k].MarkFailure? && ops[k].index == trial)
    requires forall k :: 0 <= k < |ops| ==> !(ops[k].MarkSuccess? && ops[k].index == trial)
    ensures var t := Run(s, policy, ops);
      |t| == |s| && t[trial].halfOpenInFlight && Next(t, last).1 != Some(trial)
    decreases |ops|
  {
    if ops == [] {
      SelectionIsEligible(s, last);
      assert UpstreamOk(s[trial], policy);
    } else {
      UpdateKeepsPoolOk(s, policy, ops[0]);
      assert UpstreamOk(s[trial], policy);
      var t := Update(s, policy, ops[0]);
      assert t[trial].halfOpenInFlight;
      TrialIsExclusive(t, policy, ops[1..], trial, last);
    }
  }

  // A tripped upstream stays unselected until its cool-down has passed, unless a late success closes it.
  lemma {:induction false} OpenStaysUnselected(s: Pool, policy: Policy, ops: seq<Op>, i: nat, deadline: int, last: int)
    requires policy.failureThreshold > 0 && PoolOk(s, policy)
    requires i < |s| && s[i].state == Open && s[i].openUntil >= deadline > last
    requires forall k :: 0 <= k < |ops| ==> !(ops[k].MarkSuccess? && ops[k].index == i)
    requires forall k :: 0 <= k < |ops| && ops[k].Select? ==> ops[k].now < deadline
    requires forall k :: 0 <= k < |ops| && ops[k].MarkFailure? && ops[k].index == i ==> ops[k].now + policy.openMs >= deadline
    ensures var t := Run(s, policy, ops);
      |t| == |s| && t[i].state == Open && Next(t, last).1 != Some(i)
    decreases |ops|
  {
    if ops == [] {
      SelectionIsEligible(s, last);
    } else {
      UpdateKeepsPoolOk(s, policy, ops[0]);
      assert UpstreamOk(s[i], policy);
      OpenStaysUnselected(Update(s, policy, ops[0]), policy, ops[1..], i, deadline, last);
    }
  }
}
