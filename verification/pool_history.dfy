// The state of one upstream read off the history of its pool: breaker and active probes.
module PoolHistory {
  import opened Wrappers
  import opened Upstreams
  import opened PoolInvariants

  lemma {:induction false} RunLast(s: Pool, policy: Policy, ops: seq<Op>)
    requires ops != []
    ensures Run(s, policy, ops) == Update(Run(s, policy, ops[..|ops| - 1]), policy, ops[|ops| - 1])
    decreases |ops|
  {
    hide Update;
    if |ops| > 1 {
      assert ops[1..][..|ops| - 2] == ops[..|ops| - 1][1..];
      RunLast(Update(s, policy, ops[0]), policy, ops[1..]);
    } else {
      assert ops[1..] == [] && ops[..0] == [];
    }
  }

  lemma UpdateKeepsSize(s: Pool, policy: Policy, op: Op)
    ensures |Update(s, policy, op)| == |s|
  {
  }

  lemma {:induction false} RunKeepsSize(s: Pool, policy: Policy, ops: seq<Op>)
    ensures |Run(s, policy, ops)| == |s|
    decreases |ops|
  {
    hide Update;
    if ops != [] {
      UpdateKeepsSize(s, policy, ops[0]);
      RunKeepsSize(Update(s, policy, ops[0]), policy, ops[1..]);
    }
  }

  // ---- Active probes ----

  // How many probes of the upstream have had this verdict since its last other verdict.
  function Streak(ops: seq<Op>, i: nat, healthy: bool): nat {
    if ops == [] then 0
    else
      var before := Streak(ops[..|ops| - 1], i, healthy);
      match ops[|ops| - 1]
      case RecordProbe(index, verdict) => if index != i then before else if verdict == healthy then before + 1 else 0
      case _ => before
  }

  // The n-th operation is a probe that makes the streak long enough.
  predicate Decides(u: Upstream, ops: seq<Op>, i: nat, healthy: bool, n: nat) {
    && 0 < n <= |ops| && ops[n - 1] == RecordProbe(i, healthy)
    && Streak(ops[..n], i, healthy) >= if healthy then u.recoveryThreshold else u.probeFailureThreshold
  }

  predicate NoneDecides(u: Upstream, ops: seq<Op>, i: nat, healthy: bool, n: nat) {
    forall m: nat :: n < m <= |ops| ==> !Decides(u, ops, i, healthy, m)
  }

  // The latest probe to decide decided this.
  ghost predicate LastDecided(u: Upstream, ops: seq<Op>, i: nat, healthy: bool) {
    exists n: nat :: Decides(u, ops, i, healthy, n) && NoneDecides(u, ops, i, !healthy, n)
  }

  lemma DecidesBefore(u: Upstream, ops: seq<Op>, op: Op, i: nat, healthy: bool, n: nat)
    requires n <= |ops|
    ensures Decides(u, ops + [op], i, healthy, n) <==> Decides(u, ops, i, healthy, n)
  {
    hide Streak;
    assert (ops + [op])[..n] == ops[..n];
  }

  lemma DecidesNow(u: Upstream, ops: seq<Op>, op: Op, i: nat, healthy: bool)
    ensures Decides(u, ops + [op], i, healthy, |ops| + 1) <==>
      op == RecordProbe(i, healthy) && Streak(ops, i, healthy) + 1 >= if healthy then u.recoveryThreshold else u.probeFailureThreshold
  {
    var more := ops + [op];
    assert more[..|ops| + 1] == more && more[..|ops|] == ops;
  }

  lemma LastDecidedGoesOn(u: Upstream, ops: seq<Op>, op: Op, i: nat, healthy: bool)
    ensures var now, other := Decides(u, ops + [op], i, healthy, |ops| + 1), Decides(u, ops + [op], i, !healthy, |ops| + 1);
      LastDecided(u, ops + [op], i, healthy) <==> now || (LastDecided(u, ops, i, healthy) && !other)
  {
    hide Decides;
    var more := ops + [op];
    forall n: nat, h | n <= |ops| ensures Decides(u, more, i, h, n) <==> Decides(u, ops, i, h, n) { DecidesBefore(u, ops, op, i, h, n); }
    if LastDecided(u, ops, i, healthy) && !Decides(u, more, i, !healthy, |ops| + 1) {
      var n: nat :| Decides(u, ops, i, healthy, n) && NoneDecides(u, ops, i, !healthy, n);
      DecidesInRange(u, ops, i, healthy, n);
      assert Decides(u, more, i, healthy, n);
    }
    if LastDecided(u, more, i, healthy) && !Decides(u, more, i, healthy, |ops| + 1) {
      var n: nat :| Decides(u, more, i, healthy, n) && NoneDecides(u, more, i, !healthy, n);
      DecidesInRange(u, more, i, healthy, n);
      assert Decides(u, ops, i, healthy, n);
    }
  }

  lemma DecidesInRange(u: Upstream, ops: seq<Op>, i: nat, healthy: bool, n: nat)
    ensures Decides(u, ops, i, healthy, n) ==> n <= |ops|
  {
  }

  predicate Unprobed(u: Upstream) {
    u.activeHealthy && u.activeState == Unknown && u.activeFailures == 0 && u.activeSuccesses == 0
  }

  // Main result on probes: an upstream is out exactly when the latest probe to complete a long enough streak, of
  // failures or of successes, completed one of failures.
  lemma {:induction false} ProbesDecide(s: Pool, policy: Policy, ops: seq<Op>, i: nat)
    requires i < |s| && Unprobed(s[i])
    ensures |Run(s, policy, ops)| == |s|
    ensures var u := Run(s, policy, ops)[i];
      && u.recoveryThreshold == s[i].recoveryThreshold && u.probeFailureThreshold == s[i].probeFailureThreshold
      && u.activeFailures == Streak(ops, i, false) && u.activeSuccesses == Streak(ops, i, true)
      && (!u.activeHealthy <==> LastDecided(s[i], ops, i, false))
      && (u.activeState == ProbedUnhealthy <==> LastDecided(s[i], ops, i, false))
      && (u.activeState == ProbedHealthy <==> LastDecided(s[i], ops, i, true))
  {
    hide Update;
    RunKeepsSize(s, policy, ops);
    if ops == [] {
      NothingDecided(s[i], i);
    } else {
      var n := |ops| - 1;
      var front, op := ops[..n], ops[n];
      ProbesDecide(s, policy, front, i);
      RunLast(s, policy, ops);
      assert front + [op] == ops;
      LastDecidedGoesOn(s[i], front, op, i, false);
      LastDecidedGoesOn(s[i], front, op, i, true);
      DecidesNow(s[i], front, op, i, false);
      DecidesNow(s[i], front, op, i, true);
      ProbeStep(Run(s, policy, front), policy, op, i);
    }
  }

  lemma NothingDecided(u: Upstream, i: nat)
    ensures !LastDecided(u, [], i, false) && !LastDecided(u, [], i, true)
  {
  }

  // What one operation does to the probe fields.
  lemma ProbeStep(s: Pool, policy: Policy, op: Op, i: nat)
    requires i < |s|
    ensures |Update(s, policy, op)| == |s|
    ensures var u, v := s[i], Update(s, policy, op)[i];
      && v.recoveryThreshold == u.recoveryThreshold && v.probeFailureThreshold == u.probeFailureThreshold
      && if op == RecordProbe(i, true) then
           var reached := u.activeSuccesses + 1 >= u.recoveryThreshold;
           && v.activeFailures == 0 && v.activeSuccesses == u.activeSuccesses + 1
           && v.activeHealthy == (reached || u.activeHealthy)
           && v.activeState == if reached then ProbedHealthy else u.activeState
         else if op == RecordProbe(i, false) then
           var reached := u.activeFailures + 1 >= u.probeFailureThreshold;
           && v.activeSuccesses == 0 && v.activeFailures == u.activeFailures + 1
           && v.activeHealthy == (!reached && u.activeHealthy)
           && v.activeState == if reached then ProbedUnhealthy else u.activeState
         else
           && v.activeFailures == u.activeFailures && v.activeSuccesses == u.activeSuccesses
           && v.activeHealthy == u.activeHealthy && v.activeState == u.activeState
  {
    if op.Select? { NextKeepsProbes(s, op.now, i); }
  }

  lemma NextKeepsProbes(s: Pool, now: int, i: nat)
    requires i < |s|
    ensures |Next(s, now).0| == |s|
    ensures var u, v := s[i], Next(s, now).0[i];
      v == u.(currentWeight := v.currentWeight, state := v.state, halfOpenInFlight := v.halfOpenInFlight)
  {
  }

  // ---- The breaker ----

  // How many failures the upstream has had since its last success.
  function Failures(ops: seq<Op>, i: nat): nat {
    if ops == [] then 0
    else
      var before := Failures(ops[..|ops| - 1], i);
      match ops[|ops| - 1]
      case MarkFailure(index, _) => if index == i then before + 1 else before
      case MarkSuccess(index) => if index == i then 0 else before
      case _ => before
  }

  // When its last failure was recorded.
  function LastFailure(ops: seq<Op>, i: nat): Option<int> {
    if ops == [] then None
    else match ops[|ops| - 1]
      case MarkFailure(index, now) => if index == i then Some(now) else LastFailure(ops[..|ops| - 1], i)
      case _ => LastFailure(ops[..|ops| - 1], i)
  }

  // Whether a selection since then came after the cool-down.
  function Cooled(policy: Policy, ops: seq<Op>, i: nat): bool {
    ops != [] &&
    var front := ops[..|ops| - 1];
    match ops[|ops| - 1]
    case MarkFailure(index, _) => index != i && Cooled(policy, front, i)
    case Select(now) => Cooled(policy, front, i) || (LastFailure(front, i).Some? && LastFailure(front, i).value + policy.openMs <= now)
    case _ => Cooled(policy, front, i)
  }

  // Whether a selection has handed the upstream out since its last failure or success.
  function HandedOut(s: Pool, policy: Policy, ops: seq<Op>, i: nat): bool {
    ops != [] &&
    var front := ops[..|ops| - 1];
    match ops[|ops| - 1]
    case MarkFailure(index, _) => index != i && HandedOut(s, policy, front, i)
    case MarkSuccess(index) => index != i && HandedOut(s, policy, front, i)
    case Select(now) => HandedOut(s, policy, front, i) || Next(Run(s, policy, front), now).1 == Some(i)
    case _ => HandedOut(s, policy, front, i)
  }

  predicate Untouched(u: Upstream) {
    u.state == Healthy && u.consecutiveFailures == 0 && !u.halfOpenInFlight
  }

  // What the history says about the breaker.
  ghost predicate Breaker(s: Pool, policy: Policy, ops: seq<Op>, i: nat, u: Upstream) {
    var failures, last, cooled := Failures(ops, i), LastFailure(ops, i), Cooled(policy, ops, i);
    && u.consecutiveFailures == failures
    && (u.state == Healthy <==> failures < policy.failureThreshold)
    && (u.state != Healthy ==> last.Some? && u.openUntil == last.value + policy.openMs)
    && (u.state != Healthy ==> (u.state == HalfOpen <==> cooled))
    && (u.halfOpenInFlight <==> u.state == HalfOpen && HandedOut(s, policy, ops, i))
    && (u.state == Open ==> !HandedOut(s, policy, ops, i))
  }

  // What one operation does to the breaker fields.
  lemma BreakerStep(s: Pool, policy: Policy, op: Op, i: nat)
    requires i < |s|
    ensures |Update(s, policy, op)| == |s|
    ensures var u, v := s[i], Update(s, policy, op)[i];
      match op
      case MarkFailure(index, now) => v == if index == i then Failed(u, policy, now) else u
      case MarkSuccess(index) => v == if index == i then Succeeded(u) else u
      case Select(now) =>
        && v.consecutiveFailures == u.consecutiveFailures && v.openUntil == u.openUntil
        && v.state == (if u.state == Open && u.openUntil <= now then HalfOpen else u.state)
        && v.halfOpenInFlight == (u.halfOpenInFlight || (Next(s, now).1 == Some(i) && v.state == HalfOpen))
      case _ =>
        && v.consecutiveFailures == u.consecutiveFailures && v.openUntil == u.openUntil
        && v.state == u.state && v.halfOpenInFlight == u.halfOpenInFlight
  {
    if op.Select? { NextKeepsBreaker(s, op.now, i); }
  }

  lemma NextKeepsBreaker(s: Pool, now: int, i: nat)
    requires i < |s|
    ensures |Next(s, now).0| == |s|
    ensures var u, v := s[i], Next(s, now).0[i];
      && v.consecutiveFailures == u.consecutiveFailures && v.openUntil == u.openUntil
      && v.state == (if u.state == Open && u.openUntil <= now then HalfOpen else u.state)
      && v.halfOpenInFlight == (u.halfOpenInFlight || (Next(s, now).1 == Some(i) && v.state == HalfOpen))
  {
  }

  // An open upstream whose cool-down is not over is not handed out.
  lemma OpenNotHandedOut(s: Pool, now: int, i: nat)
    requires i < |s| && s[i].state == Open && s[i].openUntil > now
    ensures Next(s, now).1 != Some(i)
  {
    SelectionIsEligible(s, now);
  }

  // Main result on the breaker: state, deadline and trial are what the history of failures, successes and selections
  // says, from any pool in which the upstream starts untouched.
  lemma {:induction false} BreakerFollowsHistory(s: Pool, policy: Policy, ops: seq<Op>, i: nat)
    requires i < |s| && Untouched(s[i]) && policy.failureThreshold > 0
    ensures |Run(s, policy, ops)| == |s| && Breaker(s, policy, ops, i, Run(s, policy, ops)[i])
  {
    hide Update, Next;
    RunKeepsSize(s, policy, ops);
    if ops != [] {
      var n := |ops| - 1;
      var front, op := ops[..n], ops[n];
      BreakerFollowsHistory(s, policy, front, i);
      RunLast(s, policy, ops);
      var before := Run(s, policy, front);
      BreakerStep(before, policy, op, i);
      if op.Select? && before[i].state == Open && before[i].openUntil > op.now { OpenNotHandedOut(before, op.now, i); }
    }
  }
}
