// Upstream records and the value-level meaning of one UpstreamPool operation:
// smooth weighted round-robin, passive circuit breaker, active probes, draining.
module Upstreams {
  import opened Wrappers

  datatype BreakerState = Healthy | Open | HalfOpen

  datatype ProbeState = Unknown | ProbedHealthy | ProbedUnhealthy

  // The fields of one upstream that selection and health tracking read or write.
  datatype Upstream = Upstream(
    weight: nat, recoveryThreshold: nat, probeFailureThreshold: nat,
    currentWeight: int, consecutiveFailures: nat, state: BreakerState, openUntil: int,
    halfOpenInFlight: bool, draining: bool,
    activeHealthy: bool, activeState: ProbeState, activeFailures: nat, activeSuccesses: nat)

  type Pool = seq<Upstream>

  datatype Policy = Policy(openMs: nat, failureThreshold: nat)

  function Expire(u: Upstream, now: int): Upstream {
    if u.state == Open && u.openUntil <= now then u.(state := HalfOpen) else u
  }

  function ExpireAll(s: Pool, now: int): Pool {
    seq(|s|, i requires 0 <= i < |s| => Expire(s[i], now))
  }

  // A half-open upstream whose single trial request is still to be handed out.
  predicate TrialReady(u: Upstream) {
    u.state == HalfOpen && !u.halfOpenInFlight && !u.draining
  }

  predicate Available(u: Upstream) {
    u.state == Healthy && u.activeHealthy && !u.draining
  }

  function FirstTrial(s: Pool, from: nat): (r: Option<nat>)
    requires from <= |s|
    ensures r.Some? ==> from <= r.value < |s| && TrialReady(s[r.value])
    ensures r.Some? ==> forall i :: from <= i < r.value ==> !TrialReady(s[i])
    ensures r.None? ==> forall i :: from <= i < |s| ==> !TrialReady(s[i])
    decreases |s| - from
  {
    if from == |s| then None
    else if TrialReady(s[from]) then Some(from)
    else FirstTrial(s, from + 1)
  }

  function TotalWeight(s: Pool): nat {
    if s == [] then 0
    else TotalWeight(s[..|s| - 1]) + if Available(s[|s| - 1]) then s[|s| - 1].weight else 0
  }

  function Advance(u: Upstream): Upstream {
    if Available(u) then u.(currentWeight := u.currentWeight + u.weight) else u
  }

  function AdvanceAll(s: Pool): Pool {
    seq(|s|, i requires 0 <= i < |s| => Advance(s[i]))
  }

  // The first available upstream of greatest current weight.
  function Best(s: Pool): (r: Option<nat>)
    ensures r.Some? ==> r.value < |s| && Available(s[r.value])
    ensures r.Some? ==> forall i :: 0 <= i < |s| && Available(s[i]) ==>
      s[i].currentWeight <= s[r.value].currentWeight
    ensures r.Some? ==> forall i :: 0 <= i < r.value && Available(s[i]) ==>
      s[i].currentWeight < s[r.value].currentWeight
    ensures r.None? ==> forall i :: 0 <= i < |s| ==> !Available(s[i])
  {
    if s == [] then None
    else
      var n := |s| - 1;
      var b := Best(s[..n]);
      if !Available(s[n]) then b
      else if b.None? || s[n].currentWeight > s[b.value].currentWeight then Some(n)
      else b
  }

  // One round of smooth weighted round-robin over the available upstreams.
  function Rotate(s: Pool): (Pool, Option<nat>) {
    var t := AdvanceAll(s);
    match Best(t)
    case None => (t, None)
    case Some(b) => (t[b := t[b].(currentWeight := t[b].currentWeight - TotalWeight(s))], Some(b))
  }

  function Next(s: Pool, now: int): (Pool, Option<nat>) {
    var t := ExpireAll(s, now);
    match FirstTrial(t, 0)
    case Some(i) => (t[i := t[i].(halfOpenInFlight := true)], Some(i))
    case None => Rotate(t)
  }

  function Failed(u: Upstream, policy: Policy, now: int): Upstream {
    var v := u.(halfOpenInFlight := false, consecutiveFailures := u.consecutiveFailures + 1);
    if v.state == HalfOpen || v.consecutiveFailures >= policy.failureThreshold
    then v.(state := Open, openUntil := now + policy.openMs)
    else v
  }

  function Succeeded(u: Upstream): Upstream {
    u.(state := Healthy, consecutiveFailures := 0, openUntil := 0, halfOpenInFlight := false)
  }

  function Probed(u: Upstream, healthy: bool): Upstream {
    if healthy then
      var v := u.(activeFailures := 0, activeSuccesses := u.activeSuccesses + 1);
      if v.activeSuccesses >= v.recoveryThreshold then v.(activeHealthy := true, activeState := ProbedHealthy) else v
    else
      var v := u.(activeSuccesses := 0, activeFailures := u.activeFailures + 1);
      if v.activeFailures >= v.probeFailureThreshold then v.(activeHealthy := false, activeState := ProbedUnhealthy) else v
  }

  // The upstream as configuration loading creates it.
  function Fresh(weight: nat, recoveryThreshold: nat, probeFailureThreshold: nat): Upstream {
    Upstream(weight, recoveryThreshold, probeFailureThreshold, 0, 0, Healthy, 0, false, false, true, Unknown, 0, 0)
  }
}
