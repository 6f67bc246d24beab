// The live pool: upstream objects updated in place, each operation proved against its value-level meaning.
module UpstreamPools {
  import opened Wrappers
  import opened Upstreams
  import opened PoolInvariants

  class LiveUpstream {
    const enabled: bool
    const weight: nat
    const recoveryThreshold: nat
    const probeFailureThreshold: nat
    var currentWeight: int
    var consecutiveFailures: nat
    var state: BreakerState
    var openUntil: int
    var halfOpenInFlight: bool
    var draining: bool
    var activeHealthy: bool
    var activeState: ProbeState
    var activeFailures: nat
    var activeSuccesses: nat

    constructor (enabled: bool, weight: nat, recoveryThreshold: nat, probeFailureThreshold: nat)
      ensures this.enabled == enabled
      ensures Value() == Fresh(weight, recoveryThreshold, probeFailureThreshold)
    {
      this.enabled, this.weight := enabled, weight;
      this.recoveryThreshold, this.probeFailureThreshold := recoveryThreshold, probeFailureThreshold;
      currentWeight, consecutiveFailures, state, openUntil := 0, 0, Healthy, 0;
      halfOpenInFlight, draining := false, false;
      activeHealthy, activeState, activeFailures, activeSuccesses := true, Unknown, 0, 0;
    }

    function Value(): Upstream
      reads this
    {
      Upstream(weight, recoveryThreshold, probeFailureThreshold, currentWeight, consecutiveFailures, state, openUntil,
               halfOpenInFlight, draining, activeHealthy, activeState, activeFailures, activeSuccesses)
    }
  }

  function EnabledOnly(all: seq<LiveUpstream>): (r: seq<LiveUpstream>)
    ensures forall i :: 0 <= i < |r| ==> r[i] in all && r[i].enabled
    ensures forall i :: 0 <= i < |all| && all[i].enabled ==> all[i] in r
    ensures Distinct(all) ==> Distinct(r)
  {
    if all == [] then []
    else EnabledOnly(all[..|all| - 1]) + if all[|all| - 1].enabled then [all[|all| - 1]] else []
  }

  predicate Distinct(s: seq<LiveUpstream>) {
    forall i, j :: 0 <= i < j < |s| ==> s[i] != s[j]
  }

  lemma PrefixZero(s: Pool)
    ensures TotalWeight(s[..0]) == 0 && Best(AdvanceAll(s)[..0]) == None
  {
  }

  lemma PrefixStep(s: Pool, i: nat)
    requires i < |s|
    ensures TotalWeight(s[..i + 1]) == TotalWeight(s[..i]) + if Available(s[i]) then s[i].weight else 0
    ensures var t := AdvanceAll(s); var b := Best(t[..i]);
      Best(t[..i + 1]) ==
        if Available(t[i]) && (b.None? || t[i].currentWeight > t[b.value].currentWeight) then Some(i) else b
  {
    assert s[..i + 1][..i] == s[..i];
    assert AdvanceAll(s)[..i + 1][..i] == AdvanceAll(s)[..i];
  }

  class UpstreamPool {
    const upstreams: seq<LiveUpstream>
    const policy: Policy

    ghost predicate Valid() {
      Distinct(upstreams)
    }

    constructor (all: seq<LiveUpstream>, policy: Policy)
      requires Distinct(all)
      ensures Valid() && upstreams == EnabledOnly(all) && this.policy == policy
    {
      upstreams := EnabledOnly(all);
      this.policy := policy;
    }

    ghost function View(): (s: Pool)
      reads upstreams
      ensures |s| == |upstreams| && forall i :: 0 <= i < |s| ==> s[i] == upstreams[i].Value()
    {
      seq(|upstreams|, i requires 0 <= i < |upstreams| reads upstreams => upstreams[i].Value())
    }

    method Next(now: int) returns (chosen: LiveUpstream?)
      requires Valid()
      modifies upstreams
      ensures var (after, pick) := Upstreams.Next(old(View()), now);
        && View() == after
        && (chosen == null <==> pick.None?)
        && (chosen != null ==> pick.value < |upstreams| && chosen == upstreams[pick.value])
    {
      for i := 0 to |upstreams|
        invariant forall j :: 0 <= j < i ==> upstreams[j].Value() == Expire(old(View())[j], now)
        invariant forall j :: i <= j < |upstreams| ==> upstreams[j].Value() == old(View())[j]
      {
        var u := upstreams[i];
        if u.state == Open && u.openUntil <= now { u.state := HalfOpen; }
      }
      ghost var expired := View();
      assert expired == ExpireAll(old(View()), now);
      var trial := FindTrial();
      if trial != null {
        trial.halfOpenInFlight := true;
        return trial;
      }
      chosen := RotateAvailable();
    }

    method FindTrial() returns (trial: LiveUpstream?)
      ensures var found := FirstTrial(View(), 0);
        && (trial == null <==> found.None?)
        && (trial != null ==> found.value < |upstreams| && trial == upstreams[found.value])
    {
      for i := 0 to |upstreams|
        invariant FirstTrial(View(), i) == FirstTrial(View(), 0)
      {
        if upstreams[i].state == HalfOpen && !upstreams[i].halfOpenInFlight && !upstreams[i].draining {
          return upstreams[i];
        }
      }
      return null;
    }

    method RotateAvailable() returns (chosen: LiveUpstream?)
      requires Valid()
      modifies upstreams
      ensures var (after, pick) := Rotate(old(View()));
        && View() == after
        && (chosen == null <==> pick.None?)
        && (chosen != null ==> pick.value < |upstreams| && chosen == upstreams[pick.value])
    {
      hide Best, TotalWeight;
      ghost var before := View();
      ghost var advanced := AdvanceAll(before);
      PrefixZero(before);
      var total: nat := 0;
      ghost var best: Option<nat> := None;
      chosen := null;
      for i := 0 to |upstreams|
        invariant total == TotalWeight(before[..i])
        invariant forall j :: 0 <= j < i ==> upstreams[j].Value() == advanced[j]
        invariant forall j :: i <= j < |upstreams| ==> upstreams[j].Value() == before[j]
        invariant best == Best(advanced[..i])
        invariant chosen == null <==> best.None?
        invariant best.Some? ==> best.value < i && chosen == upstreams[best.value]
      {
        PrefixStep(before, i);
        best := Best(advanced[..i + 1]);
        total, chosen := AdvanceOne(i, total, chosen);
      }
      assert before[..|upstreams|] == before && advanced[..|upstreams|] == advanced;
      assert View() == advanced;
      if chosen != null {
        chosen.currentWeight := chosen.currentWeight - total;
        assert View() == advanced[best.value := advanced[best.value].(currentWeight := advanced[best.value].currentWeight - total)];
      }
    }

    // One pass of the selection loop: add the weight, keep the first upstream of greatest current weight.
    method AdvanceOne(i: nat, total: nat, selected: LiveUpstream?) returns (total': nat, selected': LiveUpstream?)
      requires Valid() && i < |upstreams|
      requires selected != null ==> selected != upstreams[i]
      modifies upstreams[i]
      ensures upstreams[i].Value() == Advance(old(upstreams[i].Value()))
      ensures var u := old(upstreams[i].Value());
        && total' == total + (if Available(u) then u.weight else 0)
        && selected' == if Available(u) && (selected == null || Advance(u).currentWeight > selected.currentWeight)
                        then upstreams[i] else selected
    {
      var u := upstreams[i];
      total', selected' := total, selected;
      if u.state == Healthy && u.activeHealthy && !u.draining {
        total' := total + u.weight;
        u.currentWeight := u.currentWeight + u.weight;
        if selected == null || u.currentWeight > selected.currentWeight { selected' := u; }
      }
    }

    method MarkFailure(u: LiveUpstream?, now: int) returns (transition: Option<(BreakerState, BreakerState)>)
      requires Valid()
      modifies u
      ensures u != null ==> u.Value() == Failed(old(u.Value()), policy, now)
      ensures forall i :: 0 <= i < |upstreams| && upstreams[i] == u ==>
        View() == Update(old(View()), policy, Op.MarkFailure(i, now))
      ensures u !in upstreams ==> View() == old(View())
      ensures transition == if u == null || old(u.state) == u.state then None else Some((old(u.state), u.state))
    {
      if u == null { return None; }
      var previous := u.state;
      u.halfOpenInFlight := false;
      u.consecutiveFailures := u.consecutiveFailures + 1;
      if u.state == HalfOpen || u.consecutiveFailures >= policy.failureThreshold {
        u.state := Open;
        u.openUntil := now + policy.openMs;
      }
      transition := if previous == u.state then None else Some((previous, u.state));
    }

    method MarkSuccess(u: LiveUpstream?) returns (transition: Option<(BreakerState, BreakerState)>)
      requires Valid()
      modifies u
      ensures u != null ==> u.Value() == Succeeded(old(u.Value()))
      ensures forall i :: 0 <= i < |upstreams| && upstreams[i] == u ==>
        View() == Update(old(View()), policy, Op.MarkSuccess(i))
      ensures u !in upstreams ==> View() == old(View())
      ensures transition == if u == null || old(u.state) == u.state then None else Some((old(u.state), u.state))
    {
      if u == null { return None; }
      var previous := u.state;
      u.state, u.consecutiveFailures, u.openUntil, u.halfOpenInFlight := Healthy, 0, 0, false;
      transition := if previous == u.state then None else Some((previous, u.state));
    }

    method SetDraining(u: LiveUpstream?, draining: bool)
      requires Valid()
      modifies u
      ensures u != null ==> u.Value() == old(u.Value()).(draining := draining)
      ensures forall i :: 0 <= i < |upstreams| && upstreams[i] == u ==>
        View() == Update(old(View()), policy, Op.SetDraining(i, draining))
      ensures u !in upstreams ==> View() == old(View())
    {
      if u != null { u.draining := draining; }
    }

    method RecordActiveProbe(u: LiveUpstream?, healthy: bool) returns (states: Option<(ProbeState, ProbeState)>)
      requires Valid()
      modifies u
      ensures u != null ==> u.Value() == Probed(old(u.Value()), healthy)
      ensures forall i :: 0 <= i < |upstreams| && upstreams[i] == u ==>
        View() == Update(old(View()), policy, RecordProbe(i, healthy))
      ensures u !in upstreams ==> View() == old(View())
      ensures states == if u == null then None else Some((old(u.activeState), u.activeState))
    {
      if u == null { return None; }
      var previous := u.activeState;
      if healthy {
        u.activeFailures := 0;
        u.activeSuccesses := u.activeSuccesses + 1;
        if u.activeSuccesses >= u.recoveryThreshold {
          u.activeHealthy, u.activeState := true, ProbedHealthy;
        }
      } else {
        u.activeSuccesses := 0;
        u.activeFailures := u.activeFailures + 1;
        if u.activeFailures >= u.probeFailureThreshold {
          u.activeHealthy, u.activeState := false, ProbedUnhealthy;
        }
      }
      states := Some((previous, u.activeState));
    }
  }
}
