// The retry loop of one proxied request whose every attempt fails.
module Retry {
  import opened Wrappers
  import opened Upstreams
  import opened PoolInvariants
  import opened UpstreamPools

  // How many more times an upstream can be attempted before `horizon`: a healthy one until its breaker trips,
  // a half-open one once, an open one once if its cool-down ends in time.
  function Chances(u: Upstream, policy: Policy, horizon: int): nat {
    match u.state
    case Healthy => if u.consecutiveFailures < policy.failureThreshold then policy.failureThreshold - u.consecutiveFailures else 0
    case HalfOpen => 1
    case Open => if u.openUntil < horizon then 1 else 0
  }

  function TotalChances(s: Pool, policy: Policy, horizon: int): nat {
    if s == [] then 0
    else TotalChances(s[..|s| - 1], policy, horizon) + Chances(s[|s| - 1], policy, horizon)
  }

  lemma {:induction false} ChancesMonotone(s: Pool, t: Pool, policy: Policy, horizon: int)
    requires |s| == |t|
    requires forall i :: 0 <= i < |s| ==> Chances(t[i], policy, horizon) <= Chances(s[i], policy, horizon)
    ensures TotalChances(t, policy, horizon) <= TotalChances(s, policy, horizon)
  {
    if s != [] { ChancesMonotone(s[..|s| - 1], t[..|s| - 1], policy, horizon); }
  }

  lemma {:induction false} ChancesDrop(s: Pool, i: nat, u: Upstream, policy: Policy, horizon: int)
    requires i < |s| && Chances(u, policy, horizon) < Chances(s[i], policy, horizon)
    ensures TotalChances(s[i := u], policy, horizon) < TotalChances(s, policy, horizon)
  {
    var n := |s| - 1;
    if i == n {
      assert s[i := u][..n] == s[..n];
    } else {
      assert s[i := u][..n] == s[..n][i := u];
      ChancesDrop(s[..n], i, u, policy, horizon);
    }
  }

  lemma {:induction false} ChancesBound(s: Pool, policy: Policy, horizon: int)
    requires policy.failureThreshold > 0
    ensures TotalChances(s, policy, horizon) <= policy.failureThreshold * |s|
  {
    if s != [] {
      ChancesBound(s[..|s| - 1], policy, horizon);
      assert policy.failureThreshold * |s| == policy.failureThreshold * (|s| - 1) + policy.failureThreshold;
    }
  }

  lemma SelectingCostsNothing(s: Pool, policy: Policy, now: int, horizon: int)
    requires now < horizon
    ensures |Next(s, now).0| == |s|
    ensures TotalChances(Next(s, now).0, policy, horizon) <= TotalChances(s, policy, horizon)
  {
    var t := Next(s, now).0;
    forall i | 0 <= i < |s| ensures Chances(t[i], policy, horizon) <= Chances(s[i], policy, horizon) {
    }
    ChancesMonotone(s, t, policy, horizon);
  }

  lemma FailingCostsOne(s: Pool, i: nat, policy: Policy, now: int, horizon: int)
    requires i < |s| && PoolOk(s, policy) && s[i].state != Open && now + policy.openMs >= horizon
    ensures TotalChances(s[i := Failed(s[i], policy, now)], policy, horizon) < TotalChances(s, policy, horizon)
  {
    assert UpstreamOk(s[i], policy);
    ChancesDrop(s, i, Failed(s[i], policy, now), policy, horizon);
  }

  lemma NextNotOpen(s: Pool, now: int)
    requires Next(s, now).1.Some?
    ensures var (t, pick) := Next(s, now); pick.value < |t| && t[pick.value].state != Open
  {
  }

  // ---- The loop on values ----

  // The two pools of one proxy location and the route being attempted.
  datatype Loop = Loop(primary: Pool, fallback: Pool, route: nat, fromFallback: bool)

  function RoutePool(l: Loop): Pool {
    if l.fromFallback then l.fallback else l.primary
  }

  predicate LoopOk(l: Loop, policy: Policy) {
    && policy.failureThreshold > 0 && PoolOk(l.primary, policy) && PoolOk(l.fallback, policy)
    && l.route < |RoutePool(l)| && RoutePool(l)[l.route].state != Open
  }

  // The attempt's own pool records its failure.
  function Marked(l: Loop, policy: Policy, now: int): Loop
    requires l.route < |RoutePool(l)|
  {
    var failed := Failed(RoutePool(l)[l.route], policy, now);
    if l.fromFallback then l.(fallback := l.fallback[l.route := failed]) else l.(primary := l.primary[l.route := failed])
  }

  // Another primary if the rotation offers one, else the fallback pool, which is not asked again right after
  // a fallback attempt; and whether there is a next attempt at all.
  function NextRoute(l: Loop, first: int, second: int): (Loop, bool) {
    var rotated := Next(l.primary, first);
    var pick := rotated.1;
    if pick.Some? && (l.fromFallback || pick.value != l.route) then (Loop(rotated.0, l.fallback, pick.value, false), true)
    else if l.fromFallback then (l.(primary := rotated.0), false)
    else
      var spare := Next(l.fallback, second);
      if spare.1.Some? then (Loop(rotated.0, spare.0, spare.1.value, true), true)
      else (l.(primary := rotated.0, fallback := spare.0), false)
  }

  // From the k-th attempt to the one after it; three clock readings a round.
  function Step(l: Loop, policy: Policy, clock: nat -> int, k: nat): (Loop, bool)
    requires l.route < |RoutePool(l)|
  {
    NextRoute(Marked(l, policy, clock(3 * k)), clock(3 * k + 1), clock(3 * k + 2))
  }

  function Budget(l: Loop, policy: Policy, horizon: int): nat {
    TotalChances(l.primary, policy, horizon) + TotalChances(l.fallback, policy, horizon)
  }

  lemma MarkingCostsOne(l: Loop, policy: Policy, now: int, horizon: int)
    requires LoopOk(l, policy) && now + policy.openMs >= horizon
    ensures var m := Marked(l, policy, now);
      && Budget(m, policy, horizon) < Budget(l, policy, horizon)
      && PoolOk(m.primary, policy) && PoolOk(m.fallback, policy)
      && |m.primary| == |l.primary| && |m.fallback| == |l.fallback|
  {
    FailingCostsOne(RoutePool(l), l.route, policy, now, horizon);
    UpdateKeepsPoolOk(RoutePool(l), policy, Op.MarkFailure(l.route, now));
  }

  lemma NextRouteCostsNothing(l: Loop, policy: Policy, first: int, second: int, horizon: int)
    requires policy.failureThreshold > 0 && PoolOk(l.primary, policy) && PoolOk(l.fallback, policy)
    requires first < horizon && second < horizon
    ensures var (m, more) := NextRoute(l, first, second);
      && Budget(m, policy, horizon) <= Budget(l, policy, horizon)
      && |m.primary| == |l.primary| && |m.fallback| == |l.fallback|
      && (more ==> LoopOk(m, policy))
  {
    hide PoolOk, TotalChances, Next;
    SelectingCostsNothing(l.primary, policy, first, horizon);
    SelectingCostsNothing(l.fallback, policy, second, horizon);
    NextKeepsPoolOk(l.primary, policy, first);
    NextKeepsPoolOk(l.fallback, policy, second);
    if Next(l.primary, first).1.Some? { NextNotOpen(l.primary, first); }
    if Next(l.fallback, second).1.Some? { NextNotOpen(l.fallback, second); }
  }

  // Every round uses up one of the breakers' chances.
  lemma StepCostsOne(l: Loop, policy: Policy, clock: nat -> int, k: nat)
    requires LoopOk(l, policy) && Prompt(policy, clock)
    ensures var (m, more) := Step(l, policy, clock, k); var horizon := clock(0) + policy.openMs;
      && Budget(m, policy, horizon) < Budget(l, policy, horizon)
      && |m.primary| == |l.primary| && |m.fallback| == |l.fallback|
      && (more ==> LoopOk(m, policy))
  {
    hide PoolOk, Budget, Marked, NextRoute;
    var horizon := clock(0) + policy.openMs;
    assert clock(0) <= clock(3 * k) && clock(3 * k + 1) < horizon && clock(3 * k + 2) < horizon;
    MarkingCostsOne(l, policy, clock(3 * k), horizon);
    NextRouteCostsNothing(Marked(l, policy, clock(3 * k)), policy, clock(3 * k + 1), clock(3 * k + 2), horizon);
  }

  // No breaker's cool-down ends while the request is retried.
  ghost predicate Prompt(policy: Policy, clock: nat -> int) {
    forall k: nat :: clock(0) <= clock(k) < clock(0) + policy.openMs
  }

  // A request every attempt of which has failed so far.
  ghost predicate Attempting(ls: seq<Loop>, policy: Policy, clock: nat -> int) {
    && |ls| > 0 && LoopOk(ls[0], policy)
    && forall k :: 0 <= k < |ls| - 1 ==> Retried(ls, policy, clock, k)
  }

  ghost predicate Retried(ls: seq<Loop>, policy: Policy, clock: nat -> int, k: nat)
    requires k + 1 < |ls|
  {
    ls[k].route < |RoutePool(ls[k])| && Step(ls[k], policy, clock, k) == (ls[k + 1], true)
  }

  lemma AttemptingPrefix(ls: seq<Loop>, policy: Policy, clock: nat -> int)
    requires Attempting(ls, policy, clock) && |ls| > 1
    ensures Attempting(ls[..|ls| - 1], policy, clock)
  {
    hide Step, LoopOk, RoutePool;
    var front := ls[..|ls| - 1];
    assert front[0] == ls[0] && LoopOk(front[0], policy);
    forall k | 0 <= k < |front| - 1 ensures Retried(front, policy, clock, k) {
      assert Retried(ls, policy, clock, k);
    }
  }

  lemma AttemptingStep(ls: seq<Loop>, policy: Policy, clock: nat -> int)
    requires Attempting(ls, policy, clock) && var last := ls[|ls| - 1];
      last.route < |RoutePool(last)| && Step(last, policy, clock, |ls| - 1).1
    ensures Attempting(ls + [Step(ls[|ls| - 1], policy, clock, |ls| - 1).0], policy, clock)
  {
    hide Step, LoopOk, RoutePool;
    var more := ls + [Step(ls[|ls| - 1], policy, clock, |ls| - 1).0];
    assert more[0] == ls[0] && LoopOk(more[0], policy);
    forall k | 0 <= k < |more| - 1 ensures Retried(more, policy, clock, k) {
      if k < |ls| - 1 { assert Retried(ls, policy, clock, k); }
    }
  }

  lemma {:induction false} BudgetShrinks(ls: seq<Loop>, policy: Policy, clock: nat -> int)
    requires Attempting(ls, policy, clock) && Prompt(policy, clock)
    ensures var last := ls[|ls| - 1]; var horizon := clock(0) + policy.openMs;
      && LoopOk(last, policy)
      && |ls| - 1 + Budget(last, policy, horizon) <= Budget(ls[0], policy, horizon)
  {
    hide Step, Budget, LoopOk, RoutePool, Prompt;
    var n := |ls| - 1;
    if n > 0 {
      AttemptingPrefix(ls, policy, clock);
      BudgetShrinks(ls[..n], policy, clock);
      assert Retried(ls, policy, clock, n - 1);
      StepCostsOne(ls[n - 1], policy, clock, n - 1);
    }
  }

  lemma SpendsOne(l: Loop, policy: Policy, horizon: int)
    requires LoopOk(l, policy) && policy.openMs > 0
    ensures Budget(l, policy, horizon) >= 1
  {
    assert UpstreamOk(RoutePool(l)[l.route], policy);
    ChancesOfMember(RoutePool(l), l.route, policy, horizon);
  }

  lemma {:induction false} ChancesOfMember(s: Pool, i: nat, policy: Policy, horizon: int)
    requires i < |s|
    ensures TotalChances(s, policy, horizon) >= Chances(s[i], policy, horizon)
  {
    if i < |s| - 1 { ChancesOfMember(s[..|s| - 1], i, policy, horizon); }
  }

  lemma BudgetBound(l: Loop, policy: Policy, horizon: int)
    requires policy.failureThreshold > 0
    ensures Budget(l, policy, horizon) <= policy.failureThreshold * (|l.primary| + |l.fallback|)
  {
    ChancesBound(l.primary, policy, horizon);
    ChancesBound(l.fallback, policy, horizon);
    assert policy.failureThreshold * (|l.primary| + |l.fallback|)
        == policy.failureThreshold * |l.primary| + policy.failureThreshold * |l.fallback|;
  }

  lemma PositiveThreshold(l: Loop, policy: Policy)
    requires LoopOk(l, policy)
    ensures policy.failureThreshold > 0
  {
  }

  // Main result: however often the request bounces between primaries and back from the fallback pool, it makes at
  // most threshold attempts an upstream.
  lemma AttemptsAreBounded(ls: seq<Loop>, policy: Policy, clock: nat -> int)
    requires Attempting(ls, policy, clock) && Prompt(policy, clock)
    ensures |ls| <= policy.failureThreshold * (|ls[0].primary| + |ls[0].fallback|)
  {
    hide LoopOk, Budget;
    var horizon := clock(0) + policy.openMs;
    assert policy.openMs > 0 by { assert clock(0) <= clock(0) < horizon; }
    BudgetShrinks(ls, policy, clock);
    PositiveThreshold(ls[0], policy);
    SpendsOne(ls[|ls| - 1], policy, horizon);
    BudgetBound(ls[0], policy, horizon);
  }

  // The primary to attempt next: the one its rotation offers, unless it is the one that failed.
  predicate PrimaryFollows(l: Loop, first: int, i: nat) {
    i < |l.primary| && Offered(l.primary, first, i) && (l.fromFallback || i != l.route)
  }

  // The fallback to attempt next: the one its pool offers, after a failed primary and without another primary.
  predicate FallbackFollows(l: Loop, first: int, second: int, j: nat) {
    && !l.fromFallback && j < |l.fallback| && Offered(l.fallback, second, j)
    && forall i :: 0 <= i < |l.primary| ==> !PrimaryFollows(l, first, i)
  }

  // The loop goes on with this upstream.
  predicate GoesTo(next: (Loop, bool), fromFallback: bool, i: nat) {
    next.1 && next.0.fromFallback == fromFallback && next.0.route == i
  }

  lemma NextRouteIs(l: Loop, first: int, second: int)
    ensures forall i: nat :: GoesTo(NextRoute(l, first, second), false, i) <==> PrimaryFollows(l, first, i)
    ensures forall j: nat :: GoesTo(NextRoute(l, first, second), true, j) <==> FallbackFollows(l, first, second, j)
  {
    hide Next, Offered;
    OffersOne(l.primary, first);
    OffersOne(l.fallback, second);
    var pick := Next(l.primary, first).1;
    if pick.Some? && (l.fromFallback || pick.value != l.route) { assert PrimaryFollows(l, first, pick.value); }
  }

  lemma OffersOne(s: Pool, now: int)
    ensures forall i: nat :: Next(s, now).1 == Some(i) <==> i < |s| && Offered(s, now, i)
  {
    hide Next, Offered;
    SelectionInRange(s, now);
    forall i | 0 <= i < |s| ensures Next(s, now).1 == Some(i) <==> Offered(s, now, i) { OfferedExactly(s, now, i); }
  }

  lemma SelectionInRange(s: Pool, now: int)
    ensures Next(s, now).1.Some? ==> Next(s, now).1.value < |s|
  {
    SelectionIsEligible(s, now);
  }

  // Main result on order: after a failed attempt the next one goes to another primary exactly when the rotation offers
  // it, and to a fallback exactly when a primary failed, no other primary is offered, and the fallback pool offers it.
  lemma ComesNextExactly(l: Loop, policy: Policy, clock: nat -> int, k: nat)
    requires l.route < |RoutePool(l)|
    ensures var m := Marked(l, policy, clock(3 * k)); var next := Step(l, policy, clock, k);
      && (forall i: nat :: GoesTo(next, false, i) <==> PrimaryFollows(m, clock(3 * k + 1), i))
      && (forall j: nat :: GoesTo(next, true, j) <==> FallbackFollows(m, clock(3 * k + 1), clock(3 * k + 2), j))
  {
    hide NextRoute, PrimaryFollows, FallbackFollows;
    NextRouteIs(Marked(l, policy, clock(3 * k)), clock(3 * k + 1), clock(3 * k + 2));
  }

  lemma MarkedSameRoute(l: Loop, policy: Policy, now: int)
    requires l.route < |RoutePool(l)|
    ensures Marked(l, policy, now).route == l.route && Marked(l, policy, now).fromFallback == l.fromFallback
  {
  }

  // The loop gives up exactly when the rotation offers the upstream that just failed or none is eligible, and no
  // fallback may be asked or is eligible.
  lemma GivesUpExactly(l: Loop, policy: Policy, clock: nat -> int, k: nat)
    requires l.route < |RoutePool(l)|
    ensures var m := Marked(l, policy, clock(3 * k));
      !Step(l, policy, clock, k).1 <==>
        && ((!l.fromFallback && l.route < |m.primary| && Offered(m.primary, clock(3 * k + 1), l.route))
            || NoneEligible(m.primary, clock(3 * k + 1)))
        && (l.fromFallback || NoneEligible(m.fallback, clock(3 * k + 2)))
  {
    hide Next, Eligible, Marked, Offered;
    var m := Marked(l, policy, clock(3 * k));
    MarkedSameRoute(l, policy, clock(3 * k));
    SelectionIsEligible(m.primary, clock(3 * k + 1));
    SelectionIsEligible(m.fallback, clock(3 * k + 2));
    if l.route < |m.primary| { OfferedExactly(m.primary, clock(3 * k + 1), l.route); }
  }

  predicate NoneEligible(s: Pool, now: int) {
    forall i :: 0 <= i < |s| ==> !Eligible(s[i], now)
  }

  // Some primary other than the one that failed could serve the request.
  predicate SiblingEligible(l: Loop, now: int) {
    exists i :: 0 <= i < |l.primary| && i != l.route && Eligible(l.primary[i], now)
  }

  // A request whose primary failed gives up although another primary could serve it exactly when the rotation
  // offers the one that failed again and no fallback is eligible.
  lemma PassesOverExactly(l: Loop, policy: Policy, clock: nat -> int, k: nat)
    requires LoopOk(l, policy) && Prompt(policy, clock) && !l.fromFallback
    ensures var m := Marked(l, policy, clock(3 * k)); var now := clock(3 * k + 1);
      !Step(l, policy, clock, k).1 && SiblingEligible(m, now) <==>
        && SiblingEligible(m, now) && NoneEligible(m.fallback, clock(3 * k + 2))
        && l.route < |m.primary| && OfferedAgain(m.primary, now, l.route)
  {
    hide Next, Eligible, PoolOk, Offered;
    var m := Marked(l, policy, clock(3 * k));
    var now := clock(3 * k + 1);
    GivesUpExactly(l, policy, clock, k);
    FailedHasNoTrial(l, policy, clock, k);
    OfferedAgainExactly(m.primary, now, l.route);
  }

  // The failed upstream is still available, no trial waits, and its advanced weight wins.
  predicate OfferedAgain(s: Pool, now: int, i: nat)
    requires i < |s|
  {
    && s[i].state == Healthy && s[i].activeHealthy && !s[i].draining
    && (forall j :: 0 <= j < |s| ==> !TrialWaits(s[j], now))
    && (forall j :: 0 <= j < i && Available(s[j]) ==> s[j].currentWeight + s[j].weight < s[i].currentWeight + s[i].weight)
    && forall j :: i < j < |s| && Available(s[j]) ==> s[j].currentWeight + s[j].weight <= s[i].currentWeight + s[i].weight
  }

  lemma OfferedAgainExactly(s: Pool, now: int, i: nat)
    requires i < |s| && !TrialWaits(s[i], now)
    ensures Offered(s, now, i) <==> OfferedAgain(s, now, i)
  {
  }

  // Within the cool-down the failed upstream is not offered as a trial.
  lemma FailedHasNoTrial(l: Loop, policy: Policy, clock: nat -> int, k: nat)
    requires LoopOk(l, policy) && Prompt(policy, clock) && !l.fromFallback
    ensures var m := Marked(l, policy, clock(3 * k));
      |m.primary| == |l.primary| && !TrialWaits(m.primary[l.route], clock(3 * k + 1))
  {
    hide PoolOk;
    assert clock(0) <= clock(3 * k) && clock(3 * k + 1) < clock(0) + policy.openMs;
  }

  // ---- The loop on live pools ----

  ghost predicate Disjoint(p: UpstreamPool, f: UpstreamPool) {
    forall i, j :: 0 <= i < |p.upstreams| && 0 <= j < |f.upstreams| ==> p.upstreams[i] != f.upstreams[j]
  }

  ghost predicate Separate(p: UpstreamPool, f: UpstreamPool) {
    p.Valid() && f.Valid() && Disjoint(p, f) && p.policy == f.policy
  }

  ghost predicate Shows(p: UpstreamPool, f: UpstreamPool, l: Loop)
    reads p.upstreams, f.upstreams
  {
    p.View() == l.primary && f.View() == l.fallback
  }

  ghost predicate Routes(p: UpstreamPool, f: UpstreamPool, route: LiveUpstream, l: Loop) {
    if l.fromFallback then l.route < |f.upstreams| && f.upstreams[l.route] == route
    else l.route < |p.upstreams| && p.upstreams[l.route] == route
  }

  lemma AttemptedStep(p: UpstreamPool, f: UpstreamPool, attempts: seq<LiveUpstream>, ls: seq<Loop>, next: LiveUpstream, l: Loop)
    requires Attempted(p, f, attempts, ls) && Routes(p, f, next, l)
    ensures Attempted(p, f, attempts + [next], ls + [l])
  {
  }

  lemma RouteInRange(l: Loop, policy: Policy)
    requires LoopOk(l, policy)
    ensures l.route < |RoutePool(l)|
  {
  }

  lemma FirstAttempt(p: UpstreamPool, f: UpstreamPool, initial: LiveUpstream, start: nat, clock: nat -> int)
    requires start < |p.upstreams| && p.upstreams[start] == initial
    requires LoopOk(Loop(p.View(), f.View(), start, false), p.policy)
    ensures var l := Loop(p.View(), f.View(), start, false);
      && Shows(p, f, l) && Routes(p, f, initial, l)
      && Attempted(p, f, [initial], [l]) && Attempting([l], p.policy, clock)
  {
  }

  ghost predicate Attempted(p: UpstreamPool, f: UpstreamPool, attempts: seq<LiveUpstream>, ls: seq<Loop>) {
    |attempts| == |ls| && forall k :: 0 <= k < |ls| ==> Routes(p, f, attempts[k], ls[k])
  }

  // What the last failure leaves: the pools after it, and no next route if retrying was allowed.
  ghost predicate Ended(p: UpstreamPool, f: UpstreamPool, ls: seq<Loop>, retryAllowed: bool, clock: nat -> int)
    reads p.upstreams, f.upstreams
  {
    && |ls| > 0 && ls[|ls| - 1].route < |RoutePool(ls[|ls| - 1])|
    && if retryAllowed then StopsAt(p, f, Step(ls[|ls| - 1], p.policy, clock, |ls| - 1))
       else |ls| == 1 && Shows(p, f, Marked(ls[0], p.policy, clock(0)))
  }

  ghost predicate StopsAt(p: UpstreamPool, f: UpstreamPool, end: (Loop, bool))
    reads p.upstreams, f.upstreams
  {
    !end.1 && Shows(p, f, end.0)
  }

  lemma EndsWithoutRetry(p: UpstreamPool, f: UpstreamPool, ls: seq<Loop>, clock: nat -> int)
    requires |ls| == 1 && ls[0].route < |RoutePool(ls[0])| && Shows(p, f, Marked(ls[0], p.policy, clock(0)))
    ensures Ended(p, f, ls, false, clock)
  {
  }

  lemma EndsWithoutRoute(p: UpstreamPool, f: UpstreamPool, ls: seq<Loop>, clock: nat -> int)
    requires |ls| > 0 && ls[|ls| - 1].route < |RoutePool(ls[|ls| - 1])|
    requires !Step(ls[|ls| - 1], p.policy, clock, |ls| - 1).1 && Shows(p, f, Step(ls[|ls| - 1], p.policy, clock, |ls| - 1).0)
    ensures Ended(p, f, ls, true, clock)
  {
  }

  // routes.markFailure: the failing route's own pool records the failure.
  method FailRoute(primary: UpstreamPool, fallback: UpstreamPool, route: LiveUpstream, fromFallback: bool, now: int,
                   ghost l: Loop)
    requires Separate(primary, fallback) && Shows(primary, fallback, l) && Routes(primary, fallback, route, l)
    requires fromFallback == l.fromFallback && l.route < |RoutePool(l)|
    modifies route
    ensures Shows(primary, fallback, Marked(l, primary.policy, now))
  {
    hide Failed;
    ghost var before, beside := primary.View(), fallback.View();
    if fromFallback {
      var _ := fallback.MarkFailure(route, now);
      assert primary.View() == before;
    } else {
      var _ := primary.MarkFailure(route, now);
      assert fallback.View() == beside;
    }
  }

  // The closure nextAttempt.
  method NextAttempt(primary: UpstreamPool, fallback: UpstreamPool, failed: LiveUpstream, fromFallback: bool,
                     first: int, second: int, ghost l: Loop)
    returns (route: LiveUpstream?, isFallback: bool)
    requires Separate(primary, fallback) && Shows(primary, fallback, l) && Routes(primary, fallback, failed, l)
    requires fromFallback == l.fromFallback
    modifies primary.upstreams, fallback.upstreams
    ensures var (m, more) := NextRoute(l, first, second);
      && Shows(primary, fallback, m)
      && (route != null <==> more)
      && (more ==> Routes(primary, fallback, route, m) && isFallback == m.fromFallback)
    ensures forall i :: 0 <= i < |primary.upstreams| ==>
      (route == primary.upstreams[i] <==> PrimaryFollows(l, first, i))
    ensures forall j :: 0 <= j < |fallback.upstreams| ==>
      (route == fallback.upstreams[j] <==> FallbackFollows(l, first, second, j))
  {
    hide Next, PrimaryFollows, FallbackFollows;
    NextRouteIs(l, first, second);
    ghost var beside := fallback.View();
    isFallback := false;
    route := primary.Next(first);
    assert fallback.View() == beside;
    ghost var pick := Upstreams.Next(l.primary, first).1;
    assert pick.Some? ==> (route == failed <==> !l.fromFallback && pick.value == l.route);
    if route != null && route != failed { return; }
    if fromFallback { return null, false; }
    isFallback := true;
    ghost var before := primary.View();
    route := fallback.Next(second);
    assert primary.View() == before;
  }

  // The closure attempt, when the k-th attempt fails: the failure is recorded, then the next route chosen.
  method AttemptFails(primary: UpstreamPool, fallback: UpstreamPool, route: LiveUpstream, fromFallback: bool,
                      retryAllowed: bool, clock: nat -> int, k: nat, ghost l: Loop)
    returns (next: LiveUpstream?, isFallback: bool)
    requires Separate(primary, fallback) && Shows(primary, fallback, l) && Routes(primary, fallback, route, l)
    requires fromFallback == l.fromFallback && l.route < |RoutePool(l)|
    modifies primary.upstreams, fallback.upstreams
    ensures !retryAllowed ==> next == null && Shows(primary, fallback, Marked(l, primary.policy, clock(3 * k)))
    ensures retryAllowed ==> var (m, more) := Step(l, primary.policy, clock, k);
      && Shows(primary, fallback, m) && (next != null <==> more)
      && (more ==> Routes(primary, fallback, next, m) && isFallback == m.fromFallback)
  {
    hide Shows, NextRoute;
    assert route in primary.upstreams || route in fallback.upstreams;
    FailRoute(primary, fallback, route, fromFallback, clock(3 * k), l);
    if !retryAllowed { return null, false; }
    next, isFallback := NextAttempt(primary, fallback, route, fromFallback, clock(3 * k + 1), clock(3 * k + 2),
                                    Marked(l, primary.policy, clock(3 * k)));
  }

  // How many of the first n attempts sent their request twice.
  function Repeats(repeated: nat -> bool, n: nat): (r: nat)
    ensures r <= n
  {
    if n == 0 then 0 else Repeats(repeated, n - 1) + if repeated(n - 1) then 1 else 0
  }

  // The upstreams one request attempts, in order. `clock` gives the successive clock readings; `repeated` says for
  // which attempts a connection error on an upstream of protocol "auto" has the request sent once more, over HTTP/1,
  // before the failure is recorded.
  method ServeFailing(primary: UpstreamPool, fallback: UpstreamPool, initial: LiveUpstream, ghost start: nat,
                      retryAllowed: bool, clock: nat -> int, repeated: nat -> bool)
    returns (attempts: seq<LiveUpstream>, requests: nat, ghost loops: seq<Loop>)
    requires Separate(primary, fallback) && Prompt(primary.policy, clock)
    requires start < |primary.upstreams| && primary.upstreams[start] == initial
    requires LoopOk(Loop(primary.View(), fallback.View(), start, false), primary.policy)
    modifies primary.upstreams, fallback.upstreams
    ensures Attempting(loops, primary.policy, clock) && Attempted(primary, fallback, attempts, loops)
    ensures loops[0] == Loop(old(primary.View()), old(fallback.View()), start, false)
    ensures Ended(primary, fallback, loops, retryAllowed, clock)
    ensures |attempts| <= primary.policy.failureThreshold * (|primary.upstreams| + |fallback.upstreams|)
    ensures requests == |attempts| + Repeats(repeated, |attempts|)
    ensures requests <= 2 * |attempts|
  {
    hide *;
    requests := 0;
    NoRepeats(repeated);
    ghost var first := Loop(primary.View(), fallback.View(), start, false);
    ghost var l := first;
    var route: LiveUpstream, fromFallback := initial, false;
    attempts, loops := [initial], [l];
    FirstAttempt(primary, fallback, initial, start, clock);
    while true
      invariant Shows(primary, fallback, l) && Routes(primary, fallback, route, l) && fromFallback == l.fromFallback
      invariant LoopOk(l, primary.policy) && Attempting(loops, primary.policy, clock)
      invariant Attempted(primary, fallback, attempts, loops)
      invariant |attempts| == |loops| > 0 && loops[|loops| - 1] == l && loops[0] == first
      invariant !retryAllowed ==> |loops| == 1
      invariant requests == |attempts| - 1 + Repeats(repeated, |attempts| - 1)
      decreases Budget(l, primary.policy, clock(0) + primary.policy.openMs)
    {
      ghost var k := |loops| - 1;
      AttemptsAreBounded(loops, primary.policy, clock);
      RouteInRange(l, primary.policy);
      StepCostsOne(l, primary.policy, clock, k);
      OneMoreRepeat(repeated, |attempts| - 1);
      requests := requests + if repeated(|attempts| - 1) then 2 else 1;
      var next, isFallback := AttemptFails(primary, fallback, route, fromFallback, retryAllowed, clock, |attempts| - 1, l);
      if next == null {
        if retryAllowed { EndsWithoutRoute(primary, fallback, loops, clock); } else { EndsWithoutRetry(primary, fallback, loops, clock); }
        return;
      }
      ghost var m := Step(l, primary.policy, clock, k).0;
      AttemptedStep(primary, fallback, attempts, loops, next, m);
      AttemptingStep(loops, primary.policy, clock);
      l, route, fromFallback := m, next, isFallback;
      attempts, loops := attempts + [route], loops + [l];
    }
  }

  lemma NoRepeats(repeated: nat -> bool)
    ensures Repeats(repeated, 0) == 0
  {
  }

  lemma OneMoreRepeat(repeated: nat -> bool, n: nat)
    ensures Repeats(repeated, n + 1) == Repeats(repeated, n) + if repeated(n) then 1 else 0
  {
  }

  // The rotation may offer the very upstream that just failed; the loop then passes over
  // a healthy sibling and, without a fallback, gives up.
  lemma SiblingPassedOver() returns (s: Pool, policy: Policy, selected: Pool, failed: Pool)
    ensures PoolOk(s, policy) && policy.failureThreshold > 0 && |s| == 2
    ensures Next(s, 0) == (selected, Some(0)) && |selected| == 2
    ensures failed == selected[0 := Failed(selected[0], policy, 0)]
    ensures Next(failed, 0).1 == Some(0) && Eligible(failed[1], 0)
  {
    s := [Fresh(5, 2, 2), Fresh(1, 2, 2)];
    policy := Policy(30000, 5);
    assert s[..1] == [Fresh(5, 2, 2)];
    assert WeightSum(s, false) == 0;
    var a := AdvanceAll(s);
    assert ExpireAll(s, 0) == s;
    assert a == [Fresh(5, 2, 2).(currentWeight := 5), Fresh(1, 2, 2).(currentWeight := 1)];
    assert a[..1] == [a[0]];
    assert Best(a) == Some(0);
    assert TotalWeight(s) == 6;
    selected := Next(s, 0).0;
    assert selected == [Fresh(5, 2, 2).(currentWeight := -1), Fresh(1, 2, 2).(currentWeight := 1)];
    failed := selected[0 := Failed(selected[0], policy, 0)];
    assert ExpireAll(failed, 0) == failed;
    var b := AdvanceAll(failed);
    assert b[..1] == [b[0]];
    assert b[0].currentWeight == 4 && b[1].currentWeight == 2;
    assert Best(b) == Some(0);
    assert Next(s, 0).1 == Some(0);
  }
}
