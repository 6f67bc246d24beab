// The DNS answer cache: bounded, time-limited, least recently touched out first.
module DnsCaching {
  import opened Wrappers

  type Wire = seq<bv8>

  datatype Entry = Entry(key: string, wire: Wire, expiresAt: int)

  datatype Limits = Limits(maxEntries: nat, minTtl: nat, maxTtl: nat)

  // Removing a key or the expired entries from a Map keeps the order of the others.
  function WithoutKey(es: seq<Entry>, key: string): (r: seq<Entry>)
    ensures forall e :: e in r <==> e in es && e.key != key
    ensures |r| <= |es|
  {
    if es == [] then []
    else WithoutKey(es[..|es| - 1], key) + if es[|es| - 1].key == key then [] else [es[|es| - 1]]
  }

  function Live(es: seq<Entry>, now: int): (r: seq<Entry>)
    ensures forall e :: e in r <==> e in es && e.expiresAt > now
    ensures |r| <= |es|
  {
    if es == [] then []
    else Live(es[..|es| - 1], now) + if es[|es| - 1].expiresAt <= now then [] else [es[|es| - 1]]
  }

  function Newest(es: seq<Entry>, maxEntries: nat): seq<Entry> {
    if |es| > maxEntries then es[|es| - maxEntries..] else es
  }

  function Find(es: seq<Entry>, key: string): (r: Option<Entry>)
    ensures r.Some? ==> r.value in es && r.value.key == key
    ensures r.None? ==> forall e :: e in es ==> e.key != key
  {
    if es == [] then None
    else if es[|es| - 1].key == key then Some(es[|es| - 1])
    else Find(es[..|es| - 1], key)
  }

  // The lifetime put on an answer: none for a failure or a non-positive TTL, otherwise the bounded TTL in ms.
  function Lifetime(limits: Limits, ttl: real, successful: bool): (r: Option<int>)
    ensures r.Some? <==> successful && ttl > 0.0 && limits.maxTtl > 0
    ensures r.Some? ==> 0 <= r.value <= limits.maxTtl * 1000
  {
    if !successful || ttl <= 0.0 then None
    else
      var raised := if ttl < limits.minTtl as real then limits.minTtl as real else ttl;
      var bounded := if raised > limits.maxTtl as real then limits.maxTtl as real else raised;
      if bounded <= 0.0 then None else Some((bounded * 1000.0).Floor)
  }

  // The TTL counts within its bounds, in whole milliseconds.
  lemma LifetimeExactly(limits: Limits, ttl: real)
    requires limits.minTtl <= limits.maxTtl && ttl > 0.0 && limits.maxTtl > 0
    ensures Lifetime(limits, ttl, true).Some?
    ensures var lifetime := Lifetime(limits, ttl, true).value;
      && (ttl < limits.minTtl as real ==> lifetime == limits.minTtl * 1000)
      && (ttl > limits.maxTtl as real ==> lifetime == limits.maxTtl * 1000)
      && (limits.minTtl as real <= ttl <= limits.maxTtl as real ==>
            lifetime as real <= ttl * 1000.0 < lifetime as real + 1.0)
  {
  }

  function Got(es: seq<Entry>, key: string, now: int): (seq<Entry>, Option<Wire>) {
    match Find(es, key)
    case None => (es, None)
    case Some(e) =>
      if e.expiresAt <= now then (WithoutKey(es, key), None)
      else (WithoutKey(es, key) + [e], Some(e.wire))
  }

  // `now` and `later` are the two clock readings one set() makes.
  function WasSet(limits: Limits, es: seq<Entry>, key: string, wire: Wire, lifetime: int, now: int, later: int): seq<Entry> {
    Newest(Live(WithoutKey(es, key) + [Entry(key, wire, now + lifetime)], later), limits.maxEntries)
  }

  lemma {:induction false} LiveKeepsLast(es: seq<Entry>, e: Entry, now: int)
    ensures Live(es + [e], now) == Live(es, now) + if e.expiresAt > now then [e] else []
  {
    assert (es + [e])[..|es|] == es;
  }

  // What was set is what a get finds, until its deadline and no longer.
  lemma SetThenGet(limits: Limits, es: seq<Entry>, key: string, wire: Wire, lifetime: int, now: int, later: int, time: int)
    requires limits.maxEntries >= 1 && later <= time
    ensures Got(WasSet(limits, es, key, wire, lifetime, now, later), key, time).1 ==
      if time < now + lifetime then Some(wire) else None
  {
    hide Live, WithoutKey;
    var e := Entry(key, wire, now + lifetime);
    var kept := WithoutKey(es, key);
    LiveKeepsLast(kept, e, later);
    var after := WasSet(limits, es, key, wire, lifetime, now, later);
    if e.expiresAt > later {
      assert after[|after| - 1] == e;
    } else {
      forall x | x in after ensures x.key != key { assert x in Live(kept, later); }
    }
  }

  // After a set nothing has expired, what was set is youngest if it has not, and everything else that has not
  // expired is still there unless the bound is reached.
  lemma SetLeaves(limits: Limits, es: seq<Entry>, key: string, wire: Wire, lifetime: int, now: int, later: int)
    requires limits.maxEntries >= 1
    ensures var e := Entry(key, wire, now + lifetime); var after := WasSet(limits, es, key, wire, lifetime, now, later);
      && |after| <= limits.maxEntries
      && (forall x :: x in after ==> x.expiresAt > later && (x == e || (x in es && x.key != key)))
      && (e.expiresAt > later ==> after != [] && after[|after| - 1] == e)
      && (|after| < limits.maxEntries ==> forall x :: x in es && x.key != key && x.expiresAt > later ==> x in after)
  {
    hide Live, WithoutKey;
    var e := Entry(key, wire, now + lifetime);
    var live := Live(WithoutKey(es, key) + [e], later);
    LiveKeepsLast(WithoutKey(es, key), e, later);
    NewestIsPart(live, limits.maxEntries);
  }

  lemma NewestIsPart(es: seq<Entry>, maxEntries: nat)
    ensures var r := Newest(es, maxEntries);
      && |r| <= maxEntries && (forall x :: x in r ==> x in es) && (|r| < maxEntries ==> r == es)
      && (es != [] && maxEntries > 0 ==> r != [] && r[|r| - 1] == es[|es| - 1])
  {
  }

  class DnsCache {
    const limits: Limits
    var entries: seq<Entry>

    constructor (limits: Limits)
      requires limits.maxEntries >= 1 && limits.minTtl <= limits.maxTtl
      ensures entries == [] && this.limits == limits
    {
      this.limits, entries := limits, [];
    }

    method Get(key: string, now: int) returns (hit: Option<Wire>)
      modifies this
      ensures (entries, hit) == Got(old(entries), key, now)
    {
      var entry := Find(entries, key);
      if entry.None? { return None; }
      if entry.value.expiresAt <= now {
        entries := WithoutKey(entries, key);
        return None;
      }
      entries := WithoutKey(entries, key);
      entries := entries + [entry.value];
      return Some(entry.value.wire);
    }

    method Set(key: string, wire: Wire, ttl: real, successful: bool, now: int, later: int)
      modifies this
      ensures var lifetime := Lifetime(limits, ttl, successful);
        entries == if lifetime.None? then old(entries) else WasSet(limits, old(entries), key, wire, lifetime.value, now, later)
    {
      hide Lifetime, Live, WithoutKey, Newest;
      var lifetime := Lifetime(limits, ttl, successful);
      if lifetime.None? { return; }
      entries := WithoutKey(entries, key);
      entries := entries + [Entry(key, wire, now + lifetime.value)];
      RemoveExpired(later);
      TrimToLimit();
    }

    method TrimToLimit()
      modifies this
      ensures entries == Newest(old(entries), limits.maxEntries)
    {
      while |entries| > limits.maxEntries
        invariant Newest(entries, limits.maxEntries) == Newest(old(entries), limits.maxEntries)
      {
        entries := entries[1..];
      }
    }

    method RemoveExpired(now: int)
      modifies this
      ensures entries == Live(old(entries), now)
    {
      var kept := [];
      for i := 0 to |entries|
        invariant entries == old(entries) && kept == Live(entries[..i], now)
      {
        assert entries[..i + 1][..i] == entries[..i];
        if entries[i].expiresAt > now { kept := kept + [entries[i]]; }
      }
      assert entries[..|entries|] == entries;
      entries := kept;
    }

    method Clear()
      modifies this
      ensures entries == []
    {
      entries := [];
    }
  }

  // ---- Runs against an unbounded map ----

  datatype Op =
    | OpGet(key: string, now: int)
    | OpSet(key: string, wire: Wire, ttl: real, successful: bool, now: int, later: int)
    | OpClear

  function Apply(limits: Limits, es: seq<Entry>, op: Op): seq<Entry> {
    match op
    case OpGet(key, now) => Got(es, key, now).0
    case OpSet(key, wire, ttl, successful, now, later) => (
      var lifetime := Lifetime(limits, ttl, successful);
      if lifetime.None? then es else WasSet(limits, es, key, wire, lifetime.value, now, later))
    case OpClear => []
  }

  function Run(limits: Limits, es: seq<Entry>, ops: seq<Op>): seq<Entry>
    decreases |ops|
  {
    if ops == [] then es else Run(limits, Apply(limits, es, ops[0]), ops[1..])
  }

  // The map that forgets nothing: for each key the last answer set, with its deadline.
  function Reference(limits: Limits, ops: seq<Op>): map<string, Entry> {
    if ops == [] then map[]
    else
      var before := Reference(limits, ops[..|ops| - 1]);
      match ops[|ops| - 1]
      case OpSet(key, wire, ttl, successful, now, _) => (
        var lifetime := Lifetime(limits, ttl, successful);
        if lifetime.None? then before else before[key := Entry(key, wire, now + lifetime.value)])
      case _ => before
  }

  ghost predicate DistinctKeys(es: seq<Entry>) {
    forall i, j :: 0 <= i < j < |es| ==> es[i].key != es[j].key
  }

  // Every cached entry is the reference map's entry for its key.
  ghost predicate Agrees(es: seq<Entry>, reference: map<string, Entry>) {
    DistinctKeys(es) && forall e :: e in es ==> e.key in reference && reference[e.key] == e
  }

  lemma {:induction false} WithoutKeyDistinct(es: seq<Entry>, key: string)
    requires DistinctKeys(es)
    ensures DistinctKeys(WithoutKey(es, key))
  {
    if es != [] {
      var front := WithoutKey(es[..|es| - 1], key);
      WithoutKeyDistinct(es[..|es| - 1], key);
      forall i | 0 <= i < |front| ensures front[i].key != es[|es| - 1].key {
        assert front[i] in es[..|es| - 1];
      }
    }
  }

  lemma {:induction false} LiveDistinct(es: seq<Entry>, now: int)
    requires DistinctKeys(es)
    ensures DistinctKeys(Live(es, now))
  {
    if es != [] {
      var front := Live(es[..|es| - 1], now);
      LiveDistinct(es[..|es| - 1], now);
      forall i | 0 <= i < |front| ensures front[i].key != es[|es| - 1].key {
        assert front[i] in es[..|es| - 1];
      }
    }
  }

  lemma AppendDistinct(es: seq<Entry>, e: Entry)
    requires DistinctKeys(es)
    ensures DistinctKeys(WithoutKey(es, e.key) + [e])
  {
    WithoutKeyDistinct(es, e.key);
    var kept := WithoutKey(es, e.key);
    forall i | 0 <= i < |kept| ensures kept[i].key != e.key { assert kept[i] in kept; }
  }

  lemma GetAgrees(es: seq<Entry>, key: string, now: int, reference: map<string, Entry>)
    requires Agrees(es, reference)
    ensures Agrees(Got(es, key, now).0, reference)
  {
    WithoutKeyDistinct(es, key);
    var found := Find(es, key);
    if found.Some? { AppendDistinct(es, found.value); }
  }

  lemma SetAgrees(limits: Limits, es: seq<Entry>, e: Entry, later: int, reference: map<string, Entry>)
    requires Agrees(es, reference)
    ensures var r := Newest(Live(WithoutKey(es, e.key) + [e], later), limits.maxEntries);
      Agrees(r, reference[e.key := e]) && |r| <= limits.maxEntries
  {
    var appended := WithoutKey(es, e.key) + [e];
    AppendDistinct(es, e);
    LiveDistinct(appended, later);
    var live := Live(appended, later);
    var r := Newest(live, limits.maxEntries);
    forall x | x in r ensures x.key in reference[e.key := e] && reference[e.key := e][x.key] == x {
      assert x in live;
    }
  }

  lemma ApplyAgrees(limits: Limits, es: seq<Entry>, ops: seq<Op>, op: Op)
    requires Agrees(es, Reference(limits, ops)) && |es| <= limits.maxEntries
    ensures Agrees(Apply(limits, es, op), Reference(limits, ops + [op]))
    ensures |Apply(limits, es, op)| <= limits.maxEntries
  {
    hide Lifetime, Agrees, Live, WithoutKey, Newest;
    assert (ops + [op])[..|ops|] == ops;
    match op {
      case OpGet(key, now) =>
        GetAgrees(es, key, now, Reference(limits, ops));
        GetKeepsSize(es, key, now);
      case OpSet(key, wire, ttl, successful, now, later) =>
        var lifetime := Lifetime(limits, ttl, successful);
        if lifetime.Some? { SetAgrees(limits, es, Entry(key, wire, now + lifetime.value), later, Reference(limits, ops)); }
      case OpClear =>
        assert Agrees([], Reference(limits, ops)) by { EmptyAgrees(Reference(limits, ops)); }
    }
  }

  lemma EmptyAgrees(reference: map<string, Entry>)
    ensures Agrees([], reference)
  {
  }

  lemma {:induction false} RunSplit(limits: Limits, es: seq<Entry>, ops: seq<Op>, op: Op)
    ensures Run(limits, es, ops + [op]) == Apply(limits, Run(limits, es, ops), op)
    decreases |ops|
  {
    if ops == [] {
      assert ([op])[1..] == [];
      assert ops + [op] == [op];
    } else {
      assert (ops + [op])[1..] == ops[1..] + [op];
      RunSplit(limits, Apply(limits, es, ops[0]), ops[1..], op);
    }
  }

  lemma {:induction false} RunAgrees(limits: Limits, ops: seq<Op>)
    ensures Agrees(Run(limits, [], ops), Reference(limits, ops))
    ensures |Run(limits, [], ops)| <= limits.maxEntries
  {
    if ops != [] {
      var n := |ops| - 1;
      RunAgrees(limits, ops[..n]);
      assert ops == ops[..n] + [ops[n]];
      RunSplit(limits, [], ops[..n], ops[n]);
      var es := Run(limits, [], ops[..n]);
      ApplyAgrees(limits, es, ops[..n], ops[n]);
    }
  }

  lemma {:induction false} WithoutKeySize(es: seq<Entry>, key: string)
    requires Find(es, key).Some?
    ensures |WithoutKey(es, key)| < |es|
  {
    if es[|es| - 1].key != key { WithoutKeySize(es[..|es| - 1], key); }
  }

  lemma GetKeepsSize(es: seq<Entry>, key: string, now: int)
    ensures |Got(es, key, now).0| <= |es|
  {
    if Find(es, key).Some? { WithoutKeySize(es, key); }
  }

  // Every hit returns the bytes last set for its key, before their deadline; the bound always holds.
  lemma HitIsLastSet(limits: Limits, ops: seq<Op>, key: string, now: int)
    ensures var reference := Reference(limits, ops); var (_, hit) := Got(Run(limits, [], ops), key, now);
      hit.Some? ==> key in reference && reference[key].expiresAt > now && reference[key].wire == hit.value
    ensures |Run(limits, [], ops)| <= limits.maxEntries
  {
    RunAgrees(limits, ops);
  }

  // ---- Retention ----

  // The keys an operation touches, that is, moves to the young end: a hit or an effective set.
  function Touched(limits: Limits, es: seq<Entry>, op: Op): set<string> {
    match op
    case OpGet(key, now) => if Got(es, key, now).1.Some? then {key} else {}
    case OpSet(key, _, ttl, successful, _, _) => if Lifetime(limits, ttl, successful).Some? then {key} else {}
    case OpClear => {}
  }

  function TouchedByAll(limits: Limits, es: seq<Entry>, ops: seq<Op>): set<string>
    decreases |ops|
  {
    if ops == [] then {} else Touched(limits, es, ops[0]) + TouchedByAll(limits, Apply(limits, es, ops[0]), ops[1..])
  }

  // e is cached and everything younger has a key among `younger`.
  ghost predicate Held(es: seq<Entry>, e: Entry, younger: set<string>) {
    DistinctKeys(es) && exists i :: HeldAt(es, e, younger, i)
  }

  ghost predicate HeldAt(es: seq<Entry>, e: Entry, younger: set<string>, i: int) {
    0 <= i < |es| && es[i] == e && forall j :: i < j < |es| ==> es[j].key in younger
  }

  lemma {:induction false} WithoutOtherHolds(es: seq<Entry>, e: Entry, younger: set<string>, key: string)
    requires Held(es, e, younger) && key != e.key
    ensures Held(WithoutKey(es, key), e, younger)
  {
    WithoutKeyDistinct(es, key);
    var n := |es| - 1;
    var i :| HeldAt(es, e, younger, i);
    var r := WithoutKey(es, key);
    if i == n {
      assert HeldAt(r, e, younger, |r| - 1);
    } else {
      assert HeldAt(es[..n], e, younger, i);
      WithoutOtherHolds(es[..n], e, younger, key);
      var k :| HeldAt(WithoutKey(es[..n], key), e, younger, k);
      assert HeldAt(r, e, younger, k);
    }
  }

  lemma {:induction false} LiveHolds(es: seq<Entry>, e: Entry, younger: set<string>, now: int)
    requires Held(es, e, younger) && e.expiresAt > now
    ensures Held(Live(es, now), e, younger)
  {
    LiveDistinct(es, now);
    var n := |es| - 1;
    var i :| HeldAt(es, e, younger, i);
    var r := Live(es, now);
    if i == n {
      assert HeldAt(r, e, younger, |r| - 1);
    } else {
      assert HeldAt(es[..n], e, younger, i);
      LiveHolds(es[..n], e, younger, now);
      var k :| HeldAt(Live(es[..n], now), e, younger, k);
      assert HeldAt(r, e, younger, k);
    }
  }

  lemma AppendHolds(es: seq<Entry>, e: Entry, younger: set<string>, x: Entry)
    requires Held(es, e, younger) && x.key != e.key
    ensures Held(WithoutKey(es, x.key) + [x], e, younger + {x.key})
  {
    WithoutOtherHolds(es, e, younger, x.key);
    AppendDistinct(es, x);
    var kept := WithoutKey(es, x.key);
    HeldExtends(kept, e, younger, x);
  }

  lemma HeldExtends(es: seq<Entry>, e: Entry, younger: set<string>, x: Entry)
    requires Held(es, e, younger) && DistinctKeys(es + [x])
    ensures Held(es + [x], e, younger + {x.key})
  {
    var i :| HeldAt(es, e, younger, i);
    assert HeldAt(es + [x], e, younger + {x.key}, i);
  }

  lemma {:induction false} DistinctFitInSet(es: seq<Entry>, keys: set<string>)
    requires DistinctKeys(es) && forall e :: e in es ==> e.key in keys
    ensures |es| <= |keys|
  {
    if es != [] {
      var n := |es| - 1;
      forall e | e in es[..n] ensures e.key in keys - {es[n].key} {
        assert e in es;
      }
      assert es[n] in es;
      DistinctFitInSet(es[..n], keys - {es[n].key});
    }
  }

  lemma NewestHolds(es: seq<Entry>, e: Entry, younger: set<string>, maxEntries: nat)
    requires Held(es, e, younger) && |younger| < maxEntries
    ensures Held(Newest(es, maxEntries), e, younger)
  {
    var i :| HeldAt(es, e, younger, i);
    DistinctFitInSet(es[i + 1..], younger);
    if |es| > maxEntries { assert HeldAt(Newest(es, maxEntries), e, younger, i - (|es| - maxEntries)); }
  }

  lemma ApplyHolds(limits: Limits, es: seq<Entry>, e: Entry, younger: set<string>, op: Op)
    requires Held(es, e, younger) && !op.OpClear? && op.key != e.key
    requires op.OpSet? ==> op.later < e.expiresAt
    requires |younger + Touched(limits, es, op)| < limits.maxEntries
    ensures Held(Apply(limits, es, op), e, younger + Touched(limits, es, op))
  {
    hide Lifetime, Held, Live, WithoutKey, Newest, Find;
    match op {
      case OpGet(key, now) => GetHolds(es, e, younger, key, now);
      case OpSet(key, wire, ttl, successful, now, later) =>
        assert younger + {} == younger;
        var lifetime := Lifetime(limits, ttl, successful);
        if lifetime.Some? {
          var x := Entry(key, wire, now + lifetime.value);
          AppendHolds(es, e, younger, x);
          LiveHolds(WithoutKey(es, key) + [x], e, younger + {key}, later);
          NewestHolds(Live(WithoutKey(es, key) + [x], later), e, younger + {key}, limits.maxEntries);
        }
    }
  }

  lemma GetHolds(es: seq<Entry>, e: Entry, younger: set<string>, key: string, now: int)
    requires Held(es, e, younger) && key != e.key
    ensures var (r, hit) := Got(es, key, now); Held(r, e, younger + if hit.Some? then {key} else {})
  {
    hide Held, WithoutKey;
    var found := Find(es, key);
    assert younger + {} == younger;
    if found.Some? {
      if found.value.expiresAt <= now { WithoutOtherHolds(es, e, younger, key); }
      else { AppendHolds(es, e, younger, found.value); }
    }
  }

  lemma SubsetSize(a: set<string>, b: set<string>)
    requires a <= b
    ensures |a| <= |b|
  {
    assert b == a + (b - a);
  }

  lemma {:induction false} RunHolds(limits: Limits, es: seq<Entry>, e: Entry, younger: set<string>, ops: seq<Op>)
    requires Held(es, e, younger)
    requires forall k :: 0 <= k < |ops| ==> !ops[k].OpClear? && ops[k].key != e.key
    requires forall k :: 0 <= k < |ops| && ops[k].OpSet? ==> ops[k].later < e.expiresAt
    requires |younger + TouchedByAll(limits, es, ops)| < limits.maxEntries
    ensures e in Run(limits, es, ops) && DistinctKeys(Run(limits, es, ops))
    decreases |ops|
  {
    if ops == [] {
      var i :| HeldAt(es, e, younger, i);
    } else {
      var touched := Touched(limits, es, ops[0]);
      var rest := TouchedByAll(limits, Apply(limits, es, ops[0]), ops[1..]);
      SubsetSize(younger + touched, younger + TouchedByAll(limits, es, ops));
      assert younger + touched + rest == younger + TouchedByAll(limits, es, ops);
      ApplyHolds(limits, es, e, younger, ops[0]);
      RunHolds(limits, Apply(limits, es, ops[0]), e, younger + touched, ops[1..]);
    }
  }

  lemma {:induction false} FindsMember(es: seq<Entry>, e: Entry)
    requires DistinctKeys(es) && e in es
    ensures Find(es, e.key) == Some(e)
  {
    var found := Find(es, e.key);
    var i :| 0 <= i < |es| && es[i] == e;
    var j :| 0 <= j < |es| && es[j] == found.value;
  }

  // Main result: a key just touched still hits, with its bytes, as long as it has not expired and fewer than
  // maxEntries distinct other keys were touched since.
  lemma UnexpiredKeyIsRetained(limits: Limits, es: seq<Entry>, e: Entry, ops: seq<Op>, now: int)
    requires es != [] && es[|es| - 1] == e && DistinctKeys(es)
    requires forall k :: 0 <= k < |ops| ==> !ops[k].OpClear? && ops[k].key != e.key
    requires forall k :: 0 <= k < |ops| && ops[k].OpSet? ==> ops[k].later <= now
    requires now < e.expiresAt && |TouchedByAll(limits, es, ops)| < limits.maxEntries
    ensures Got(Run(limits, es, ops), e.key, now).1 == Some(e.wire)
  {
    assert HeldAt(es, e, {}, |es| - 1);
    assert {} + TouchedByAll(limits, es, ops) == TouchedByAll(limits, es, ops);
    RunHolds(limits, es, e, {}, ops);
    FindsMember(Run(limits, es, ops), e);
  }
}
