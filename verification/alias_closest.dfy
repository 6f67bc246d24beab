// Which name answers for another: the nearest zone cut, and the closest wildcard.
module AliasClosest {
  import opened Wrappers
  import opened Text
  import opened Names
  import opened AliasData

  // ---- The nearest cut ----

  // A name with name servers between this one and the apex, the apex excluded.
  predicate Cut(store: Store, name: string, zone: string, d: string) {
    Under(name, d) && Under(d, zone) && d != zone && OfType(At(store, d), NS) != []
  }

  lemma {:induction false} FirstDotIsFirst(s: string)
    ensures FirstDot(s).None? ==> Lacks(s, '.')
    ensures FirstDot(s).Some? ==> forall i :: 0 <= i < FirstDot(s).value ==> s[i] != '.'
  {
    if s != [] && s[0] != '.' { FirstDotIsFirst(s[1..]); }
  }

  // What a name lies under, other than itself, it also lies under without its first label.
  lemma WithoutFirstLabel(name: string, d: string)
    requires Under(name, d) && d != name
    ensures FirstDot(name).Some? && Under(name[FirstDot(name).value + 1..], d)
  {
    hide FirstDot;
    FirstDotIsFirst(name);
    UnderByIndex(name, d);
    var at := |name| - |d| - 1;
    assert name[at] == '.';
    var rest := name[FirstDot(name).value + 1..];
    UnderByIndex(rest, d);
    assert rest[|rest| - |d|..] == name[|name| - |d|..];
    assert |rest| > |d| ==> rest[|rest| - |d| - 1] == name[at];
  }

  lemma FirstLabelOff(name: string)
    requires FirstDot(name).Some?
    ensures Under(name, name[FirstDot(name).value + 1..])
  {
    hide FirstDot;
    var dot := FirstDot(name).value;
    UnderByIndex(name, name[dot + 1..]);
  }

  // A delegation answers with the name servers of the nearest cut, and with none exactly when there is no cut.
  lemma {:induction false} DelegationIsNearestCut(store: Store, name: string, zone: string)
    requires Under(name, zone)
    ensures Delegation(store, name, zone) == [] <==> forall d :: !Cut(store, name, zone, d)
    ensures Delegation(store, name, zone) != [] ==> exists d :: NearestCut(store, name, zone, d)
    decreases |name|
  {
    hide Under, OfType, FirstDot;
    var servers := OfType(At(store, name), NS);
    if name == zone {
      forall d ensures !Cut(store, name, zone, d) {
        if Under(zone, d) && Under(d, zone) { UnderBothWays(zone, d); }
      }
    } else {
      UnderItself(name);
      forall d | Cut(store, name, zone, d) ensures |d| <= |name| { UnderByIndex(name, d); }
      if servers != [] {
        assert Cut(store, name, zone, name);
        assert NearestCut(store, name, zone, name);
      } else {
        WithoutFirstLabel(name, zone);
        FirstLabelOff(name);
        var rest := name[FirstDot(name).value + 1..];
        forall d ensures Cut(store, name, zone, d) <==> Cut(store, rest, zone, d) {
          if Cut(store, name, zone, d) { WithoutFirstLabel(name, d); }
          if Cut(store, rest, zone, d) { UnderTransitive(name, rest, d); }
        }
        DelegationIsNearestCut(store, rest, zone);
        if Delegation(store, rest, zone) != [] {
          var d :| NearestCut(store, rest, zone, d);
          assert NearestCut(store, name, zone, d);
        }
      }
    }
  }

  ghost predicate NearestCut(store: Store, name: string, zone: string, d: string) {
    && Cut(store, name, zone, d) && Delegation(store, name, zone) == OfType(At(store, d), NS)
    && forall e :: Cut(store, name, zone, e) ==> |e| <= |d|
  }

  lemma UnderBothWays(a: string, b: string)
    requires Under(a, b) && Under(b, a)
    ensures a == b
  {
    UnderByIndex(a, b);
    UnderByIndex(b, a);
  }

  // ---- Ancestors ----

  function Ancestor(name: string, k: nat): string
    requires k < |Labels(name)|
  {
    Join(Labels(name)[k..], '.')
  }

  lemma AncestorIsAbove(name: string, k: nat)
    requires k < |Labels(name)|
    ensures Under(name, Ancestor(name, k))
    ensures k > 0 ==> |Ancestor(name, k)| < |name|
  {
    hide Split, Join, Under;
    var ls := Labels(name);
    JoinOfSplit(name, '.');
    if k == 0 {
      assert ls[0..] == ls;
      UnderItself(name);
    } else {
      assert ls == ls[..k] + ls[k..];
      JoinConcat(ls[..k], ls[k..], '.');
      UnderByIndex(name, Ancestor(name, k));
    }
  }

  lemma AncestorOf(name: string, d: string) returns (k: nat)
    requires Under(name, d)
    ensures k < |Labels(name)| && d == Ancestor(name, k) && (k == 0 <==> d == name)
  {
    hide Split, Join;
    UnderSplits(name, d);
    k := |Labels(name)| - |Labels(d)|;
    JoinOfSplit(d, '.');
    JoinOfSplit(name, '.');
    AncestorIsAbove(name, k);
    assert Labels(name)[0..] == Labels(name);
  }

  lemma AncestorsShrink(name: string, j: nat, k: nat)
    requires j < k < |Labels(name)|
    ensures |Ancestor(name, k)| < |Ancestor(name, j)|
  {
    hide Split, Join;
    var ls := Labels(name)[j..];
    assert ls[k - j..] == Labels(name)[k..] && ls == ls[..k - j] + ls[k - j..];
    JoinConcat(ls[..k - j], ls[k - j..], '.');
  }

  // ---- The closest wildcard of the record store ----

  function Matches(store: Store, wildcard: string, t: RecordType): seq<Record> {
    SelectType(At(store, wildcard), t)
  }

  // A proper ancestor whose wildcard has an answer.
  predicate Wild(store: Store, name: string, t: RecordType, d: string) {
    Under(name, d) && d != name && Matches(store, "*." + d, t) != []
  }

  ghost predicate ClosestWild(store: Store, name: string, t: RecordType, d: string, answers: seq<Record>) {
    && Wild(store, name, t, d) && answers == Renamed(Matches(store, "*." + d, t), name)
    && forall e :: Wild(store, name, t, e) ==> |e| <= |d|
  }

  lemma {:induction false} RecordWildcardIsFirst(store: Store, labels: seq<string>, index: nat, name: string, t: RecordType) returns (k: nat)
    requires 1 <= index <= |labels|
    ensures index <= k <= |labels|
    ensures forall j :: index <= j < k ==> Matches(store, "*." + Join(labels[j..], '.'), t) == []
    ensures k == |labels| ==> RecordWildcard(store, labels, index, name, t) == []
    ensures k < |labels| ==> (
      && Matches(store, "*." + Join(labels[k..], '.'), t) != []
      && RecordWildcard(store, labels, index, name, t) == Renamed(Matches(store, "*." + Join(labels[k..], '.'), t), name))
    decreases |labels| - index
  {
    hide SelectType, Renamed, Join;
    k := index;
    if index < |labels| && Matches(store, "*." + Join(labels[index..], '.'), t) == [] {
      k := RecordWildcardIsFirst(store, labels, index + 1, name, t);
    }
  }

  // An inexact lookup answers with the wildcard of the closest ancestor that has an answer, and with nothing
  // exactly when none has.
  lemma FindIsClosest(store: Store, name: string, t: RecordType)
    ensures Matches(store, name, t) != [] ==> Find(store, name, t) == Matches(store, name, t)
    ensures Matches(store, name, t) == [] ==>
      (Find(store, name, t) == [] <==> forall d :: !Wild(store, name, t, d))
    ensures Matches(store, name, t) == [] && Find(store, name, t) != [] ==>
      exists d :: ClosestWild(store, name, t, d, Find(store, name, t))
  {
    hide SelectType, Renamed, Under, Split, Join, RecordWildcard;
    if Matches(store, name, t) == [] {
      var k := RecordWildcardIsFirst(store, Labels(name), 1, name, t);
      forall d | Wild(store, name, t, d) ensures k < |Labels(name)| && |d| <= |Ancestor(name, k)| {
        var j := AncestorOf(name, d);
        assert d == Join(Labels(name)[j..], '.');
        if j > k { AncestorsShrink(name, k, j); }
      }
      if k < |Labels(name)| {
        AncestorIsAbove(name, k);
        RenamedIsNotEmpty(Matches(store, "*." + Ancestor(name, k), t), name);
        assert Wild(store, name, t, Ancestor(name, k));
        assert ClosestWild(store, name, t, Ancestor(name, k), Find(store, name, t));
      }
    }
  }

  lemma RenamedIsNotEmpty(records: seq<Record>, owner: string)
    ensures Renamed(records, owner) == [] <==> records == []
  {
  }

  // ---- The closest wildcard of a zone ----

  // A proper ancestor within the zone whose wildcard has an answer. The zone asks "*.zone" in place of the wildcard
  // of a name that consists of an empty label and the zone.
  predicate WildIn(store: Store, name: string, zone: string, t: RecordType, d: string) {
    Wild(store, name, t, d) && Under(d, zone) && d != ['.'] + zone
  }

  ghost predicate ClosestWildIn(store: Store, name: string, zone: string, t: RecordType, d: string, answers: seq<Record>) {
    && WildIn(store, name, zone, t, d) && answers == Renamed(Matches(store, "*." + d, t), name)
    && forall e :: WildIn(store, name, zone, t, e) ==> |e| <= |d|
  }

  lemma {:induction false} ZoneWildcardIsFirst(store: Store, labels: seq<string>, index: nat, zone: string, name: string, t: RecordType)
    returns (k: nat)
    requires index <= |labels| + 1
    ensures index <= k <= |labels| + 1
    ensures forall j :: index <= j < k ==> Matches(store, WildcardName(labels, j, zone), t) == []
    ensures k == |labels| + 1 ==> ZoneWildcard(store, labels, index, zone, name, t) == []
    ensures k <= |labels| ==> (
      && Matches(store, WildcardName(labels, k, zone), t) != []
      && ZoneWildcard(store, labels, index, zone, name, t) == Renamed(Matches(store, WildcardName(labels, k, zone), t), name))
    decreases |labels| + 1 - index
  {
    hide SelectType, Renamed, WildcardName;
    k := index;
    if index <= |labels| && Matches(store, WildcardName(labels, index, zone), t) == [] {
      k := ZoneWildcardIsFirst(store, labels, index + 1, zone, name, t);
    }
  }

  // The ancestor whose wildcard the zone asks at an index.
  function AskedAt(name: string, zone: string, k: nat): string
    requires k < |Labels(name)|
  {
    if Ancestor(name, k) == ['.'] + zone then zone else Ancestor(name, k)
  }

  lemma LabelsInZone(name: string, zone: string)
    requires Under(name, zone) && name != zone
    ensures Labels(name) == RelativeLabels(name, zone) + Labels(zone)
    ensures name == name[..|name| - (|zone| + 1)] + ['.'] + zone
  {
    hide Split;
    UnderByIndex(name, zone);
    assert name == name[..|name| - (|zone| + 1)] + ['.'] + zone;
    SplitAtSeparator(name[..|name| - (|zone| + 1)], zone, '.');
  }

  lemma WildcardIsAsked(name: string, zone: string, k: nat)
    requires Under(name, zone) && name != zone && k <= |RelativeLabels(name, zone)|
    ensures k < |Labels(name)| && WildcardName(RelativeLabels(name, zone), k, zone) == "*." + AskedAt(name, zone, k)
    ensures Under(Ancestor(name, k), zone)
    ensures k == |RelativeLabels(name, zone)| ==> Ancestor(name, k) == zone
  {
    hide Split, Join, RelativeLabels, Under;
    LabelsInZone(name, zone);
    var rel := RelativeLabels(name, zone);
    if k == |rel| {
      assert Labels(name)[k..] == Labels(zone);
      JoinOfSplit(zone, '.');
      UnderItself(zone);
    } else {
      assert Labels(name)[k..] == rel[k..] + Labels(zone);
      JoinConcat(rel[k..], Labels(zone), '.');
      JoinOfSplit(zone, '.');
      var suffix := Join(rel[k..], '.');
      assert Ancestor(name, k) == suffix + ['.'] + zone;
      AsksSuffix(suffix, zone);
      UnderByIndex(suffix + ['.'] + zone, zone);
    }
  }

  lemma AsksSuffix(suffix: string, zone: string)
    ensures suffix + ['.'] + zone == ['.'] + zone <==> suffix == ""
    ensures "*." + suffix + "." + zone == "*." + (suffix + ['.'] + zone)
  {
    assert |suffix + ['.'] + zone| == |suffix| + 1 + |zone|;
  }

  lemma ZoneAncestor(name: string, zone: string, d: string) returns (j: nat)
    requires Under(name, zone) && name != zone && Under(name, d) && d != name && Under(d, zone)
    ensures 1 <= j <= |RelativeLabels(name, zone)| && j < |Labels(name)| && d == Ancestor(name, j)
  {
    hide Split, Join, RelativeLabels, Under;
    LabelsInZone(name, zone);
    var last := |RelativeLabels(name, zone)|;
    j := AncestorOf(name, d);
    WildcardIsAsked(name, zone, last);
    if j > last {
      AncestorsShrink(name, last, j);
      UnderByIndex(d, zone);
    }
  }

  // A name the zone does not hold is answered by the wildcard of its closest ancestor within the zone that has an
  // answer, and by nothing exactly when none has; a name it holds answers for itself alone.
  lemma ZoneAnswersAreClosest(store: Store, name: string, t: RecordType, zone: string)
    requires Under(name, zone)
    ensures name in store ==> ZoneAnswers(store, name, t, zone) == Matches(store, name, t)
    ensures name !in store ==>
      (ZoneAnswers(store, name, t, zone) == [] <==> forall d :: !WildIn(store, name, zone, t, d))
    ensures name !in store && ZoneAnswers(store, name, t, zone) != [] ==>
      exists d :: ClosestWildIn(store, name, zone, t, d, ZoneAnswers(store, name, t, zone))
  {
    hide SelectType, Renamed, Under, Split, Join, ZoneWildcard, WildcardName, Matches;
    if name in store {
      KnownNameAnswers(store, name, t);
    } else if name == zone {
      ApexHasNoWildcard(store, name, t);
    } else {
      var rel := RelativeLabels(name, zone);
      var k := ZoneWildcardIsFirst(store, rel, 1, zone, name, t);
      forall d | WildIn(store, name, zone, t, d) ensures k <= |rel| && k < |Labels(name)| && |d| <= |AskedAt(name, zone, k)| {
        WildIsAsked(store, name, zone, t, d, k);
      }
      if k <= |rel| {
        WildcardIsAsked(name, zone, k);
        AskedIsAncestor(name, zone, k);
        RenamedIsNotEmpty(Matches(store, WildcardName(rel, k, zone), t), name);
        assert ClosestWildIn(store, name, zone, t, AskedAt(name, zone, k), ZoneAnswers(store, name, t, zone));
      }
    }
  }

  lemma KnownNameAnswers(store: Store, name: string, t: RecordType)
    requires name in store
    ensures Matches(store, name, t) == SelectType(store[name], t)
  {
  }

  lemma ApexHasNoWildcard(store: Store, name: string, t: RecordType)
    ensures ZoneWildcard(store, RelativeLabels(name, name), 1, name, name, t) == []
    ensures forall d :: !WildIn(store, name, name, t, d)
  {
    forall d ensures !WildIn(store, name, name, t, d) {
      if Under(name, d) && Under(d, name) { UnderBothWays(name, d); }
    }
  }

  lemma WildIsAsked(store: Store, name: string, zone: string, t: RecordType, d: string, k: nat)
    requires Under(name, zone) && name != zone && WildIn(store, name, zone, t, d)
    requires 1 <= k <= |RelativeLabels(name, zone)| + 1
    requires forall j :: 1 <= j < k ==> Matches(store, WildcardName(RelativeLabels(name, zone), j, zone), t) == []
    ensures k <= |RelativeLabels(name, zone)| && k < |Labels(name)| && |d| <= |AskedAt(name, zone, k)|
  {
    hide Under, Split, Join, WildcardName, Matches, RelativeLabels;
    var j := ZoneAncestor(name, zone, d);
    WildcardIsAsked(name, zone, j);
    if j < k { assert false; }
    WildcardIsAsked(name, zone, k);
    if j > k {
      AncestorsShrink(name, k, j);
      var a := Ancestor(name, k);
      if a == ['.'] + zone { ShortInZone(d, zone); }
    }
  }

  // Under a zone and shorter than the zone behind an empty label: the zone itself.
  lemma ShortInZone(d: string, zone: string)
    requires Under(d, zone)
    ensures |d| <= |zone| + 1 && d != ['.'] + zone ==> d == zone
  {
    UnderByIndex(d, zone);
  }

  lemma AskedIsAncestor(name: string, zone: string, k: nat)
    requires Under(name, zone) && name != zone && 1 <= k <= |RelativeLabels(name, zone)| && k < |Labels(name)|
    ensures var d := AskedAt(name, zone, k); Under(name, d) && d != name && Under(d, zone) && d != ['.'] + zone
  {
    hide Under, Split, Join, RelativeLabels;
    WildcardIsAsked(name, zone, k);
    AncestorIsAbove(name, k);
    UnderItself(zone);
  }

  // ---- What a zone answers ----

  // Of one record in front of others, the record if it has the type or any was asked for.
  lemma OfTypeFirst(r: Record, rest: seq<Record>, t: RecordType)
    ensures OfType([r] + rest, t) == (if t == ANY || r.rtype == t then [r] else []) + OfType(rest, t)
  {
    assert ([r] + rest)[1..] == rest;
  }

  // Of two stretches of records, those of a type are those of each, in order.
  lemma {:induction false} OfTypeExactly(a: seq<Record>, b: seq<Record>, t: RecordType)
    ensures OfType(a + b, t) == OfType(a, t) + OfType(b, t)
    decreases |a|
  {
    hide OfType;
    if a == [] {
      assert a + b == b;
      NothingOfType(t);
    } else {
      OfTypeExactly(a[1..], b, t);
      OfTypeFirst(a[0], a[1..], t);
      OfTypeFirst(a[0], a[1..] + b, t);
      assert a == [a[0]] + a[1..] && a + b == [a[0]] + (a[1..] + b);
    }
  }

  lemma NothingOfType(t: RecordType)
    ensures OfType([], t) == []
  {
  }

  // A name is answered with its records of the type asked for, and with its aliases only when it has none of those.
  lemma SelectsExactly(records: seq<Record>, t: RecordType)
    ensures (exists r :: r in records && (t == ANY || r.rtype == t)) ==> SelectType(records, t) == OfType(records, t)
    ensures (forall r :: r in records ==> t != ANY && r.rtype != t) ==> SelectType(records, t) == OfType(records, CNAME)
  {
    var chosen := OfType(records, t);
    if r :| r in records && (t == ANY || r.rtype == t) { assert r in chosen; }
    if chosen != [] { assert chosen[0] in chosen; }
  }

  // The zone is the longest that encloses the name; behind a cut it answers nothing and claims no authority; its apex
  // has the SOA; otherwise the name is unknown exactly when nothing is held under it and nothing answers for it.
  lemma ZoneResolvesExactly(zones: seq<string>, store: Store, name: string, t: RecordType)
    ensures ZoneResolve(zones, store, name, t).None? <==> forall z :: z in zones ==> !Under(name, z)
    ensures ZoneResolve(zones, store, name, t).Some? ==> exists zone ::
      IsOwner(zones, name, zone) && ResolvedIn(store, name, t, zone, ZoneResolve(zones, store, name, t).value)
  {
    hide Under, ZoneAnswers, Delegation;
    var owner := Owner(zones, name);
    if owner.Some? {
      DelegationIsNearestCut(store, name, owner.value);
      assert ResolvedIn(store, name, t, owner.value, ZoneResolve(zones, store, name, t).value);
    }
  }

  ghost predicate ResolvedIn(store: Store, name: string, t: RecordType, zone: string, r: ZoneResult) {
    if exists d :: Cut(store, name, zone, d) then r == ZoneResult(NoError, [], false)
    else if name == zone && (t == SOA || t == ANY) then r == ZoneResult(NoError, [Record(zone, SOA, "", "")], true)
    else
      && r.answers == ZoneAnswers(store, name, t, zone) && r.authoritative
      && (r.rcode == NxDomain <==> r.answers == [] && name !in store) && (r.rcode == NoError || r.rcode == NxDomain)
  }
}
