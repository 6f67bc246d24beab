// Local DNS data: the zone store and the record store, and what each answers to a question.
module AliasData {
  import opened Wrappers
  import opened Text
  import opened Names

  datatype RecordType = A | AAAA | CNAME | MX | TXT | NS | SRV | SOA | ANY

  // `target` is meaningful for a CNAME; `data` stands for everything else.
  datatype Record = Record(owner: string, rtype: RecordType, target: string, data: string)

  type Store = map<string, seq<Record>>

  datatype Rcode = NoError | FormErr | ServFail | NxDomain | NotImp | Refused

  datatype ZoneResult = ZoneResult(rcode: Rcode, answers: seq<Record>, authoritative: bool)

  function At(store: Store, name: string): seq<Record> {
    if name in store then store[name] else []
  }

  // The records with this owner, in order.
  function OwnedBy(records: seq<Record>, name: string): seq<Record> {
    if records == [] then []
    else
      var r := records[|records| - 1];
      OwnedBy(records[..|records| - 1], name) + if r.owner == name then [r] else []
  }

  // The loop of replace(), given the enabled records in normal form.
  method BuildStore(records: seq<Record>) returns (store: Store)
    ensures forall name :: At(store, name) == OwnedBy(records, name)
    ensures forall name :: name in store <==> OwnedBy(records, name) != []
  {
    store := map[];
    NoneOwned(records);
    hide OwnedBy;
    for i := 0 to |records|
      invariant forall name :: At(store, name) == OwnedBy(records[..i], name)
      invariant forall name :: name in store <==> OwnedBy(records[..i], name) != []
    {
      var r := records[i];
      forall name ensures OwnedBy(records[..i + 1], name) == OwnedBy(records[..i], name) + if r.owner == name then [r] else [] {
        OwnedByNext(records, i, name);
      }
      store := store[r.owner := At(store, r.owner) + [r]];
    }
    assert records[..|records|] == records;
  }

  lemma NoneOwned(records: seq<Record>)
    ensures forall name :: OwnedBy(records[..0], name) == []
  {
  }

  lemma OwnedByNext(records: seq<Record>, i: nat, name: string)
    requires i < |records|
    ensures OwnedBy(records[..i + 1], name) ==
      OwnedBy(records[..i], name) + if records[i].owner == name then [records[i]] else []
  {
    assert records[..i + 1][..i] == records[..i];
  }

  lemma {:induction false} OwnedByHasOwner(records: seq<Record>, name: string)
    ensures forall i :: 0 <= i < |OwnedBy(records, name)| ==> OwnedBy(records, name)[i].owner == name
  {
    if records != [] { OwnedByHasOwner(records[..|records| - 1], name); }
  }

  // A built store is well formed exactly when no name has two aliases.
  lemma BuiltStoreIsWellFormed(records: seq<Record>, store: Store)
    requires forall name :: At(store, name) == OwnedBy(records, name)
    requires forall name :: name in store <==> OwnedBy(records, name) != []
    ensures WellFormed(store) <==> forall name :: |OfType(OwnedBy(records, name), CNAME)| <= 1
  {
    forall name ensures forall i :: 0 <= i < |At(store, name)| ==> At(store, name)[i].owner == name {
      OwnedByHasOwner(records, name);
    }
    if WellFormed(store) {
      forall name ensures |OfType(OwnedBy(records, name), CNAME)| <= 1 {
        assert At(store, name) == OwnedBy(records, name);
      }
    } else {
      var name :| name in store && (!(forall i :: 0 <= i < |store[name]| ==> store[name][i].owner == name)
                                    || |OfType(store[name], CNAME)| > 1);
      assert At(store, name) == store[name];
      assert |OfType(OwnedBy(records, name), CNAME)| > 1;
    }
  }

  function OfType(records: seq<Record>, t: RecordType): (r: seq<Record>)
    ensures forall x :: x in r <==> x in records && (t == ANY || x.rtype == t)
  {
    if records == [] then []
    else (if t == ANY || records[0].rtype == t then [records[0]] else []) + OfType(records[1..], t)
  }

  // Records of the type asked for, or else the aliases.
  function SelectType(records: seq<Record>, t: RecordType): seq<Record> {
    if OfType(records, t) != [] then OfType(records, t) else OfType(records, CNAME)
  }

  function Renamed(records: seq<Record>, owner: string): seq<Record> {
    seq(|records|, i requires 0 <= i < |records| => records[i].(owner := owner))
  }

  function FirstDot(s: string): (r: Option<nat>)
    ensures r.Some? ==> r.value < |s| && s[r.value] == '.'
  {
    if s == [] then None
    else if s[0] == '.' then Some(0)
    else match FirstDot(s[1..]) case None => None case Some(i) => Some(i + 1)
  }

  // ---- The zone store ----

  // The name servers at the nearest cut between the candidate and the apex.
  function Delegation(store: Store, candidate: string, zone: string): seq<Record>
    decreases |candidate|
  {
    if candidate == zone then []
    else
      var servers := OfType(At(store, candidate), NS);
      if servers != [] then servers
      else match FirstDot(candidate)
        case None => []
        case Some(dot) => Delegation(store, candidate[dot + 1..], zone)
  }

  function RelativeLabels(name: string, zone: string): seq<string> {
    if name == zone || |name| < |zone| + 1 then [] else Split(name[..|name| - (|zone| + 1)], '.')
  }

  function WildcardName(labels: seq<string>, index: nat, zone: string): string
    requires index <= |labels|
  {
    var suffix := if index == |labels| then "" else Join(labels[index..], '.');
    if suffix != "" then "*." + suffix + "." + zone else "*." + zone
  }

  // The first wildcard, from the closest on, that has an answer.
  function ZoneWildcard(store: Store, labels: seq<string>, index: nat, zone: string, name: string, t: RecordType): seq<Record>
    requires index <= |labels| + 1
    decreases |labels| + 1 - index
  {
    if index > |labels| then []
    else
      var selected := SelectType(At(store, WildcardName(labels, index, zone)), t);
      if selected != [] then Renamed(selected, name) else ZoneWildcard(store, labels, index + 1, zone, name, t)
  }

  function ZoneAnswers(store: Store, name: string, t: RecordType, zone: string): seq<Record> {
    if name in store then SelectType(store[name], t)
    else ZoneWildcard(store, RelativeLabels(name, zone), 1, zone, name, t)
  }

  function ZoneResolve(zones: seq<string>, store: Store, name: string, t: RecordType): Option<ZoneResult> {
    match Owner(zones, name)
    case None => None
    case Some(zone) =>
      if Delegation(store, name, zone) != [] then Some(ZoneResult(NoError, [], false))
      else if name == zone && (t == SOA || t == ANY) then Some(ZoneResult(NoError, [Record(zone, SOA, "", "")], true))
      else
        var answers := ZoneAnswers(store, name, t, zone);
        Some(ZoneResult(if answers != [] || name in store then NoError else NxDomain, answers, true))
  }

  // ---- The record store ----

  function RecordWildcard(store: Store, labels: seq<string>, index: nat, name: string, t: RecordType): seq<Record>
    requires 1 <= index <= |labels|
    decreases |labels| - index
  {
    if index == |labels| then []
    else
      var matches := SelectType(At(store, "*." + Join(labels[index..], '.')), t);
      if matches != [] then Renamed(matches, name) else RecordWildcard(store, labels, index + 1, name, t)
  }

  function Find(store: Store, name: string, t: RecordType): seq<Record> {
    var exact := SelectType(At(store, name), t);
    if exact != [] then exact else RecordWildcard(store, Labels(name), 1, name, t)
  }

  // The loops of the two stores.
  method FindRecords(store: Store, name: string, t: RecordType) returns (r: seq<Record>)
    ensures r == Find(store, name, t)
  {
    var exact := SelectType(At(store, name), t);
    if exact != [] { return exact; }
    var labels := Labels(name);
    for index := 1 to |labels|
      invariant RecordWildcard(store, labels, index, name, t) == RecordWildcard(store, labels, 1, name, t)
    {
      var matches := SelectType(At(store, "*." + Join(labels[index..], '.')), t);
      if matches != [] { return Renamed(matches, name); }
    }
    return [];
  }

  method FindAnswers(store: Store, name: string, t: RecordType, zone: string) returns (r: seq<Record>)
    ensures r == ZoneAnswers(store, name, t, zone)
  {
    if name in store { return SelectType(store[name], t); }
    var labels := RelativeLabels(name, zone);
    for index := 1 to |labels| + 1
      invariant ZoneWildcard(store, labels, index, zone, name, t) == ZoneWildcard(store, labels, 1, zone, name, t)
    {
      var selected := SelectType(At(store, WildcardName(labels, index, zone)), t);
      if selected != [] { return Renamed(selected, name); }
    }
    return [];
  }

  method FindDelegation(store: Store, name: string, zone: string) returns (r: seq<Record>)
    ensures r == Delegation(store, name, zone)
  {
    var candidate := name;
    while candidate != zone
      invariant Delegation(store, candidate, zone) == Delegation(store, name, zone)
      decreases |candidate|
    {
      var servers := OfType(At(store, candidate), NS);
      if servers != [] { return servers; }
      var dot := FirstDot(candidate);
      if dot.None? { return []; }
      candidate := candidate[dot.value + 1..];
    }
    return [];
  }

  // ---- What answers look like ----

  // Records stand under their own name, at most one alias a name.
  ghost predicate WellFormed(store: Store) {
    forall name :: name in store ==>
      && (forall i :: 0 <= i < |store[name]| ==> store[name][i].owner == name)
      && |OfType(store[name], CNAME)| <= 1
  }

  // Either a single alias, or no alias at all; all under the name asked for.
  predicate Uniform(records: seq<Record>, name: string) {
    && (forall i :: 0 <= i < |records| ==> records[i].owner == name)
    && ((|records| == 1 && records[0].rtype == CNAME) || forall i :: 0 <= i < |records| ==> records[i].rtype != CNAME)
  }

  predicate Address(t: RecordType) {
    t == A || t == AAAA
  }

  lemma SelectionIsUniform(records: seq<Record>, t: RecordType, name: string)
    requires Address(t) && |OfType(records, CNAME)| <= 1
    ensures Uniform(Renamed(SelectType(records, t), name), name)
    ensures (forall i :: 0 <= i < |records| ==> records[i].owner == name) ==> Uniform(SelectType(records, t), name)
  {
    var selected := SelectType(records, t);
    forall i | 0 <= i < |selected|
      ensures selected[i] in records
      ensures OfType(records, t) != [] ==> selected[i].rtype == t
      ensures OfType(records, t) == [] ==> selected[i].rtype == CNAME
    {
      assert selected[i] in selected;
    }
  }

  lemma {:induction false} ZoneWildcardIsUniform(store: Store, labels: seq<string>, index: nat, zone: string, name: string, t: RecordType)
    requires WellFormed(store) && Address(t) && index <= |labels| + 1
    ensures Uniform(ZoneWildcard(store, labels, index, zone, name, t), name)
    decreases |labels| + 1 - index
  {
    if index <= |labels| {
      SelectionIsUniform(At(store, WildcardName(labels, index, zone)), t, name);
      ZoneWildcardIsUniform(store, labels, index + 1, zone, name, t);
    }
  }

  lemma {:induction false} RecordWildcardIsUniform(store: Store, labels: seq<string>, index: nat, name: string, t: RecordType)
    requires WellFormed(store) && Address(t) && 1 <= index <= |labels|
    ensures Uniform(RecordWildcard(store, labels, index, name, t), name)
    decreases |labels| - index
  {
    if index < |labels| {
      SelectionIsUniform(At(store, "*." + Join(labels[index..], '.')), t, name);
      RecordWildcardIsUniform(store, labels, index + 1, name, t);
    }
  }

  lemma NameIsUniform(store: Store, name: string, t: RecordType)
    requires WellFormed(store) && Address(t)
    ensures Uniform(SelectType(At(store, name), t), name)
  {
    SelectionIsUniform(At(store, name), t, name);
  }

  lemma ZoneAnswersAreUniform(store: Store, name: string, t: RecordType, zone: string)
    requires WellFormed(store) && Address(t)
    ensures Uniform(ZoneAnswers(store, name, t, zone), name)
  {
    hide WellFormed, Uniform, SelectType, ZoneWildcard, RelativeLabels;
    NameIsUniform(store, name, t);
    ZoneWildcardIsUniform(store, RelativeLabels(name, zone), 1, zone, name, t);
  }

  // Whatever a zone or the record store answers to an address question is uniform.
  lemma LocalAnswersAreUniform(zones: seq<string>, zoneStore: Store, store: Store, name: string, t: RecordType)
    requires WellFormed(zoneStore) && WellFormed(store) && Address(t)
    ensures ZoneResolve(zones, zoneStore, name, t).Some? ==> Uniform(ZoneResolve(zones, zoneStore, name, t).value.answers, name)
    ensures Uniform(Find(store, name, t), name)
  {
    hide WellFormed, Uniform, SelectType, ZoneAnswers, RecordWildcard, Labels, Owner, Delegation;
    EmptyIsUniform(name);
    if Owner(zones, name).Some? { ZoneAnswersAreUniform(zoneStore, name, t, Owner(zones, name).value); }
    NameIsUniform(store, name, t);
    RecordWildcardIsUniform(store, Labels(name), 1, name, t);
  }

  lemma EmptyIsUniform(name: string)
    ensures Uniform([], name)
  {
  }
}
