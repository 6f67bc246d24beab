// SOA serials over whole runs of configuration updates.
module SoaSerials {
  import opened Wrappers
  import opened Names

  datatype Timers = Timers(mname: string, rname: string, refresh: nat, retry: nat, expire: nat, minimum: nat)

  datatype Domain = Domain(name: string, enabled: bool, defaultTtl: nat, timers: Timers, serial: nat)

  // A record apart from its id: its owner name and all other fields as JSON prints them, keys in stored order;
  // `rank` is the place of that text in the collation, the same for texts that collate equal.
  datatype Body = Body(name: string, data: string, rank: int)

  datatype Record = Record(id: string, body: Body)

  datatype Config = Config(domains: seq<Domain>, records: seq<Record>)

  // What a zone publishes, serial aside.
  datatype Projection = Projection(enabled: bool, defaultTtl: nat, timers: Timers, records: seq<Body>)

  datatype Import = Import(zone: string, serial: int)

  datatype Failure = DuplicateDomain | SerialExhausted | InvalidImport | UnknownImport | InvalidConfig

  const MAX_SERIAL: nat := 0xffff_ffff

  function ZoneNames(domains: seq<Domain>): seq<string> {
    seq(|domains|, i requires 0 <= i < |domains| => domains[i].name)
  }

  predicate DistinctNames(domains: seq<Domain>) {
    forall i, j :: 0 <= i < j < |domains| ==> domains[i].name != domains[j].name
  }

  function IndexOf(domains: seq<Domain>, name: string): (r: Option<nat>)
    ensures r.Some? ==> r.value < |domains| && domains[r.value].name == name
    ensures r.None? ==> forall i :: 0 <= i < |domains| ==> domains[i].name != name
  {
    if domains == [] then None
    else if domains[|domains| - 1].name == name then Some(|domains| - 1)
    else IndexOf(domains[..|domains| - 1], name)
  }

  // Behind every record that does not collate after it.
  function Insert(sorted: seq<Body>, b: Body): seq<Body> {
    if sorted == [] || sorted[|sorted| - 1].rank <= b.rank then sorted + [b]
    else Insert(sorted[..|sorted| - 1], b) + [sorted[|sorted| - 1]]
  }

  // The records whose longest-suffix zone is this one, sorted; those that collate equal stay in order.
  function DirectRecords(records: seq<Record>, zones: seq<string>, zone: string): seq<Body> {
    if records == [] then []
    else
      var r := records[|records| - 1];
      var others := DirectRecords(records[..|records| - 1], zones, zone);
      if Classify(zones, r.body.name) == Some(zone) then Insert(others, r.body) else others
  }

  function AuthorityProjection(c: Config, zone: string): Option<Projection> {
    match IndexOf(c.domains, zone)
    case None => None
    case Some(i) =>
      var d := c.domains[i];
      Some(Projection(d.enabled, d.defaultTtl, d.timers, DirectRecords(c.records, ZoneNames(c.domains), zone)))
  }

  // ---- What a projection compares ----

  predicate Sorted(bodies: seq<Body>) {
    forall i, j :: 0 <= i < j < |bodies| ==> bodies[i].rank <= bodies[j].rank
  }

  // The zone's records in no order.
  function DirectBodies(records: seq<Record>, zones: seq<string>, zone: string): multiset<Body> {
    if records == [] then multiset{}
    else
      var r := records[|records| - 1];
      DirectBodies(records[..|records| - 1], zones, zone)
        + if Classify(zones, r.body.name) == Some(zone) then multiset{r.body} else multiset{}
  }

  // The last of a sorted sequence has the greatest rank, and the others are sorted.
  lemma LastIsGreatest(sorted: seq<Body>)
    requires Sorted(sorted) && sorted != []
    ensures var n := |sorted| - 1;
      && Sorted(sorted[..n]) && multiset(sorted[..n]) == multiset(sorted) - multiset{sorted[n]} && sorted[n] in multiset(sorted)
      && forall b :: b in multiset(sorted) ==> b.rank <= sorted[n].rank
  {
    assert sorted == sorted[..|sorted| - 1] + [sorted[|sorted| - 1]];
  }

  lemma SortedBefore(front: seq<Body>, last: Body)
    requires Sorted(front) && forall b :: b in multiset(front) ==> b.rank <= last.rank
    ensures Sorted(front + [last])
  {
    forall i | 0 <= i < |front| ensures front[i].rank <= last.rank { assert front[i] in multiset(front); }
  }

  lemma {:induction false} InsertSorts(sorted: seq<Body>, b: Body)
    requires Sorted(sorted)
    ensures Sorted(Insert(sorted, b)) && multiset(Insert(sorted, b)) == multiset(sorted) + multiset{b}
  {
    hide Sorted;
    if sorted != [] { LastIsGreatest(sorted); }
    if sorted != [] && sorted[|sorted| - 1].rank > b.rank {
      var front, last := sorted[..|sorted| - 1], sorted[|sorted| - 1];
      InsertSorts(front, b);
      SortedBefore(Insert(front, b), last);
    } else {
      SortedBefore(sorted, b);
    }
  }

  lemma {:induction false} DirectAreSorted(records: seq<Record>, zones: seq<string>, zone: string)
    ensures var direct := DirectRecords(records, zones, zone);
      Sorted(direct) && multiset(direct) == DirectBodies(records, zones, zone)
  {
    hide Classify, Sorted, Insert;
    if records != [] {
      var front := records[..|records| - 1];
      DirectAreSorted(front, zones, zone);
      InsertSorts(DirectRecords(front, zones, zone), records[|records| - 1].body);
    } else {
      NothingIsSorted();
    }
  }

  lemma NothingIsSorted()
    ensures Sorted([])
  {
  }

  // Different texts do not collate equal.
  ghost predicate RanksIdentify(bodies: multiset<Body>) {
    forall x, y :: x in bodies && y in bodies && x.rank == y.rank ==> x == y
  }

  lemma LastIsShared(a: seq<Body>, b: seq<Body>)
    requires Sorted(a) && Sorted(b) && a != [] && b != [] && multiset(a) == multiset(b) && RanksIdentify(multiset(a))
    ensures a[|a| - 1] == b[|b| - 1]
    ensures RanksIdentify(multiset(a) - multiset{a[|a| - 1]})
  {
    hide Sorted;
    LastIsGreatest(a);
    LastIsGreatest(b);
  }

  lemma {:induction false} SortedIsUnique(a: seq<Body>, b: seq<Body>)
    requires Sorted(a) && Sorted(b) && multiset(a) == multiset(b) && RanksIdentify(multiset(a))
    ensures a == b
    decreases |a|
  {
    hide Sorted, RanksIdentify;
    SameLength(a, b);
    if a != [] {
      var n := |a| - 1;
      LastIsGreatest(a);
      LastIsGreatest(b);
      LastIsShared(a, b);
      SortedIsUnique(a[..n], b[..n]);
      SplitsLast(a);
      SplitsLast(b);
    }
  }

  lemma SplitsLast(a: seq<Body>)
    requires a != []
    ensures a == a[..|a| - 1] + [a[|a| - 1]]
  {
  }

  lemma SameLength(a: seq<Body>, b: seq<Body>)
    requires multiset(a) == multiset(b)
    ensures |a| == |b|
  {
    assert |multiset(a)| == |a| && |multiset(b)| == |b|;
  }

  // A zone publishes the same in two configurations exactly when its settings and its records are the same, in any
  // order, as long as different records do not collate equal.
  lemma PublishesAlikeExactly(c: Config, d: Config, zone: string)
    requires IndexOf(c.domains, zone).Some? && IndexOf(d.domains, zone).Some?
    requires RanksIdentify(DirectBodies(c.records, ZoneNames(c.domains), zone))
    ensures var p, q := c.domains[IndexOf(c.domains, zone).value], d.domains[IndexOf(d.domains, zone).value];
      AuthorityProjection(c, zone) == AuthorityProjection(d, zone) <==>
        p.enabled == q.enabled && p.defaultTtl == q.defaultTtl && p.timers == q.timers
        && DirectBodies(c.records, ZoneNames(c.domains), zone) == DirectBodies(d.records, ZoneNames(d.domains), zone)
  {
    hide DirectRecords, DirectBodies, Sorted, IndexOf, ZoneNames, RanksIdentify;
    DirectAreSorted(c.records, ZoneNames(c.domains), zone);
    DirectAreSorted(d.records, ZoneNames(d.domains), zone);
    if DirectBodies(c.records, ZoneNames(c.domains), zone) == DirectBodies(d.records, ZoneNames(d.domains), zone) {
      SortedIsUnique(DirectRecords(c.records, ZoneNames(c.domains), zone), DirectRecords(d.records, ZoneNames(d.domains), zone));
    }
  }

  // ---- Serials ----

  // `base` is the serial of the current local date, YYYYMMDD00.
  function NextSoaSerial(current: nat, base: nat): Result<nat, Failure> {
    if current >= MAX_SERIAL then Err(SerialExhausted)
    else Ok(if current + 1 > base then current + 1 else base)
  }

  // The serial one domain gets when `next` replaces `previous`.
  function Bumped(previous: Config, next: Config, d: Domain, base: nat): Result<nat, Failure> {
    match IndexOf(previous.domains, d.name)
    case None => Ok(d.serial)
    case Some(p) =>
      if AuthorityProjection(previous, d.name) == AuthorityProjection(next, d.name) then Ok(previous.domains[p].serial)
      else NextSoaSerial(previous.domains[p].serial, base)
  }

  // The first n domains of `next` with their serials settled.
  function BumpedDomains(previous: Config, next: Config, base: nat, n: nat): (r: Result<seq<Domain>, Failure>)
    requires n <= |next.domains|
    ensures r.Ok? ==> |r.value| == n && forall i :: 0 <= i < n ==>
      Bumped(previous, next, next.domains[i], base).Ok?
      && r.value[i] == next.domains[i].(serial := Bumped(previous, next, next.domains[i], base).value)
    ensures r.Ok? <==> forall i :: 0 <= i < n ==> Bumped(previous, next, next.domains[i], base).Ok?
    ensures r.Err? ==> r.error == SerialExhausted
  {
    if n == 0 then Ok([])
    else
      match BumpedDomains(previous, next, base, n - 1)
      case Err(e) => Err(e)
      case Ok(front) =>
        match Bumped(previous, next, next.domains[n - 1], base)
        case Err(e) => Err(e)
        case Ok(serial) => Ok(front + [next.domains[n - 1].(serial := serial)])
  }

  function BumpZoneSerials(previous: Config, next: Config, base: nat): Result<Config, Failure> {
    if !DistinctNames(previous.domains) || !DistinctNames(next.domains) then Err(DuplicateDomain)
    else match BumpedDomains(previous, next, base, |next.domains|)
      case Err(e) => Err(e)
      case Ok(domains) => Ok(next.(domains := domains))
  }

  // Imported serials, one after the other, can only raise.
  function Imported(domains: seq<Domain>, imports: seq<Import>): Result<seq<Domain>, Failure>
    decreases |imports|
  {
    if imports == [] then Ok(domains)
    else
      var m := imports[0];
      if m.serial < 0 || m.serial > MAX_SERIAL then Err(InvalidImport)
      else match IndexOf(domains, m.zone)
        case None => Err(UnknownImport)
        case Some(i) =>
          var d := domains[i];
          Imported(domains[i := d.(serial := if d.serial > m.serial then d.serial else m.serial)], imports[1..])
  }

  // validateConfig: any further checks, of which the serial range matters here.
  predicate Accepted(valid: Config -> bool, c: Config) {
    valid(c) && DistinctNames(c.domains) && forall i :: 0 <= i < |c.domains| ==> c.domains[i].serial <= MAX_SERIAL
  }

  function Updated(valid: Config -> bool, current: Option<Config>, next: Config, base: nat, imports: seq<Import>): Result<Config, Failure> {
    match if current.Some? then BumpZoneSerials(current.value, next, base) else Ok(next)
    case Err(e) => Err(e)
    case Ok(bumped) =>
      match Imported(bumped.domains, imports)
      case Err(e) => Err(e)
      case Ok(domains) =>
        var result := bumped.(domains := domains);
        if Accepted(valid, result) then Ok(result) else Err(InvalidConfig)
  }

  class ConfigStore {
    const valid: Config -> bool
    var config: Option<Config>

    constructor (valid: Config -> bool, loaded: Option<Config>)
      ensures config == loaded && this.valid == valid
    {
      this.valid, config := valid, loaded;
    }

    // update() up to the awaited write: computed from the configuration held now, which stays as it is.
    method Prepare(next: Config, base: nat, imports: seq<Import>) returns (r: Result<Config, Failure>)
      ensures r == Updated(valid, config, next, base, imports)
    {
      var domains := next.domains;
      if config.Some? {
        if !DistinctNames(config.value.domains) || !DistinctNames(next.domains) { return Err(DuplicateDomain); }
        var bumped := BumpLoop(config.value, next, base);
        if bumped.Err? { return Err(bumped.error); }
        domains := bumped.value;
      }
      var imported := ImportLoop(domains, imports);
      if imported.Err? { return Err(imported.error); }
      var result := next.(domains := imported.value);
      if !Accepted(valid, result) { return Err(InvalidConfig); }
      return Ok(result);
    }

    // update() after the write: whatever was prepared replaces whatever is held by then.
    method Commit(prepared: Config)
      modifies this
      ensures config == Some(prepared)
    {
      config := Some(prepared);
    }

    method BumpLoop(previous: Config, next: Config, base: nat) returns (r: Result<seq<Domain>, Failure>)
      ensures r == BumpedDomains(previous, next, base, |next.domains|)
    {
      hide AuthorityProjection;
      var domains := [];
      for i := 0 to |next.domains|
        invariant BumpedDomains(previous, next, base, i) == Ok(domains)
      {
        var domain := next.domains[i];
        var prior := IndexOf(previous.domains, domain.name);
        if prior.Some? {
          var serial := previous.domains[prior.value].serial;
          if AuthorityProjection(previous, domain.name) != AuthorityProjection(next, domain.name) {
            var bumped := NextSoaSerial(serial, base);
            if bumped.Err? {
              assert BumpedDomains(previous, next, base, i + 1).Err?;
              assert Bumped(previous, next, next.domains[i], base).Err?;
              return Err(SerialExhausted);
            }
            serial := bumped.value;
          }
          domain := domain.(serial := serial);
        }
        domains := domains + [domain];
      }
      return Ok(domains);
    }

    method ImportLoop(domains: seq<Domain>, imports: seq<Import>) returns (r: Result<seq<Domain>, Failure>)
      ensures r == Imported(domains, imports)
    {
      var result := domains;
      for k := 0 to |imports|
        invariant Imported(result, imports[k..]) == Imported(domains, imports)
      {
        var m := imports[k];
        assert imports[k..][0] == m && imports[k..][1..] == imports[k + 1..];
        if m.serial < 0 || m.serial > MAX_SERIAL { return Err(InvalidImport); }
        var i := IndexOf(result, m.zone);
        if i.None? { return Err(UnknownImport); }
        var d := result[i.value];
        result := result[i.value := d.(serial := if d.serial > m.serial then d.serial else m.serial)];
      }
      return Ok(result);
    }
  }

  // ---- One update ----

  // The same domains but for serials, none of which fell.
  predicate OnlyRaised(before: seq<Domain>, after: seq<Domain>) {
    && |after| == |before|
    && forall i :: 0 <= i < |before| ==>
         after[i] == before[i].(serial := after[i].serial) && after[i].serial >= before[i].serial
  }

  lemma {:induction false} ImportsOnlyRaise(domains: seq<Domain>, imports: seq<Import>)
    requires Imported(domains, imports).Ok?
    ensures var r := Imported(domains, imports).value;
      && OnlyRaised(domains, r)
      && forall i :: 0 <= i < |domains| && (forall k :: 0 <= k < |imports| ==> imports[k].zone != domains[i].name) ==> r[i] == domains[i]
    decreases |imports|
  {
    if imports != [] {
      var m := imports[0];
      var i := IndexOf(domains, m.zone).value;
      var d := domains[i];
      ImportsOnlyRaise(domains[i := d.(serial := if d.serial > m.serial then d.serial else m.serial)], imports[1..]);
    }
  }

  lemma {:induction false} SameNamesSameIndex(a: seq<Domain>, b: seq<Domain>, name: string)
    requires |a| == |b| && forall i :: 0 <= i < |a| ==> a[i].name == b[i].name
    ensures IndexOf(a, name) == IndexOf(b, name)
  {
    if a != [] { SameNamesSameIndex(a[..|a| - 1], b[..|b| - 1], name); }
  }

  lemma ProjectionIgnoresSerials(c: Config, d: Config, zone: string)
    requires c.records == d.records && |c.domains| == |d.domains|
    requires forall i :: 0 <= i < |c.domains| ==> d.domains[i] == c.domains[i].(serial := d.domains[i].serial)
    ensures AuthorityProjection(c, zone) == AuthorityProjection(d, zone)
  {
    SameNamesSameIndex(c.domains, d.domains, zone);
    assert ZoneNames(c.domains) == ZoneNames(d.domains);
  }

  predicate Present(c: Config, zone: string) {
    IndexOf(c.domains, zone).Some?
  }

  function SerialOf(c: Config, zone: string): nat
    requires Present(c, zone)
  {
    c.domains[IndexOf(c.domains, zone).value].serial
  }

  // A bumped serial is one more than before, or the date's if that is more.
  lemma NextSerialExactly(current: nat, base: nat)
    ensures NextSoaSerial(current, base).Err? <==> current >= 0xffff_ffff
    ensures NextSoaSerial(current, base).Ok? ==> var next := NextSoaSerial(current, base).value;
      && next > current && next >= base && (next == current + 1 || next == base)
  {
  }

  // The greatest of a serial and those imported for its zone.
  ghost predicate Greatest(own: nat, imports: seq<Import>, zone: string, serial: nat) {
    && own <= serial && (forall k :: 0 <= k < |imports| && imports[k].zone == zone ==> imports[k].serial <= serial)
    && (serial == own || exists k :: 0 <= k < |imports| && imports[k].zone == zone && imports[k].serial == serial)
  }

  lemma {:induction false} ImportsGiveGreatest(domains: seq<Domain>, imports: seq<Import>, zone: string)
    requires Imported(domains, imports).Ok? && IndexOf(domains, zone).Some?
    ensures var r := Imported(domains, imports).value; var i := IndexOf(domains, zone).value;
      |r| == |domains| && IndexOf(r, zone) == Some(i) && Greatest(domains[i].serial, imports, zone, r[i].serial)
    decreases |imports|
  {
    hide IndexOf;
    if imports != [] {
      var m, rest := imports[0], imports[1..];
      var j, i := IndexOf(domains, m.zone).value, IndexOf(domains, zone).value;
      var d := domains[j];
      var raised := domains[j := d.(serial := if d.serial > m.serial then d.serial else m.serial)];
      SameNamesSameIndex(domains, raised, zone);
      ImportsGiveGreatest(raised, rest, zone);
      var r := Imported(domains, imports).value;
      forall k | 0 <= k < |imports| && imports[k].zone == zone ensures imports[k].serial <= r[i].serial {
        if k > 0 { assert rest[k - 1] == imports[k]; }
      }
      if r[i].serial != raised[i].serial {
        var k :| 0 <= k < |rest| && rest[k].zone == zone && rest[k].serial == r[i].serial;
        assert imports[k + 1] == rest[k];
      } else if r[i].serial != domains[i].serial {
        assert imports[0].zone == zone && imports[0].serial == r[i].serial;
      }
    }
  }

  // The serial a zone has before imports: its own, or the next one when what it publishes changes; a new zone's as given.
  ghost predicate OwnSerial(c: Config, next: Config, base: nat, zone: string, own: nat)
    requires Present(next, zone)
  {
    if !Present(c, zone) then own == SerialOf(next, zone)
    else if AuthorityProjection(c, zone) == AuthorityProjection(next, zone) then own == SerialOf(c, zone)
    else own > SerialOf(c, zone) && own >= base && (own == SerialOf(c, zone) + 1 || own == base)
  }

  // An accepted update keeps everything it was given but serials, passes the checks, and was given only imports in range
  // for zones it has.
  lemma UpdateKeepsRest(valid: Config -> bool, c: Config, next: Config, base: nat, imports: seq<Import>)
    requires Updated(valid, Some(c), next, base, imports).Ok?
    ensures var d := Updated(valid, Some(c), next, base, imports).value;
      && valid(d) && d.records == next.records && |d.domains| == |next.domains|
      && (forall i :: 0 <= i < |d.domains| ==>
            d.domains[i] == next.domains[i].(serial := d.domains[i].serial) && d.domains[i].serial <= 0xffff_ffff)
      && (forall i, j :: 0 <= i < j < |d.domains| ==> d.domains[i].name != d.domains[j].name)
      && forall k :: 0 <= k < |imports| ==> 0 <= imports[k].serial <= 0xffff_ffff && Present(next, imports[k].zone)
  {
    hide Imported, Bumped, IndexOf;
    var bumped := BumpZoneSerials(c, next, base).value;
    ImportsOnlyRaise(bumped.domains, imports);
    forall k | 0 <= k < |imports| ensures 0 <= imports[k].serial <= 0xffff_ffff && Present(next, imports[k].zone) {
      ImportsKnown(bumped.domains, imports, k);
      SameNamesSameIndex(bumped.domains, next.domains, imports[k].zone);
    }
  }

  lemma {:induction false} ImportsKnown(domains: seq<Domain>, imports: seq<Import>, k: nat)
    requires Imported(domains, imports).Ok? && k < |imports|
    ensures 0 <= imports[k].serial <= 0xffff_ffff && IndexOf(domains, imports[k].zone).Some?
    decreases |imports|
  {
    hide IndexOf;
    if k > 0 {
      var m := imports[0];
      var i := IndexOf(domains, m.zone).value;
      var d := domains[i];
      var raised := domains[i := d.(serial := if d.serial > m.serial then d.serial else m.serial)];
      ImportsKnown(raised, imports[1..], k - 1);
      SameNamesSameIndex(domains, raised, imports[k].zone);
    }
  }

  // The exact serial one accepted update gives a zone: the greatest of its own and those imported for it.
  lemma SerialAfterUpdate(valid: Config -> bool, c: Config, next: Config, base: nat, imports: seq<Import>, zone: string)
    requires Updated(valid, Some(c), next, base, imports).Ok? && Present(next, zone)
    ensures var d := Updated(valid, Some(c), next, base, imports).value;
      Present(d, zone) && exists own :: OwnSerial(c, next, base, zone, own) && Greatest(own, imports, zone, SerialOf(d, zone))
  {
    hide AuthorityProjection, IndexOf, Imported, Bumped, NextSoaSerial;
    var bumped := BumpZoneSerials(c, next, base).value;
    var i := IndexOf(next.domains, zone).value;
    SameNamesSameIndex(next.domains, bumped.domains, zone);
    ImportsGiveGreatest(bumped.domains, imports, zone);
    BumpedIsOwn(c, next, next.domains[i], base);
    assert OwnSerial(c, next, base, zone, bumped.domains[i].serial);
  }

  lemma BumpedIsOwn(c: Config, next: Config, d: Domain, base: nat)
    requires Bumped(c, next, d, base).Ok? && Present(next, d.name) && next.domains[IndexOf(next.domains, d.name).value] == d
    ensures OwnSerial(c, next, base, d.name, Bumped(c, next, d, base).value)
  {
    hide AuthorityProjection, IndexOf, NextSoaSerial;
    if Present(c, d.name) { NextSerialExactly(SerialOf(c, d.name), base); }
  }

  lemma BumpedRises(c: Config, next: Config, d: Domain, base: nat)
    requires Present(c, d.name) && Bumped(c, next, d, base).Ok?
    ensures var r := Bumped(c, next, d, base).value;
      if AuthorityProjection(c, d.name) == AuthorityProjection(next, d.name) then r == SerialOf(c, d.name)
      else r > SerialOf(c, d.name)
  {
    hide AuthorityProjection, IndexOf;
  }

  // One accepted update: a zone's serial never falls, rises with its projection, and otherwise moves only
  // when a serial was imported for it.
  lemma UpdateStep(valid: Config -> bool, c: Config, next: Config, base: nat, imports: seq<Import>, zone: string)
    requires Updated(valid, Some(c), next, base, imports).Ok?
    requires Present(c, zone) && Present(Updated(valid, Some(c), next, base, imports).value, zone)
    ensures var d := Updated(valid, Some(c), next, base, imports).value;
      && AuthorityProjection(d, zone) == AuthorityProjection(next, zone)
      && SerialOf(d, zone) >= SerialOf(c, zone)
      && (AuthorityProjection(c, zone) != AuthorityProjection(d, zone) ==> SerialOf(d, zone) > SerialOf(c, zone))
      && (AuthorityProjection(c, zone) == AuthorityProjection(d, zone)
            && (forall k :: 0 <= k < |imports| ==> imports[k].zone != zone)
          ==> SerialOf(d, zone) == SerialOf(c, zone))
  {
    hide AuthorityProjection, IndexOf, Imported, Bumped;
    var bumped := BumpZoneSerials(c, next, base).value;
    var d := Updated(valid, Some(c), next, base, imports).value;
    ImportsOnlyRaise(bumped.domains, imports);
    ProjectionIgnoresSerials(next, bumped, zone);
    ProjectionIgnoresSerials(bumped, d, zone);
    SameNamesSameIndex(d.domains, bumped.domains, zone);
    SameNamesSameIndex(next.domains, bumped.domains, zone);
    var i := IndexOf(next.domains, zone).value;
    assert bumped.domains[i].serial == Bumped(c, next, next.domains[i], base).value;
    BumpedRises(c, next, next.domains[i], base);
  }

  // ---- Overlapping updates ----

  datatype Input = Input(next: Config, base: nat, imports: seq<Import>)

  // A call between its read and its commit; `version` counts the commits made before it read.
  datatype Call = Call(read: Config, version: nat, input: Input, result: Config)

  datatype Store = Store(config: Config, version: nat, inFlight: map<nat, Call>)

  datatype Step =
    | Read(id: nat, input: Input)
    | Commit(id: nat)
    | WriteFails(id: nat)

  function Prepared(valid: Config -> bool, read: Config, input: Input): Result<Config, Failure> {
    Updated(valid, Some(read), input.next, input.base, input.imports)
  }

  function Apply(valid: Config -> bool, s: Store, step: Step): Store {
    match step
    case Read(id, input) =>
      var r := Prepared(valid, s.config, input);
      if r.Err? || id in s.inFlight then s
      else s.(inFlight := s.inFlight[id := Call(s.config, s.version, input, r.value)])
    case Commit(id) =>
      if id in s.inFlight then Store(s.inFlight[id].result, s.version + 1, s.inFlight - {id}) else s
    case WriteFails(id) => s.(inFlight := s.inFlight - {id})
  }

  function Run(valid: Config -> bool, s: Store, steps: seq<Step>): Store {
    if steps == [] then s else Apply(valid, Run(valid, s, steps[..|steps| - 1]), steps[|steps| - 1])
  }

  ghost predicate CallOk(valid: Config -> bool, s: Store, call: Call) {
    && Prepared(valid, call.read, call.input) == Ok(call.result)
    && call.version <= s.version && (call.version == s.version ==> call.read == s.config)
  }

  ghost predicate StoreOk(valid: Config -> bool, s: Store) {
    forall id :: id in s.inFlight ==> CallOk(valid, s, s.inFlight[id])
  }

  lemma ApplyKeepsStoreOk(valid: Config -> bool, s: Store, step: Step)
    requires StoreOk(valid, s)
    ensures StoreOk(valid, Apply(valid, s, step))
  {
    hide Prepared;
    var t := Apply(valid, s, step);
    forall id | id in t.inFlight ensures CallOk(valid, t, t.inFlight[id]) {
      if id in s.inFlight { assert CallOk(valid, s, s.inFlight[id]); }
    }
  }

  // A zone's serial did not fall, and if it is the same the zone publishes the same.
  predicate Ordered(early: Config, late: Config, zone: string) {
    && Present(early, zone) && Present(late, zone)
    && SerialOf(early, zone) <= SerialOf(late, zone)
    && (SerialOf(early, zone) == SerialOf(late, zone) ==> AuthorityProjection(early, zone) == AuthorityProjection(late, zone))
  }

  // What a call read is no older, for this zone, than what is held when it commits.
  predicate FreshFor(s: Store, step: Step, zone: string) {
    step.Commit? && step.id in s.inFlight && Present(s.config, zone) ==> Ordered(s.config, s.inFlight[step.id].read, zone)
  }

  // No other call has committed since this one read.
  predicate Undisturbed(s: Store, step: Step) {
    step.Commit? && step.id in s.inFlight ==> s.inFlight[step.id].version == s.version
  }

  lemma UndisturbedIsFresh(valid: Config -> bool, s: Store, step: Step, zone: string)
    requires StoreOk(valid, s) && Undisturbed(s, step)
    ensures FreshFor(s, step, zone)
  {
    if step.Commit? && step.id in s.inFlight { assert CallOk(valid, s, s.inFlight[step.id]); }
  }

  lemma PreparedIsOrdered(valid: Config -> bool, read: Config, input: Input, zone: string)
    requires Prepared(valid, read, input).Ok?
    requires Present(read, zone) && Present(Prepared(valid, read, input).value, zone)
    ensures Ordered(read, Prepared(valid, read, input).value, zone)
  {
    hide AuthorityProjection, Updated;
    UpdateStep(valid, read, input.next, input.base, input.imports, zone);
  }

  lemma FreshStepIsOrdered(valid: Config -> bool, s: Store, step: Step, zone: string)
    requires StoreOk(valid, s) && FreshFor(s, step, zone)
    requires Present(s.config, zone) && Present(Apply(valid, s, step).config, zone)
    ensures Ordered(s.config, Apply(valid, s, step).config, zone)
  {
    hide AuthorityProjection, Prepared;
    if step.Commit? && step.id in s.inFlight {
      var call := s.inFlight[step.id];
      assert CallOk(valid, s, call);
      PreparedIsOrdered(valid, call.read, call.input, zone);
    }
  }

  ghost predicate StaysPresent(valid: Config -> bool, s: Store, steps: seq<Step>, zone: string, from: nat) {
    forall k :: from <= k <= |steps| ==> Present(Run(valid, s, steps[..k]).config, zone)
  }

  ghost predicate AllFresh(valid: Config -> bool, s: Store, steps: seq<Step>, zone: string, from: nat) {
    forall k :: from <= k < |steps| ==> FreshFor(Run(valid, s, steps[..k]), steps[k], zone)
  }

  lemma {:induction false} RunKeepsStoreOk(valid: Config -> bool, s: Store, steps: seq<Step>)
    requires StoreOk(valid, s)
    ensures StoreOk(valid, Run(valid, s, steps))
  {
    hide StoreOk, Apply;
    if steps != [] {
      RunKeepsStoreOk(valid, s, steps[..|steps| - 1]);
      ApplyKeepsStoreOk(valid, Run(valid, s, steps[..|steps| - 1]), steps[|steps| - 1]);
    }
  }

  // Main result: over every interleaving of reads, commits and failed writes in which each commit is fresh for a
  // zone that stays present, the zone's serial never falls between two points, and equal serials mean that it
  // published the same thing.
  lemma {:induction false} SerialsOverRuns(valid: Config -> bool, s: Store, steps: seq<Step>, zone: string, from: nat)
    requires StoreOk(valid, s) && from <= |steps|
    requires StaysPresent(valid, s, steps, zone, from) && AllFresh(valid, s, steps, zone, from)
    ensures Ordered(Run(valid, s, steps[..from]).config, Run(valid, s, steps).config, zone)
    decreases |steps|
  {
    hide StoreOk, AuthorityProjection, Apply, FreshFor, Present;
    assert steps[..|steps|] == steps;
    if from == |steps| {
      OrderedReflexive(Run(valid, s, steps).config, zone);
    } else {
      var n := |steps| - 1;
      var front := steps[..n];
      FrontOfRun(valid, s, steps, zone, from);
      SerialsOverRuns(valid, s, front, zone, from);
      assert front[..from] == steps[..from];
      RunKeepsStoreOk(valid, s, front);
      assert FreshFor(Run(valid, s, steps[..n]), steps[n], zone);
      assert Present(Run(valid, s, steps[..n]).config, zone) && Present(Run(valid, s, steps[..n + 1]).config, zone);
      FreshStepIsOrdered(valid, Run(valid, s, front), steps[n], zone);
    }
  }

  lemma OrderedReflexive(c: Config, zone: string)
    requires Present(c, zone)
    ensures Ordered(c, c, zone)
  {
  }

  lemma FrontOfRun(valid: Config -> bool, s: Store, steps: seq<Step>, zone: string, from: nat)
    requires from < |steps|
    requires StaysPresent(valid, s, steps, zone, from) && AllFresh(valid, s, steps, zone, from)
    ensures StaysPresent(valid, s, steps[..|steps| - 1], zone, from) && AllFresh(valid, s, steps[..|steps| - 1], zone, from)
  {
    hide Run, FreshFor, Present;
    var front := steps[..|steps| - 1];
    forall k | from <= k <= |front| ensures Present(Run(valid, s, front[..k]).config, zone) {
      assert front[..k] == steps[..k];
    }
    forall k | from <= k < |front| ensures FreshFor(Run(valid, s, front[..k]), front[k], zone) {
      assert front[..k] == steps[..k];
    }
  }

  // So it is whenever no update commits between another one's read and commit.
  lemma UndisturbedRunsAreFresh(valid: Config -> bool, s: Store, steps: seq<Step>, zone: string)
    requires StoreOk(valid, s)
    requires forall k :: 0 <= k < |steps| ==> Undisturbed(Run(valid, s, steps[..k]), steps[k])
    ensures AllFresh(valid, s, steps, zone, 0)
  {
    hide StoreOk, FreshFor, Undisturbed;
    forall k | 0 <= k < |steps| ensures FreshFor(Run(valid, s, steps[..k]), steps[k], zone) {
      RunKeepsStoreOk(valid, s, steps[..k]);
      UndisturbedIsFresh(valid, Run(valid, s, steps[..k]), steps[k], zone);
    }
  }

  // ---- Freshness is exactly what a commit needs ----

  // A configuration an earlier update or load can have left.
  predicate Held(c: Config) {
    DistinctNames(c.domains) && forall i :: 0 <= i < |c.domains| ==> c.domains[i].serial <= MAX_SERIAL
  }

  // This call, having read one configuration, may replace another.
  predicate MayReplace(valid: Config -> bool, read: Config, current: Config, input: Input, zone: string) {
    var r := Prepared(valid, read, input);
    r.Ok? && Present(current, zone) && Present(r.value, zone) ==> Ordered(current, r.value, zone)
  }

  lemma {:induction false} IndexOfDistinct(domains: seq<Domain>, i: nat)
    requires DistinctNames(domains) && i < |domains|
    ensures IndexOf(domains, domains[i].name) == Some(i)
  {
    if i < |domains| - 1 { IndexOfDistinct(domains[..|domains| - 1], i); }
  }

  predicate Anything(c: Config) { true }

  // Submitting what was read gives back what was read.
  lemma ResubmittedIsKept(read: Config, base: nat)
    requires Held(read)
    ensures Prepared(Anything, read, Input(read, base, [])) == Ok(read)
  {
    hide AuthorityProjection, NextSoaSerial;
    forall i | 0 <= i < |read.domains|
      ensures Bumped(read, read, read.domains[i], base) == Ok(read.domains[i].serial)
    {
      IndexOfDistinct(read.domains, i);
    }
    var bumped := BumpedDomains(read, read, base, |read.domains|);
    assert bumped.value == read.domains;
  }

  function OneZone(zone: string, timers: Timers, ttl: nat, serial: nat): Config {
    Config([Domain(zone, true, ttl, timers, serial)], [])
  }

  // A zone that was not there when the call read starts from whatever serial the call brings.
  lemma NewZoneIsKept(read: Config, zone: string, timers: Timers, ttl: nat)
    requires Held(read) && !Present(read, zone)
    ensures Prepared(Anything, read, Input(OneZone(zone, timers, ttl, 0), 0, [])) == Ok(OneZone(zone, timers, ttl, 0))
  {
    hide AuthorityProjection, NextSoaSerial;
    var next := OneZone(zone, timers, ttl, 0);
    assert Bumped(read, next, next.domains[0], 0) == Ok(0);
    var bumped := BumpedDomains(read, next, 0, 1);
    assert bumped.value == next.domains;
  }

  lemma OneZoneIsPresent(zone: string, timers: Timers, ttl: nat, serial: nat)
    ensures var c := OneZone(zone, timers, ttl, serial);
      && Present(c, zone) && SerialOf(c, zone) == serial
      && AuthorityProjection(c, zone) == Some(Projection(true, ttl, timers, []))
  {
  }

  lemma StaleReadIsUnsafe(read: Config, current: Config, zone: string) returns (input: Input)
    requires Held(read) && Held(current) && Present(current, zone)
    requires !(Present(read, zone) && Ordered(current, read, zone))
    ensures !MayReplace(Anything, read, current, input, zone)
  {
    if Present(read, zone) {
      input := Input(read, 0, []);
      ResubmittedIsKept(read, 0);
    } else {
      var p := AuthorityProjection(current, zone).value;
      input := Input(OneZone(zone, p.timers, p.defaultTtl + 1, 0), 0, []);
      NewZoneIsKept(read, zone, p.timers, p.defaultTtl + 1);
      OneZoneIsPresent(zone, p.timers, p.defaultTtl + 1, 0);
    }
  }

  // Main result: a call may replace what is held, whatever it brings, exactly when what it read is no older for
  // every zone held.
  lemma CommitIsSafeExactly(read: Config, current: Config)
    requires Held(read) && Held(current)
    ensures (forall valid, input, zone :: MayReplace(valid, read, current, input, zone)) <==>
      forall zone :: Present(current, zone) ==> Ordered(current, read, zone)
  {
    hide Ordered, Present, MayReplace, Held, Prepared;
    if forall zone :: Present(current, zone) ==> Ordered(current, read, zone) {
      forall valid: Config -> bool, input, zone ensures MayReplace(valid, read, current, input, zone) {
        FreshReadIsSafe(valid, read, current, input, zone);
      }
    } else {
      var zone :| Present(current, zone) && !Ordered(current, read, zone);
      var input := StaleReadIsUnsafe(read, current, zone);
      assert !MayReplace(Anything, read, current, input, zone);
    }
  }

  lemma FreshReadIsSafe(valid: Config -> bool, read: Config, current: Config, input: Input, zone: string)
    requires Present(current, zone) ==> Ordered(current, read, zone)
    ensures MayReplace(valid, read, current, input, zone)
  {
    hide AuthorityProjection, Prepared;
    var r := Prepared(valid, read, input);
    if r.Ok? && Present(current, zone) && Present(r.value, zone) { PreparedIsOrdered(valid, read, input, zone); }
  }

  // ---- Two overlapping updates ----

  lemma OneZoneUpdated(zone: string, timers: Timers, ttl: nat, serial: nat, ttl': nat)
    requires serial < MAX_SERIAL && ttl != ttl'
    ensures Prepared(Anything, OneZone(zone, timers, ttl, serial), Input(OneZone(zone, timers, ttl', 0), 0, []))
      == Ok(OneZone(zone, timers, ttl', serial + 1))
  {
    var c, next := OneZone(zone, timers, ttl, serial), OneZone(zone, timers, ttl', 0);
    OneZoneIsPresent(zone, timers, ttl, serial);
    OneZoneIsPresent(zone, timers, ttl', 0);
    hide AuthorityProjection;
    assert Bumped(c, next, next.domains[0], 0) == Ok(serial + 1);
    assert BumpedDomains(c, next, 0, 1).value == OneZone(zone, timers, ttl', serial + 1).domains;
  }

  lemma OneZoneImported(zone: string, timers: Timers, ttl: nat, serial: nat, m: nat)
    requires serial < m <= MAX_SERIAL
    ensures Prepared(Anything, OneZone(zone, timers, ttl, serial), Input(OneZone(zone, timers, ttl, serial), 0, [Import(zone, m)]))
      == Ok(OneZone(zone, timers, ttl, m))
  {
    var c := OneZone(zone, timers, ttl, serial);
    var imports := [Import(zone, m)];
    hide AuthorityProjection;
    IndexOfDistinct(c.domains, 0);
    assert Bumped(c, c, c.domains[0], 0) == Ok(serial);
    assert BumpedDomains(c, c, 0, 1).value == c.domains;
    assert imports[1..] == [];
    assert c.domains[0 := c.domains[0].(serial := m)] == OneZone(zone, timers, ttl, m).domains;
    assert Imported(c.domains, imports) == Imported(OneZone(zone, timers, ttl, m).domains, []);
  }

  // Both calls bump the serial they read: two configurations with one serial that publish different zones.
  lemma OverlapSharesSerial(zone: string, timers: Timers)
    ensures var s0 := Store(OneZone(zone, timers, 300, 10), 0, map[]);
      var steps := [Read(1, Input(OneZone(zone, timers, 301, 0), 0, [])), Read(2, Input(OneZone(zone, timers, 302, 0), 0, [])),
                    Commit(1), Commit(2)];
      && Run(Anything, s0, steps[..3]).config == OneZone(zone, timers, 301, 11)
      && Run(Anything, s0, steps).config == OneZone(zone, timers, 302, 11)
      && !Undisturbed(Run(Anything, s0, steps[..3]), steps[3])
  {
    var s0 := Store(OneZone(zone, timers, 300, 10), 0, map[]);
    var a, b := Input(OneZone(zone, timers, 301, 0), 0, []), Input(OneZone(zone, timers, 302, 0), 0, []);
    OneZoneUpdated(zone, timers, 300, 10, 301);
    OneZoneUpdated(zone, timers, 300, 10, 302);
    Overlap(Anything, s0, a, b, OneZone(zone, timers, 301, 11), OneZone(zone, timers, 302, 11));
  }

  // Reads 1, 2, then commits 1, 2.
  lemma Overlap(valid: Config -> bool, s0: Store, a: Input, b: Input, first: Config, second: Config)
    requires s0.inFlight == map[]
    requires Prepared(valid, s0.config, a) == Ok(first) && Prepared(valid, s0.config, b) == Ok(second)
    ensures var steps := [Read(1, a), Read(2, b), Commit(1), Commit(2)];
      && Run(valid, s0, steps[..3]).config == first && Run(valid, s0, steps).config == second
      && !Undisturbed(Run(valid, s0, steps[..3]), steps[3])
  {
    hide Prepared;
    var steps := [Read(1, a), Read(2, b), Commit(1), Commit(2)];
    var one, two := [Read(1, a)], [Read(1, a), Read(2, b)];
    assert steps[..3][..2] == two && two[..1] == one && one[..0] == [];
    assert Run(valid, s0, one[..0]) == s0;
    var s1 := Run(valid, s0, one);
    assert s1 == Apply(valid, s0, Read(1, a));
    var s2 := Run(valid, s0, two);
    assert s2 == Apply(valid, s1, Read(2, b));
    assert Run(valid, s0, steps[..3]) == Apply(valid, s2, Commit(1));
    assert steps[..4] == steps;
    assert Run(valid, s0, steps) == Apply(valid, Run(valid, s0, steps[..3]), Commit(2));
  }

  // An update that read before an import of serial 100 and commits after it takes the serial back to 11.
  lemma OverlapLowersSerial(zone: string, timers: Timers)
    ensures var s0 := Store(OneZone(zone, timers, 300, 10), 0, map[]);
      var steps := [Read(1, Input(OneZone(zone, timers, 300, 10), 0, [Import(zone, 100)])),
                    Read(2, Input(OneZone(zone, timers, 301, 0), 0, [])), Commit(1), Commit(2)];
      && Run(Anything, s0, steps[..3]).config == OneZone(zone, timers, 300, 100)
      && Run(Anything, s0, steps).config == OneZone(zone, timers, 301, 11)
  {
    var s0 := Store(OneZone(zone, timers, 300, 10), 0, map[]);
    OneZoneImported(zone, timers, 300, 10, 100);
    OneZoneUpdated(zone, timers, 300, 10, 301);
    Overlap(Anything, s0, Input(OneZone(zone, timers, 300, 10), 0, [Import(zone, 100)]),
            Input(OneZone(zone, timers, 301, 0), 0, []), OneZone(zone, timers, 300, 100), OneZone(zone, timers, 301, 11));
  }

  // A zone whose serial has reached 2^32 - 1 is frozen: no accepted update changes what it publishes.
  lemma ExhaustedZoneIsFrozen(valid: Config -> bool, c: Config, next: Config, base: nat, imports: seq<Import>, zone: string)
    requires Updated(valid, Some(c), next, base, imports).Ok? && Present(c, zone) && SerialOf(c, zone) >= MAX_SERIAL
    requires Present(Updated(valid, Some(c), next, base, imports).value, zone)
    ensures AuthorityProjection(Updated(valid, Some(c), next, base, imports).value, zone) == AuthorityProjection(c, zone)
  {
    hide AuthorityProjection;
    var d := Updated(valid, Some(c), next, base, imports).value;
    UpdateStep(valid, c, next, base, imports, zone);
    assert Accepted(valid, d);
  }
}
