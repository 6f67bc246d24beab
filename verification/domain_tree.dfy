// Renaming a domain together with everything below it.
module DomainTree {
  import opened Wrappers
  import opened Text
  import opened Names
  import WireNames

  datatype RecordType = A | AAAA | TXT | CNAME | NS | MX | SRV

  // `target` is the value of a CNAME or NS, the exchange of an MX, the target of an SRV;
  // `rest` stands for the fields renaming never reads.
  datatype Record = Record(name: string, rtype: RecordType, target: string, rest: string)

  datatype Domain = Domain(name: string, rest: string)

  datatype Route = Route(host: string, aliases: seq<string>, dnsName: Option<string>, rest: string)

  datatype Config = Config(domains: seq<Domain>, records: seq<Record>, routes: seq<Route>)

  datatype Failure = InvalidDomain | UnknownDomain | RenameConflict | ProxyHostConflict

  // slice(0, -n)
  function Cut(s: string, n: nat): string {
    if n <= |s| then s[..|s| - n] else ""
  }

  // Names are kept as entered unless they lie in the old tree; then they are normalized as well.
  function RewriteSuffix(value: string, previous: string, next: string): string {
    var normalized := NormalizeName(value);
    if !BelongsTo(normalized, previous) then value
    else if normalized == previous then next
    else Cut(normalized, |previous| + 1) + ['.'] + next
  }

  function Map<T, U>(s: seq<T>, f: T -> U): seq<U> {
    seq(|s|, i requires 0 <= i < |s| => f(s[i]))
  }

  function ZoneNames(domains: seq<Domain>): seq<string> {
    seq(|domains|, i requires 0 <= i < |domains| => domains[i].name)
  }

  predicate PointsAtName(t: RecordType) {
    t == CNAME || t == NS || t == MX || t == SRV
  }

  function RewriteRecord(r: Record, previous: string, next: string): Record {
    r.(name := RewriteSuffix(r.name, previous, next),
       target := if PointsAtName(r.rtype) then RewriteSuffix(r.target, previous, next) else r.target)
  }

  function RewriteRoute(r: Route, previous: string, next: string): Route {
    r.(host := RewriteSuffix(r.host, previous, next),
       aliases := seq(|r.aliases|, i requires 0 <= i < |r.aliases| => RewriteSuffix(r.aliases[i], previous, next)),
       dnsName := if r.dnsName.None? then None else Some(RewriteSuffix(r.dnsName.value, previous, next)))
  }

  function RewriteDomain(d: Domain, previous: string, next: string): Domain {
    if BelongsTo(d.name, previous) then d.(name := RewriteSuffix(d.name, previous, next)) else d
  }

  function ProxyNames(routes: seq<Route>): seq<string> {
    if routes == [] then []
    else
      var r := routes[|routes| - 1];
      ProxyNames(routes[..|routes| - 1]) + ([NormalizeName(r.host)] + Map(r.aliases, NormalizeName))
  }

  // normalizeDomainName: not empty, no wildcard, and it encodes.
  predicate DomainNameOk(name: string) {
    name != "" && Lacks(name, '*') && WireNames.Encode(name).Ok?
  }

  // normalizeDomains as far as names go.
  function NormalDomains(domains: seq<Domain>): seq<Domain> {
    seq(|domains|, i requires 0 <= i < |domains| => domains[i].(name := NormalizeName(domains[i].name)))
  }

  predicate DomainsOk(domains: seq<Domain>) {
    (forall i :: 0 <= i < |domains| ==> DomainNameOk(domains[i].name)) && Distinct(ZoneNames(domains))
  }

  predicate Conflicts(domains: seq<Domain>, previous: string, next: string) {
    exists i, j :: 0 <= i < |domains| && 0 <= j < |domains| &&
      !BelongsTo(domains[i].name, previous) && BelongsTo(domains[j].name, previous)
      && RewriteSuffix(domains[j].name, previous, next) == domains[i].name
  }

  function Rewritten(c: Config, previous: string, next: string): Config {
    Config(seq(|c.domains|, i requires 0 <= i < |c.domains| => RewriteDomain(c.domains[i], previous, next)),
           seq(|c.records|, i requires 0 <= i < |c.records| => RewriteRecord(c.records[i], previous, next)),
           seq(|c.routes|, i requires 0 <= i < |c.routes| => RewriteRoute(c.routes[i], previous, next)))
  }

  // `previous` and `next` are the two names as normalizeDomainName leaves them.
  function RenameDomainTree(c: Config, previous: string, next: string): Result<Config, Failure> {
    var domains := NormalDomains(c.domains);
    if !DomainsOk(domains) then Err(InvalidDomain)
    else if previous !in ZoneNames(domains) then Err(UnknownDomain)
    else if Conflicts(domains, previous, next) then Err(RenameConflict)
    else
      var renamed := Rewritten(c.(domains := domains), previous, next);
      if !Distinct(ProxyNames(renamed.routes)) then Err(ProxyHostConflict) else Ok(renamed)
  }

  // ---- Names in a configuration ----

  // A domain name that may stand in a configuration: what normalizeDomainName returns, without a final dot.
  predicate TreeName(name: string) {
    Normal(name) && DomainNameOk(name)
  }

  // Zone names as validateConfig stores them; records and routes are stored as entered.
  predicate ZonesStored(c: Config) {
    (forall i :: 0 <= i < |c.domains| ==> TreeName(c.domains[i].name)) && Distinct(ZoneNames(c.domains))
  }

  ghost predicate HoldsName(c: Config, n: string) {
    || (exists i :: 0 <= i < |c.domains| && c.domains[i].name == n)
    || (exists i :: 0 <= i < |c.records| && RecordHolds(c.records[i], n))
    || (exists i :: 0 <= i < |c.routes| && RouteHolds(c.routes[i], n))
  }

  predicate RecordHolds(r: Record, n: string) {
    r.name == n || (PointsAtName(r.rtype) && r.target == n)
  }

  predicate RouteHolds(r: Route, n: string) {
    r.host == n || n in r.aliases || r.dnsName == Some(n)
  }

  // Inside the old tree a name must be spelled in normal form; outside, it must not lie under the new name.
  predicate Restorable(n: string, previous: string, next: string) {
    if LiesUnder(n, previous) then Normal(n) else !LiesUnder(n, next)
  }

  ghost predicate AllRestorable(c: Config, previous: string, next: string) {
    forall n :: HoldsName(c, n) ==> Restorable(n, previous, next)
  }

  // ---- Rewriting one name ----

  lemma TreeNameIsZoneName(name: string)
    requires TreeName(name)
    ensures ZoneName(name) && name[|name| - 1] != '.' && WireNames.Encodable(name)
  {
    WireNames.EncodesExactly(name);
    LabelsNotEmpty(name);
  }

  lemma NormalLies(name: string, domain: string)
    requires Normal(name)
    ensures LiesUnder(name, domain) <==> Under(name, domain)
    ensures BelongsTo(name, domain) <==> Under(name, domain)
  {
  }

  // What precedes the old suffix: empty, or labels with their final dot.
  function Head(name: string, domain: string): string
    requires Under(name, domain)
  {
    UnderByIndex(name, domain);
    name[..|name| - |domain|]
  }

  lemma LowerOfPrefix(s: string, n: nat)
    requires Lower(s) == s && n <= |s|
    ensures Lower(s[..n]) == s[..n]
  {
    forall i | 0 <= i < n ensures Lower(s[..n])[i] == s[..n][i] { assert Lower(s)[i] == s[i]; }
  }

  // A rewritten name is in normal form and lies under the new name.
  lemma RewrittenLies(name: string, previous: string, next: string)
    requires ZoneName(next) && LiesUnder(name, previous)
    ensures var r := RewriteSuffix(name, previous, next); Normal(r) && Under(r, next)
  {
    hide Lower;
    var normalized := NormalizeName(name);
    var r := RewriteSuffix(name, previous, next);
    NormalIsLower(next);
    if normalized != previous {
      var head := Cut(normalized, |previous| + 1);
      NormalizedIsLower(name);
      if head != "" { LowerOfPrefix(normalized, |head|); } else { LowerOfEmpty(); }
      LowerOfDot();
      LowerConcat(head, ['.']);
      LowerConcat(head + ['.'], next);
      NormalIsLower(r);
      assert r[|head|..] == ['.'] + next;
    }
  }

  lemma RewriteIsHeadSwap(name: string, previous: string, next: string)
    requires Normal(name) && Under(name, previous)
    ensures RewriteSuffix(name, previous, next) == Head(name, previous) + next
    ensures name == Head(name, previous) + previous
  {
    hide Normal, NormalizeName;
    UnderByIndex(name, previous);
    NormalizesToItself(name);
    if name != previous {
      assert name[..|name| - (|previous| + 1)] + ['.'] == name[..|name| - |previous|];
    }
  }

  lemma NormalizesToItself(name: string)
    requires Normal(name)
    ensures NormalizeName(name) == name
  {
  }

  lemma HeadOfSwap(head: string, next: string)
    requires Under(head + next, next)
    ensures Head(head + next, next) == head
  {
  }

  // Renaming back undoes a rewrite exactly for restorable names.
  lemma RewriteBack(name: string, previous: string, next: string)
    requires ZoneName(previous) && ZoneName(next)
    ensures RewriteSuffix(RewriteSuffix(name, previous, next), next, previous) == name <==> Restorable(name, previous, next)
  {
    hide ZoneName, NormalizeName, RewriteSuffix, Head, BelongsTo;
    var renamed := RewriteSuffix(name, previous, next);
    var back := RewriteSuffix(renamed, next, previous);
    if LiesUnder(name, previous) {
      RewrittenLies(name, previous, next);
      NormalLies(renamed, next);
      RewrittenLies(renamed, next, previous);
      if Normal(name) {
        NormalLies(name, previous);
        RewriteIsHeadSwap(name, previous, next);
        RewriteIsHeadSwap(renamed, next, previous);
        HeadOfSwap(Head(name, previous), next);
      }
    } else {
      StaysOutside(name, previous, next);
      if LiesUnder(name, next) {
        RewrittenLies(name, next, previous);
        NormalLies(back, previous);
      } else {
        StaysOutside(name, next, previous);
      }
    }
  }

  lemma StaysOutside(name: string, previous: string, next: string)
    requires !LiesUnder(name, previous)
    ensures RewriteSuffix(name, previous, next) == name
  {
  }

  // ---- Owners move with their names ----

  lemma HeadsDecideUnder(p: string, q: string, s: string, t: string)
    requires Under(p + s, q + s)
    ensures Under(p + t, q + t)
  {
    UnderByIndex(p + s, q + s);
    UnderByIndex(p + t, q + t);
    var k := |p| - |q|;
    assert (p + s)[k..] == p[k..] + s;
    assert p[k..] == (p + s)[k..][..|q|] == (q + s)[..|q|] == q;
    assert (p + t)[k..] == p[k..] + t;
  }

  predicate RenamedZones(zones: seq<string>, renamed: seq<string>, previous: string, next: string) {
    && |renamed| == |zones|
    && forall i :: 0 <= i < |zones| ==> renamed[i] == RewriteSuffix(zones[i], previous, next)
  }

  // Zones in normal form, none of them below the new name unless below the old one.
  predicate ZonesFree(zones: seq<string>, previous: string, next: string) {
    && previous in zones
    && forall z :: z in zones ==> ZoneName(z) && (Under(z, next) ==> Under(z, previous))
  }

  lemma RenamedZoneComesFrom(zones: seq<string>, renamed: seq<string>, previous: string, next: string, z: string) returns (e: string)
    requires RenamedZones(zones, renamed, previous, next) && z in renamed
    ensures e in zones && z == RewriteSuffix(e, previous, next)
  {
    var i :| 0 <= i < |renamed| && renamed[i] == z;
    e := zones[i];
  }

  lemma ZoneMoves(zone: string, previous: string, next: string)
    requires ZoneName(zone) && ZoneName(next)
    ensures Under(zone, previous) ==> (
      && RewriteSuffix(zone, previous, next) == Head(zone, previous) + next && zone == Head(zone, previous) + previous
      && Under(RewriteSuffix(zone, previous, next), next))
    ensures !Under(zone, previous) ==> RewriteSuffix(zone, previous, next) == zone
  {
    hide NormalizeName, NoEmptyLabels;
    NormalLies(zone, previous);
    if Under(zone, previous) {
      RewriteIsHeadSwap(zone, previous, next);
      RewrittenLies(zone, previous, next);
    }
  }

  // Inside the renamed tree a zone covers a name exactly as before, and no outside zone gets in between.
  lemma CoverInsideTree(name: string, zone: string, owner: string, previous: string, next: string)
    requires ZoneName(zone) && ZoneName(next) && (Under(zone, next) ==> Under(zone, previous))
    requires Normal(name) && Under(name, previous) && Under(name, owner) && |previous| <= |owner| && ZoneName(owner)
    requires Under(RewriteSuffix(name, previous, next), RewriteSuffix(zone, previous, next))
    requires Under(name, zone) ==> |zone| <= |owner|
    ensures |RewriteSuffix(zone, previous, next)| <= |RewriteSuffix(owner, previous, next)|
  {
    hide ZoneName, NormalizeName, RewriteSuffix;
    var n', z' := RewriteSuffix(name, previous, next), RewriteSuffix(zone, previous, next);
    UnderComparable(name, owner, previous);
    RewriteIsHeadSwap(name, previous, next);
    NormalLies(name, previous);
    RewrittenLies(name, previous, next);
    ZoneMoves(owner, previous, next);
    ZoneMoves(zone, previous, next);
    if Under(zone, previous) {
      HeadsDecideUnder(Head(name, previous), Head(zone, previous), next, previous);
    } else if |z'| >= |next| {
      UnderComparable(n', z', next);
    }
  }

  lemma OwnerInsideTree(zones: seq<string>, renamed: seq<string>, name: string, owner: string, previous: string, next: string)
    requires RenamedZones(zones, renamed, previous, next) && ZonesFree(zones, previous, next) && ZoneName(next)
    requires Normal(name) && Under(name, previous) && IsOwner(zones, name, owner)
    ensures IsOwner(renamed, RewriteSuffix(name, previous, next), RewriteSuffix(owner, previous, next))
  {
    hide ZoneName, NormalizeName, RewriteSuffix;
    var n', o' := RewriteSuffix(name, previous, next), RewriteSuffix(owner, previous, next);
    UnderComparable(name, owner, previous);
    RewriteIsHeadSwap(name, previous, next);
    ZoneMoves(owner, previous, next);
    HeadsDecideUnder(Head(name, previous), Head(owner, previous), previous, next);
    var k :| 0 <= k < |zones| && zones[k] == owner;
    assert renamed[k] == o';
    forall z | z in renamed && Under(n', z) ensures |z| <= |o'| {
      var e := RenamedZoneComesFrom(zones, renamed, previous, next, z);
      CoverInsideTree(name, e, owner, previous, next);
    }
  }

  // Outside both trees the same zones cover a name before and after.
  lemma CoverOutsideTree(name: string, zone: string, previous: string, next: string)
    requires ZoneName(zone) && ZoneName(next) && !Under(name, previous) && !Under(name, next)
    ensures Under(name, RewriteSuffix(zone, previous, next)) <==> Under(name, zone)
    ensures Under(name, zone) ==> RewriteSuffix(zone, previous, next) == zone
  {
    hide ZoneName, RewriteSuffix;
    ZoneMoves(zone, previous, next);
    if Under(zone, previous) {
      if Under(name, zone) { UnderTransitive(name, zone, previous); }
      if Under(name, RewriteSuffix(zone, previous, next)) { UnderTransitive(name, RewriteSuffix(zone, previous, next), next); }
    }
  }

  lemma OwnerOutsideTree(zones: seq<string>, renamed: seq<string>, name: string, previous: string, next: string)
    requires RenamedZones(zones, renamed, previous, next) && ZonesFree(zones, previous, next) && ZoneName(next)
    requires !Under(name, previous) && !Under(name, next)
    ensures Owner(renamed, name) == Owner(zones, name)
    ensures Owner(zones, name).Some? ==>
      RewriteSuffix(Owner(zones, name).value, previous, next) == Owner(zones, name).value
  {
    hide ZoneName, RewriteSuffix;
    var owner := Owner(zones, name);
    forall z | z in renamed && Under(name, z) ensures z in zones && Under(name, z) {
      var e := RenamedZoneComesFrom(zones, renamed, previous, next, z);
      CoverOutsideTree(name, e, previous, next);
    }
    if owner.Some? {
      CoverOutsideTree(name, owner.value, previous, next);
      var k :| 0 <= k < |zones| && zones[k] == owner.value;
      assert renamed[k] == owner.value;
      OwnerIsUnique(renamed, name, owner.value);
    }
  }

  // A name of the tree entered with two final dots keeps one of them: the new zones below the root do not cover it.
  lemma DottedName(name: string, previous: string, next: string)
    requires LiesUnder(name, previous) && !Normal(NormalizeName(name)) && ZoneName(previous)
    ensures var m := NormalizeName(NormalizeName(name));
      Normal(m) && Under(m, previous) && RewriteSuffix(name, previous, next) == Head(m, previous) + ['.'] + next
  {
    hide NormalizeName, RewriteSuffix, Normal, Lower, Under;
    var n1, m := NormalizeName(name), NormalizeName(NormalizeName(name));
    NormalizedIsLower(name);
    NormalIsLower(n1);
    NormalIsLower(previous);
    UnderByIndex(m, previous);
    FinalDot(n1);
    LowerOfPrefix(n1, |n1| - 1);
    NormalIsLower(m);
    DottedRewrite(name, previous, next);
  }

  lemma FinalDot(name: string)
    requires Lower(name) == name && name != "" && name[|name| - 1] == '.'
    ensures NormalizeName(name) == name[..|name| - 1]
  {
    LowerOfPrefix(name, |name| - 1);
  }

  lemma DottedRewrite(name: string, previous: string, next: string)
    requires LiesUnder(name, previous)
    requires var n1, m := NormalizeName(name), NormalizeName(NormalizeName(name)); n1 == m + ['.'] && Under(m, previous)
    requires previous != "" && previous[|previous| - 1] != '.'
    ensures RewriteSuffix(name, previous, next) == Head(NormalizeName(NormalizeName(name)), previous) + ['.'] + next
  {
    hide NormalizeName, Under, LiesUnder;
    var n1, m := NormalizeName(name), NormalizeName(NormalizeName(name));
    assert n1[|n1| - 1] == '.';
    UnderByIndex(m, previous);
    assert Cut(n1, |previous| + 1) == m[..|m| - |previous|];
  }

  // Where the tail of a name is made of a zone's labels, two dots would have to meet.
  lemma LastOfSuffix(name: string, head: string, zone: string, next: string)
    requires head == "" || head[|head| - 1] == '.'
    requires zone != "" && zone[|zone| - 1] == '.' && NoEmptyLabels(zone + next)
    requires name == head + ['.'] + next
    ensures |zone + next| <= |name| ==> name[|name| - |zone + next|..] != zone + next
  {
    var w := zone + next;
    assert w[0] == zone[0] && w[|zone| - 1] == '.';
    assert |zone| >= 2 && w[|zone| - 2] != '.';
    if |w| <= |name| {
      assert name[|name| - |w|..][|zone| - 2] == name[|head| - 1] == '.';
    }
  }

  lemma RootCovers(head: string, zone: string, next: string)
    requires head == "" || head[|head| - 1] == '.'
    requires zone != "" && zone[|zone| - 1] == '.' && NoEmptyLabels(zone + next)
    ensures !Under(head + ['.'] + next, zone + next)
  {
    var name := head + ['.'] + next;
    UnderByIndex(name, zone + next);
    if Under(name, zone + next) {
      LastOfSuffix(name, head, zone, next);
    }
  }

  lemma OwnerOfDotted(zones: seq<string>, renamed: seq<string>, name: string, previous: string, next: string)
    requires RenamedZones(zones, renamed, previous, next) && ZonesFree(zones, previous, next) && ZoneName(next)
    requires ZoneName(previous) && LiesUnder(name, previous) && !Normal(NormalizeName(name))
    ensures Owner(renamed, RewriteSuffix(name, previous, next)) == Some(next)
  {
    hide ZoneName, RewriteSuffix;
    var m := NormalizeName(NormalizeName(name));
    DottedName(name, previous, next);
    RewrittenLies(name, previous, next);
    hide NormalizeName, LiesUnder, Under, Normal;
    var head := Head(m, previous);
    var r := RewriteSuffix(name, previous, next);
    UnderByIndex(m, previous);
    var k :| 0 <= k < |zones| && zones[k] == previous;
    ZoneMoves(previous, previous, next);
    assert renamed[k] == next;
    forall z | z in renamed && Under(r, z) ensures |z| <= |next| {
      var e := RenamedZoneComesFrom(zones, renamed, previous, next, z);
      NothingBelowCovers(head, r, e, previous, next);
    }
    OwnerIsUnique(renamed, r, next);
  }

  lemma NothingBelowCovers(head: string, r: string, zone: string, previous: string, next: string)
    requires ZoneName(zone) && ZoneName(next) && (Under(zone, next) ==> Under(zone, previous))
    requires r == head + ['.'] + next && Under(r, next) && (head == "" || head[|head| - 1] == '.')
    requires Under(r, RewriteSuffix(zone, previous, next))
    ensures |RewriteSuffix(zone, previous, next)| <= |next|
  {
    hide ZoneName, RewriteSuffix, Under;
    var z := RewriteSuffix(zone, previous, next);
    ZoneMoves(zone, previous, next);
    if |z| > |next| {
      UnderComparable(r, z, next);
      UnderByIndex(zone, previous);
      RenamedStaysWhole(zone, previous, next);
      RootCovers(head, Head(zone, previous), next);
    }
  }

  lemma RenamedStaysWhole(zone: string, previous: string, next: string)
    requires ZoneName(zone) && ZoneName(next) && Under(zone, previous) && |zone| > |previous|
    ensures var head := Head(zone, previous); head != "" && head[|head| - 1] == '.' && NoEmptyLabels(head + next)
  {
    var head := Head(zone, previous);
    UnderByIndex(zone, previous);
    var w := head + next;
    assert forall i :: 0 <= i < |head| ==> w[i] == zone[i];
    forall i | 0 <= i < |w| - 1 ensures !(w[i] == '.' && w[i + 1] == '.') {
      if i + 1 < |head| {
        assert zone[i] == w[i] && zone[i + 1] == w[i + 1];
      } else if i >= |head| {
        assert w[i] == next[i - |head|] && w[i + 1] == next[i + 1 - |head|];
      }
    }
  }

  lemma SameSpelling(name: string, previous: string, next: string)
    requires LiesUnder(name, previous) && Normal(NormalizeName(name))
    ensures RewriteSuffix(name, previous, next) == RewriteSuffix(NormalizeName(name), previous, next)
    ensures Under(NormalizeName(name), previous) && NormalizeName(NormalizeName(name)) == NormalizeName(name)
  {
  }

  lemma OwnerMovesOnlyIfRoot(owner: string, previous: string, next: string)
    requires ZoneName(owner) && ZoneName(next) && Under(owner, previous)
    ensures RewriteSuffix(owner, previous, next) == next <==> owner == previous
  {
    ZoneMoves(owner, previous, next);
  }

  // Main result on ownership: a name's owner after the rename is its owner's new name, for every name as entered
  // except those of the tree entered with two final dots, which all fall to the renamed root.
  lemma OwnersFollowExactly(zones: seq<string>, renamed: seq<string>, name: string, previous: string, next: string)
    requires RenamedZones(zones, renamed, previous, next) && ZonesFree(zones, previous, next) && ZoneName(next)
    requires LiesUnder(name, next) ==> LiesUnder(name, previous)
    ensures var owner := Classify(zones, name);
      Classify(renamed, RewriteSuffix(name, previous, next)) ==
        (if owner.None? then None else Some(RewriteSuffix(owner.value, previous, next)))
      <==> !LiesUnder(name, previous) || Normal(NormalizeName(name)) || owner == Some(previous)
  {
    hide ZoneName, RewriteSuffix;
    var m := NormalizeName(NormalizeName(name));
    var r := RewriteSuffix(name, previous, next);
    var owner := Owner(zones, m);
    if LiesUnder(name, previous) {
      RewrittenLies(name, previous, next);
      UnderComparable(m, owner.value, previous);
      if Normal(NormalizeName(name)) {
        SameSpelling(name, previous, next);
        OwnerInsideTree(zones, renamed, m, owner.value, previous, next);
        OwnerIsUnique(renamed, r, RewriteSuffix(owner.value, previous, next));
      } else {
        OwnerOfDotted(zones, renamed, name, previous, next);
        OwnerMovesOnlyIfRoot(owner.value, previous, next);
      }
    } else {
      StaysOutside(name, previous, next);
      OwnerOutsideTree(zones, renamed, m, previous, next);
    }
  }

  // A record of x.o entered as "x.o.." belongs to n, not to x.n, once o is renamed n.
  lemma TwoFinalDots()
    ensures Classify(["o", "x.o"], "x.o..") == Some("x.o")
    ensures RewriteSuffix("x.o..", "o", "n") == "x..n" && Classify(["n", "x.n"], "x..n") == Some("n")
  {
    DottedSpelling();
    hide NormalizeName, Under, RewriteSuffix;
    OldOwner();
    NewOwner();
  }

  lemma DottedSpelling()
    ensures NormalizeName(NormalizeName("x.o..")) == "x.o" && NormalizeName(NormalizeName("x..n")) == "x..n"
    ensures RewriteSuffix("x.o..", "o", "n") == "x..n"
  {
    assert NormalizeName("x.o..") == "x.o." && NormalizeName("x.o.") == "x.o" && NormalizeName("x..n") == "x..n";
    assert "x.o"[1..] == ['.'] + "o";
    assert Cut("x.o.", 2) == "x.";
  }

  lemma OldOwner()
    ensures Owner(["o", "x.o"], "x.o") == Some("x.o")
  {
    OwnerIsUnique(["o", "x.o"], "x.o", "x.o");
  }

  lemma NewOwner()
    ensures Owner(["n", "x.n"], "x..n") == Some("n")
  {
    hide Under;
    NewOwnerLies();
    OwnerIsUnique(["n", "x.n"], "x..n", "n");
  }

  lemma NewOwnerLies()
    ensures !Under("x..n", "x.n") && Under("x..n", "n")
  {
    assert "x..n"[2..] == ['.'] + "n";
    assert "x..n"[0..][0] == 'x' && (['.'] + "x.n")[0] == '.';
  }

  // ---- The whole configuration ----

  lemma RewriteDomainIsRewrite(d: Domain, previous: string, next: string)
    requires Normal(d.name)
    ensures RewriteDomain(d, previous, next) == d.(name := RewriteSuffix(d.name, previous, next))
  {
  }

  lemma StoredDomainsStay(c: Config)
    requires ZonesStored(c)
    ensures NormalDomains(c.domains) == c.domains && DomainsOk(c.domains)
  {
  }

  // Zones stay distinct whenever the rename is accepted.
  lemma RenamedZonesDistinct(c: Config, previous: string, next: string)
    requires ZonesStored(c) && TreeName(previous) && TreeName(next)
    requires RenameDomainTree(c, previous, next).Ok?
    ensures Distinct(ZoneNames(RenameDomainTree(c, previous, next).value.domains))
  {
    hide TreeName, NormalizeName, RewriteSuffix, DomainNameOk, ProxyNames, Head;
    StoredDomainsStay(c);
    var names := ZoneNames(c.domains);
    var renamed := ZoneNames(Rewritten(c, previous, next).domains);
    TreeNameIsZoneName(next);
    forall i, j | 0 <= i < j < |renamed| ensures renamed[i] != renamed[j] {
      var a, b := c.domains[i].name, c.domains[j].name;
      assert names[i] != names[j];
      TreeNameIsZoneName(a);
      TreeNameIsZoneName(b);
      NormalLies(a, previous);
      NormalLies(b, previous);
      RewriteDomainIsRewrite(c.domains[i], previous, next);
      RewriteDomainIsRewrite(c.domains[j], previous, next);
      ZoneMoves(a, previous, next);
      ZoneMoves(b, previous, next);
      if Under(a, previous) && Under(b, previous) { SameHeads(Head(a, previous), Head(b, previous), next); }
    }
  }

  lemma SameHeads(a: string, b: string, tail: string)
    ensures a + tail == b + tail ==> a == b
  {
    if a + tail == b + tail {
      assert (a + tail)[..|a|] == a && (b + tail)[..|b|] == b;
    }
  }

  lemma RecordBack(r: Record, previous: string, next: string)
    requires ZoneName(previous) && ZoneName(next)
    ensures RewriteRecord(RewriteRecord(r, previous, next), next, previous) == r <==>
      forall n :: RecordHolds(r, n) ==> Restorable(n, previous, next)
  {
    hide RewriteSuffix, Restorable;
    RewriteBack(r.name, previous, next);
    if PointsAtName(r.rtype) { RewriteBack(r.target, previous, next); }
    assert RecordHolds(r, r.name);
    assert PointsAtName(r.rtype) ==> RecordHolds(r, r.target);
  }

  lemma RouteBack(r: Route, previous: string, next: string)
    requires ZoneName(previous) && ZoneName(next)
    ensures RewriteRoute(RewriteRoute(r, previous, next), next, previous) == r <==>
      forall n :: RouteHolds(r, n) ==> Restorable(n, previous, next)
  {
    hide RewriteSuffix, Restorable;
    var back := RewriteRoute(RewriteRoute(r, previous, next), next, previous);
    assert RouteHolds(r, r.host);
    RewriteBack(r.host, previous, next);
    if r.dnsName.Some? {
      assert RouteHolds(r, r.dnsName.value);
      RewriteBack(r.dnsName.value, previous, next);
    }
    forall i | 0 <= i < |r.aliases|
      ensures back.aliases[i] == r.aliases[i] <==> Restorable(r.aliases[i], previous, next)
    {
      assert RouteHolds(r, r.aliases[i]);
      RewriteBack(r.aliases[i], previous, next);
    }
    assert back.aliases == r.aliases <==> forall i :: 0 <= i < |r.aliases| ==> back.aliases[i] == r.aliases[i];
  }

  lemma DomainBack(d: Domain, previous: string, next: string)
    requires ZoneName(d.name) && ZoneName(previous) && ZoneName(next)
    ensures RewriteDomain(RewriteDomain(d, previous, next), next, previous) == d <==> Restorable(d.name, previous, next)
    ensures Normal(RewriteDomain(d, previous, next).name)
  {
    hide RewriteSuffix, NormalizeName;
    RewriteDomainIsRewrite(d, previous, next);
    ZoneMoves(d.name, previous, next);
    NormalLies(d.name, previous);
    if Under(d.name, previous) { RewrittenLies(d.name, previous, next); }
    RewriteDomainIsRewrite(RewriteDomain(d, previous, next), next, previous);
    RewriteBack(d.name, previous, next);
  }

  lemma DomainsBack(c: Config, previous: string, next: string)
    requires ZonesStored(c) && ZoneName(previous) && ZoneName(next)
    ensures Rewritten(Rewritten(c, previous, next), next, previous).domains == c.domains <==>
      forall i :: 0 <= i < |c.domains| ==> Restorable(c.domains[i].name, previous, next)
  {
    hide RewriteDomain, Restorable, TreeName, ZoneName;
    var back := Rewritten(Rewritten(c, previous, next), next, previous);
    forall i | 0 <= i < |c.domains|
      ensures back.domains[i] == c.domains[i] <==> Restorable(c.domains[i].name, previous, next)
    {
      TreeNameIsZoneName(c.domains[i].name);
      DomainBack(c.domains[i], previous, next);
    }
    assert back.domains == c.domains <==> forall i :: 0 <= i < |c.domains| ==> back.domains[i] == c.domains[i];
  }

  lemma RecordsBack(c: Config, previous: string, next: string)
    requires ZoneName(previous) && ZoneName(next)
    ensures Rewritten(Rewritten(c, previous, next), next, previous).records == c.records <==>
      forall i, n :: 0 <= i < |c.records| && RecordHolds(c.records[i], n) ==> Restorable(n, previous, next)
  {
    hide RewriteRecord, Restorable, RecordHolds;
    var back := Rewritten(Rewritten(c, previous, next), next, previous);
    forall i | 0 <= i < |c.records|
      ensures back.records[i] == c.records[i] <==> forall n :: RecordHolds(c.records[i], n) ==> Restorable(n, previous, next)
    {
      RecordBack(c.records[i], previous, next);
    }
    assert back.records == c.records <==> forall i :: 0 <= i < |c.records| ==> back.records[i] == c.records[i];
  }

  lemma RoutesBack(c: Config, previous: string, next: string)
    requires ZoneName(previous) && ZoneName(next)
    ensures Rewritten(Rewritten(c, previous, next), next, previous).routes == c.routes <==>
      forall i, n :: 0 <= i < |c.routes| && RouteHolds(c.routes[i], n) ==> Restorable(n, previous, next)
  {
    hide RewriteRoute, Restorable, RouteHolds;
    var back := Rewritten(Rewritten(c, previous, next), next, previous);
    forall i | 0 <= i < |c.routes|
      ensures back.routes[i] == c.routes[i] <==> forall n :: RouteHolds(c.routes[i], n) ==> Restorable(n, previous, next)
    {
      RouteBack(c.routes[i], previous, next);
    }
    assert back.routes == c.routes <==> forall i :: 0 <= i < |c.routes| ==> back.routes[i] == c.routes[i];
  }

  // Rewriting the whole configuration there and back restores it exactly when every name in it is restorable.
  lemma RewrittenBack(c: Config, previous: string, next: string)
    requires ZonesStored(c) && ZoneName(previous) && ZoneName(next)
    ensures Rewritten(Rewritten(c, previous, next), next, previous) == c <==> AllRestorable(c, previous, next)
  {
    hide Restorable, RecordHolds, RouteHolds, RewriteDomain, RewriteRecord, RewriteRoute, TreeName, ZoneName;
    DomainsBack(c, previous, next);
    RecordsBack(c, previous, next);
    RoutesBack(c, previous, next);
    forall i | 0 <= i < |c.domains| ensures HoldsName(c, c.domains[i].name) {}
  }

  // ---- Renaming there and back ----

  // The new zone names keep the length limit.
  predicate RenamedFit(c: Config, previous: string, next: string) {
    forall i :: 0 <= i < |c.domains| && Under(c.domains[i].name, previous) ==>
      |c.domains[i].name| - |previous| + |next| <= 253
  }

  lemma JoinedLabels(head: string, tail: string)
    requires head != "" && head[|head| - 1] == '.'
    ensures Labels(head + tail) == Labels(head[..|head| - 1]) + Labels(tail)
  {
    assert head + tail == head[..|head| - 1] + ['.'] + tail;
    LabelsConcat(head[..|head| - 1], tail);
  }

  // ---- What a rename moves ----

  // A name of the old tree keeps its labels ahead of the old name, in normal form, in front of the new one; any other
  // name stays as entered. Said of names without a second final dot.
  ghost predicate Moves(value: string, previous: string, next: string, moved: string) {
    Normal(NormalizeName(value)) ==>
      if LiesUnder(value, previous) then
        exists front: seq<string> :: Labels(NormalizeName(value)) == front + Labels(previous) && Labels(moved) == front + Labels(next)
      else moved == value
  }

  lemma RewriteMoves(value: string, previous: string, next: string)
    ensures Moves(value, previous, next, RewriteSuffix(value, previous, next))
  {
    hide NormalizeName, Labels, Lower, EndsWith;
    var n := NormalizeName(value);
    if Normal(n) && LiesUnder(value, previous) {
      NormalizesToItself(n);
      if n == previous {
        assert [] + Labels(previous) == Labels(previous) && [] + Labels(next) == Labels(next);
      } else {
        var head := Cut(n, |previous| + 1);
        UnderByIndex(n, previous);
        assert n == head + ['.'] + previous;
        LabelsConcat(head, previous);
        LabelsConcat(head, next);
      }
    }
  }

  // Owners move, and so do the targets of aliases, name servers, mail exchanges and services; addresses and texts do not.
  ghost predicate RecordMoves(r: Record, s: Record, previous: string, next: string) {
    && s.rtype == r.rtype && s.rest == r.rest && Moves(r.name, previous, next, s.name)
    && match r.rtype
       case A => s.target == r.target
       case AAAA => s.target == r.target
       case TXT => s.target == r.target
       case CNAME => Moves(r.target, previous, next, s.target)
       case NS => Moves(r.target, previous, next, s.target)
       case MX => Moves(r.target, previous, next, s.target)
       case SRV => Moves(r.target, previous, next, s.target)
  }

  ghost predicate RouteMoves(r: Route, s: Route, previous: string, next: string) {
    && s.rest == r.rest && Moves(r.host, previous, next, s.host) && |s.aliases| == |r.aliases|
    && (forall i :: 0 <= i < |r.aliases| ==> Moves(r.aliases[i], previous, next, s.aliases[i]))
    && (r.dnsName.None? <==> s.dnsName.None?)
    && (r.dnsName.Some? ==> Moves(r.dnsName.value, previous, next, s.dnsName.value))
  }

  // A rename is accepted exactly when it names a zone, keeps the zone names distinct and leaves no two proxy names alike.
  lemma RenameAcceptedExactly(c: Config, previous: string, next: string)
    requires ZonesStored(c) && TreeName(previous) && TreeName(next)
    ensures var d := Rewritten(c, previous, next);
      RenameDomainTree(c, previous, next).Ok? <==>
        previous in ZoneNames(c.domains) && Distinct(ZoneNames(d.domains)) && Distinct(ProxyNames(d.routes))
  {
    hide RewriteSuffix, BelongsTo, TreeName, DomainNameOk, RewriteRoute, RewriteRecord, ProxyNames, RewriteDomain;
    StoredDomainsStay(c);
    StoredAgain(c);
    if RenameDomainTree(c, previous, next).Ok? { RenamedZonesDistinct(c, previous, next); }
    if Conflicts(c.domains, previous, next) { ConflictRepeats(c, previous, next); }
  }

  lemma StoredAgain(c: Config)
    requires NormalDomains(c.domains) == c.domains
    ensures c.(domains := NormalDomains(c.domains)) == c
  {
  }

  lemma ConflictRepeats(c: Config, previous: string, next: string)
    requires Conflicts(c.domains, previous, next)
    ensures !Distinct(ZoneNames(Rewritten(c, previous, next).domains))
  {
    hide RewriteSuffix, BelongsTo;
    var i, j :| 0 <= i < |c.domains| && 0 <= j < |c.domains|
      && !BelongsTo(c.domains[i].name, previous) && BelongsTo(c.domains[j].name, previous)
      && RewriteSuffix(c.domains[j].name, previous, next) == c.domains[i].name;
    var names := ZoneNames(Rewritten(c, previous, next).domains);
    assert names[i] == c.domains[i].name && names[j] == c.domains[i].name;
  }

  // Everything an accepted rename does, name by name; order and all other fields stay.
  lemma RenameMoves(c: Config, previous: string, next: string)
    requires ZonesStored(c) && RenameDomainTree(c, previous, next).Ok?
    ensures var d := RenameDomainTree(c, previous, next).value;
      && |d.domains| == |c.domains| && |d.records| == |c.records| && |d.routes| == |c.routes|
      && (forall i :: 0 <= i < |c.domains| ==>
            d.domains[i].rest == c.domains[i].rest && Moves(c.domains[i].name, previous, next, d.domains[i].name))
      && (forall i :: 0 <= i < |c.records| ==> RecordMoves(c.records[i], d.records[i], previous, next))
      && forall i :: 0 <= i < |c.routes| ==> RouteMoves(c.routes[i], d.routes[i], previous, next)
  {
    hide Moves, RewriteSuffix, NormalizeName, DomainsOk, Conflicts, BelongsTo, RewriteDomain;
    StoredDomainsStay(c);
    forall value: string ensures Moves(value, previous, next, RewriteSuffix(value, previous, next)) { RewriteMoves(value, previous, next); }
    forall i | 0 <= i < |c.domains| ensures Normal(c.domains[i].name) { assert TreeName(c.domains[i].name); }
    forall d: Domain | Normal(d.name) ensures RewriteDomain(d, previous, next) == d.(name := RewriteSuffix(d.name, previous, next)) {
      RewriteDomainIsRewrite(d, previous, next);
    }
  }

  lemma RenamedZoneOk(zone: string, previous: string, next: string)
    requires TreeName(zone) && TreeName(previous) && TreeName(next)
    ensures DomainNameOk(RewriteSuffix(zone, previous, next)) <==>
      (Under(zone, previous) ==> |zone| - |previous| + |next| <= 253)
  {
    hide Split, Join, WireNames.Encode, NormalizeName, RewriteSuffix, NoEmptyLabels;
    TreeNameIsZoneName(zone);
    TreeNameIsZoneName(next);
    TreeNameIsZoneName(previous);
    ZoneMoves(zone, previous, next);
    var r := RewriteSuffix(zone, previous, next);
    if Under(zone, previous) {
      UnderByIndex(zone, previous);
      NormalLies(zone, previous);
      RewrittenLies(zone, previous, next);
      var head := Head(zone, previous);
      WireNames.EncodesExactly(r);
      assert r == head + next && |r| == |zone| - |previous| + |next|;
      if head != "" {
        JoinedLabels(head, next);
        JoinedLabels(head, previous);
        var front := Labels(head[..|head| - 1]);
        assert forall i :: 0 <= i < |front| ==> Labels(zone)[i] == front[i];
      } else {
        assert r == next;
      }
      LacksParts(zone, head, previous, next);
    }
  }

  lemma LacksParts(zone: string, head: string, previous: string, next: string)
    requires zone == head + previous && Lacks(zone, '*') && Lacks(next, '*')
    ensures Lacks(head + next, '*')
  {
    forall i | 0 <= i < |head| ensures head[i] != '*' { assert zone[i] == head[i]; }
  }

  // The configuration after a rename, looked at by the rename back.
  lemma RenamedDomains(c: Config, previous: string, next: string)
    requires ZonesStored(c) && TreeName(previous) && TreeName(next) && RenameDomainTree(c, previous, next).Ok?
    ensures var renamed := Rewritten(c, previous, next);
      && RenameDomainTree(c, previous, next).value == renamed
      && NormalDomains(renamed.domains) == renamed.domains
      && (DomainsOk(renamed.domains) <==> RenamedFit(c, previous, next))
      && next in ZoneNames(renamed.domains)
  {
    hide TreeName, DomainNameOk, RewriteSuffix, ProxyNames, Conflicts, NormalizeName;
    StoredDomainsStay(c);
    RenamedZonesDistinct(c, previous, next);
    TreeNameIsZoneName(previous);
    TreeNameIsZoneName(next);
    var renamed := Rewritten(c, previous, next);
    forall i | 0 <= i < |c.domains|
      ensures NormalDomains(renamed.domains)[i] == renamed.domains[i]
      ensures DomainNameOk(renamed.domains[i].name) <==>
        (Under(c.domains[i].name, previous) ==> |c.domains[i].name| - |previous| + |next| <= 253)
    {
      RenamedZoneOk(c.domains[i].name, previous, next);
      TreeNameIsZoneName(c.domains[i].name);
      RewriteDomainIsRewrite(c.domains[i], previous, next);
      DomainBack(c.domains[i], previous, next);
      NormalizesToItself(renamed.domains[i].name);
    }
    var k :| 0 <= k < |ZoneNames(c.domains)| && ZoneNames(c.domains)[k] == previous;
    TreeNameIsZoneName(c.domains[k].name);
    RewriteDomainIsRewrite(c.domains[k], previous, next);
    OwnerMovesOnlyIfRoot(previous, previous, next);
    assert ZoneNames(renamed.domains)[k] == next;
  }

  lemma BackDoesNotConflict(c: Config, previous: string, next: string)
    requires ZonesStored(c) && TreeName(previous) && TreeName(next) && AllRestorable(c, previous, next)
    ensures !Conflicts(Rewritten(c, previous, next).domains, next, previous)
  {
    hide TreeName, RewriteSuffix, Restorable, ZoneName, BelongsTo;
    TreeNameIsZoneName(previous);
    TreeNameIsZoneName(next);
    var renamed := Rewritten(c, previous, next).domains;
    forall i, j | 0 <= i < |c.domains| && 0 <= j < |c.domains| && BelongsTo(renamed[j].name, next)
        && RewriteSuffix(renamed[j].name, next, previous) == renamed[i].name
      ensures BelongsTo(renamed[i].name, next)
    {
      assert HoldsName(c, c.domains[i].name) && HoldsName(c, c.domains[j].name);
      BackLandsInside(c.domains[i], c.domains[j], previous, next);
    }
  }

  lemma BackLandsInside(d: Domain, e: Domain, previous: string, next: string)
    requires TreeName(d.name) && TreeName(e.name) && ZoneName(previous) && ZoneName(next)
    requires Restorable(e.name, previous, next)
    requires RewriteSuffix(RewriteDomain(e, previous, next).name, next, previous) == RewriteDomain(d, previous, next).name
    requires BelongsTo(RewriteDomain(e, previous, next).name, next)
    ensures BelongsTo(RewriteDomain(d, previous, next).name, next)
  {
    hide RewriteSuffix, NormalizeName;
    TreeNameIsZoneName(d.name);
    TreeNameIsZoneName(e.name);
    RewriteDomainIsRewrite(d, previous, next);
    RewriteDomainIsRewrite(e, previous, next);
    RewriteBack(e.name, previous, next);
    ZoneMoves(d.name, previous, next);
    ZoneMoves(e.name, previous, next);
    NormalLies(e.name, previous);
    NormalLies(e.name, next);
    NormalLies(d.name, previous);
    if Under(d.name, previous) {
      RewrittenLies(d.name, previous, next);
      NormalLies(RewriteSuffix(d.name, previous, next), next);
    }
  }

  // Main result: an accepted rename is undone by renaming back exactly when every name in the configuration is
  // restorable, the new zone names kept the length limit, and the proxy names did not clash to begin with.
  lemma RenameBackRestoresExactly(c: Config, previous: string, next: string)
    requires ZonesStored(c) && TreeName(previous) && TreeName(next)
    requires RenameDomainTree(c, previous, next).Ok?
    ensures RenameDomainTree(RenameDomainTree(c, previous, next).value, next, previous) == Ok(c) <==>
      AllRestorable(c, previous, next) && RenamedFit(c, previous, next) && Distinct(ProxyNames(c.routes))
  {
    hide TreeName, DomainsOk, Conflicts, RewriteSuffix, ProxyNames, Distinct, RenamedFit, AllRestorable, ZoneName, ZonesStored;
    TreeNameIsZoneName(previous);
    TreeNameIsZoneName(next);
    RenamedDomains(c, previous, next);
    RewrittenBack(c, previous, next);
    if AllRestorable(c, previous, next) { BackDoesNotConflict(c, previous, next); }
  }

  function OneRecord(zone: string, owner: string, target: string): Config {
    Config([Domain(zone, "")], [Record(owner, CNAME, target, "")], [])
  }

  // A target entered in capitals comes back in small letters, though nothing else lay under the new name.
  lemma SpellingIsLost()
    ensures var c := OneRecord("o", "w.o", "W.o");
      && ZonesStored(c) && TreeName("o") && TreeName("n")
      && (forall n :: HoldsName(c, n) && LiesUnder(n, "n") ==> LiesUnder(n, "o"))
      && RenameDomainTree(c, "o", "n") == Ok(OneRecord("n", "w.n", "w.n"))
      && RenameDomainTree(OneRecord("n", "w.n", "w.n"), "n", "o") == Ok(OneRecord("o", "w.o", "w.o"))
  {
    hide RewriteSuffix, NormalizeName, TreeName, LiesUnder, BelongsTo, ZonesStored, RenameDomainTree;
    Spellings();
    OneRecordRenames("o", "w.o", "W.o", "n");
    OneRecordRenames("n", "w.n", "w.n", "o");
  }

  lemma Spellings()
    ensures RewriteSuffix("w.o", "o", "n") == "w.n" && RewriteSuffix("W.o", "o", "n") == "w.n"
    ensures RewriteSuffix("w.n", "n", "o") == "w.o" && LiesUnder("w.o", "o") && LiesUnder("W.o", "o")
    ensures TreeName("o") && TreeName("n") && LiesUnder("o", "o")
  {
    hide RewriteSuffix, TreeName, LiesUnder;
    assert NormalizeName("w.o") == "w.o" && NormalizeName("W.o") == "w.o" && NormalizeName("w.n") == "w.n";
    TwoLetters("w.o", "w.o", 'o', 'n');
    TwoLetters("W.o", "w.o", 'o', 'n');
    TwoLetters("w.n", "w.n", 'n', 'o');
    OneLetter("o", "n");
    OneLetter("n", "o");
  }

  lemma OneRecordRenames(zone: string, owner: string, target: string, next: string)
    requires |zone| == 1 && 'a' <= zone[0] <= 'z'
    ensures var c := OneRecord(zone, owner, target);
      && ZonesStored(c)
      && RenameDomainTree(c, zone, next) ==
           Ok(OneRecord(next, RewriteSuffix(owner, zone, next), RewriteSuffix(target, zone, next)))
  {
    hide RewriteSuffix, TreeName, LiesUnder, BelongsTo, RenameDomainTree;
    var c := OneRecord(zone, owner, target);
    OneLetter(zone, next);
    assert Rewritten(c, zone, next) == OneRecord(next, RewriteSuffix(owner, zone, next), RewriteSuffix(target, zone, next));
    Renames(c, Rewritten(c, zone, next), zone, next);
  }

  lemma TwoLetters(value: string, normalized: string, previous: char, next: char)
    requires NormalizeName(value) == NormalizeName(normalized) == normalized == ['w', '.', previous] && previous != '.'
    ensures RewriteSuffix(value, [previous], [next]) == ['w', '.', next]
    ensures LiesUnder(value, [previous])
  {
    assert normalized[1..] == ['.'] + [previous];
    assert Cut(normalized, 2) == ['w'];
  }

  lemma OneLetter(name: string, next: string)
    requires |name| == 1 && 'a' <= name[0] <= 'z'
    ensures TreeName(name) && BelongsTo(name, name) && LiesUnder(name, name) && RewriteSuffix(name, name, next) == next
  {
    SplitOfPart(name, '.');
    assert NormalizeName(name) == name;
    WireNames.EncodesExactly(name);
  }

  lemma Renames(c: Config, d: Config, previous: string, next: string)
    requires |c.domains| == 1 && c.domains[0].name == previous && TreeName(previous) && c.routes == []
    requires d == Rewritten(c, previous, next)
    ensures RenameDomainTree(c, previous, next) == Ok(d) && ZonesStored(c)
  {
    assert ZoneNames(c.domains)[0] == previous;
    assert NormalDomains(c.domains) == c.domains;
    assert BelongsTo(previous, previous);
  }
}
