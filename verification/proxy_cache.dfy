// The on-disk response cache at the value level: byte accounting, two-level least-recently-used eviction,
// admission, lookup and loading.
module ProxyCaching {
  import opened Wrappers

  type Body = seq<bv8>

  datatype Entry = Entry(
    id: string, baseKey: string, site: string, location: string, vary: seq<string>, variant: map<string, string>,
    file: string, digest: string, size: nat, lastAccess: int, expiresAt: int)

  // The index in Map order, the running byte count, and the cache directory.
  datatype Cache = Cache(entries: seq<Entry>, bytes: int, maxBytes: nat, disk: map<string, Body>)

  // A response offered to put(); `cacheable` is the outcome of the method, status and header checks.
  datatype Offer = Offer(site: string, location: string, baseKey: string, vary: seq<string>, variant: map<string, string>,
                         cacheable: bool, body: Body, locationMaxBytes: int, ttlMs: int)

  // The two uses of SHA-256: identifying a request variant and a body.
  datatype Hashes = Hashes(id: (string, map<string, string>) -> string, body: Body -> string)

  function LocationKey(site: string, location: string): string {
    site + "\n" + location
  }

  function KeyOf(e: Entry): string {
    LocationKey(e.site, e.location)
  }

  function FileName(id: string, digest: string): string {
    id + "." + digest + ".body"
  }

  // Location scope, or the whole cache.
  predicate InScope(e: Entry, scope: Option<string>) {
    scope.None? || KeyOf(e) == scope.value
  }

  function Size(es: seq<Entry>, scope: Option<string>): nat {
    if es == [] then 0
    else Size(es[..|es| - 1], scope) + if InScope(es[|es| - 1], scope) then es[|es| - 1].size else 0
  }

  // First of the entries in scope when stably sorted by last access.
  function LeastRecent(es: seq<Entry>, scope: Option<string>): (r: Option<nat>)
    ensures r.None? <==> forall i :: 0 <= i < |es| ==> !InScope(es[i], scope)
    ensures r.Some? ==> r.value < |es| && InScope(es[r.value], scope)
    ensures r.Some? ==> forall i :: 0 <= i < |es| && InScope(es[i], scope) ==> es[r.value].lastAccess <= es[i].lastAccess
    ensures r.Some? ==> forall i :: 0 <= i < r.value && InScope(es[i], scope) ==> es[r.value].lastAccess < es[i].lastAccess
  {
    if es == [] then None
    else
      var n := |es| - 1;
      var v := LeastRecent(es[..n], scope);
      if !InScope(es[n], scope) then v
      else if v.None? || es[n].lastAccess < es[v.value].lastAccess then Some(n)
      else v
  }

  function Without(es: seq<Entry>, i: nat): seq<Entry>
    requires i < |es|
  {
    es[..i] + es[i + 1..]
  }

  function Drop(c: Cache, i: nat): Cache
    requires i < |c.entries|
  {
    var e := c.entries[i];
    c.(entries := Without(c.entries, i), bytes := c.bytes - e.size, disk := c.disk - {e.file})
  }

  function EvictLocation(c: Cache, location: string, limit: int): Cache
    decreases |c.entries|
  {
    var victim := LeastRecent(c.entries, Some(location));
    if Size(c.entries, Some(location)) > limit && victim.Some?
    then EvictLocation(Drop(c, victim.value), location, limit)
    else c
  }

  function EvictTotal(c: Cache): Cache
    decreases |c.entries|
  {
    var victim := LeastRecent(c.entries, None);
    if c.bytes > c.maxBytes && victim.Some? then EvictTotal(Drop(c, victim.value)) else c
  }

  function Evict(c: Cache, location: string, limit: int): Cache {
    EvictTotal(EvictLocation(c, location, limit))
  }

  function IndexOf(es: seq<Entry>, id: string): (r: Option<nat>)
    ensures r.None? <==> forall i :: 0 <= i < |es| ==> es[i].id != id
    ensures r.Some? ==> r.value < |es| && es[r.value].id == id
  {
    if es == [] then None
    else if es[|es| - 1].id == id then Some(|es| - 1)
    else IndexOf(es[..|es| - 1], id)
  }

  predicate Admissible(c: Cache, o: Offer) {
    o.cacheable && |o.body| <= o.locationMaxBytes && |o.body| <= c.maxBytes
  }

  function NewEntry(hashes: Hashes, o: Offer, now: int): Entry {
    var id := hashes.id(o.baseKey, o.variant);
    var digest := hashes.body(o.body);
    Entry(id, o.baseKey, o.site, o.location, o.vary, o.variant, FileName(id, digest), digest, |o.body|, now, now + o.ttlMs)
  }

  // put() up to eviction: the body is written, a previous entry of the same id is removed with its file.
  function Inserted(hashes: Hashes, c: Cache, o: Offer, now: int): Cache {
    var e := NewEntry(hashes, o, now);
    var written := c.(disk := c.disk[e.file := o.body]);
    var previous := IndexOf(c.entries, e.id);
    var cleared := if previous.Some? then Drop(written, previous.value) else written;
    cleared.(entries := cleared.entries + [e], bytes := cleared.bytes + e.size)
  }

  function Put(hashes: Hashes, c: Cache, o: Offer, now: int): (Cache, bool) {
    if !Admissible(c, o) then (c, false)
    else
      var t := Evict(Inserted(hashes, c, o, now), LocationKey(o.site, o.location), o.locationMaxBytes);
      (t, IndexOf(t.entries, hashes.id(o.baseKey, o.variant)).Some?)
  }

  const MAX_SAFE_INTEGER := 0x1F_FFFF_FFFF_FFFF

  function Configure(c: Cache, maxBytes: nat): Cache {
    Evict(c.(maxBytes := maxBytes), "", MAX_SAFE_INTEGER)
  }

  function Readable(hashes: Hashes, c: Cache, e: Entry): bool {
    e.file in c.disk && |c.disk[e.file]| == e.size && hashes.body(c.disk[e.file]) == e.digest
  }

  // Header names are in small letters; an absent header counts as empty.
  function HeaderValue(headers: map<string, string>, name: string): string {
    if name in headers then headers[name] else ""
  }

  predicate Varies(e: Entry, headers: map<string, string>) {
    exists i :: 0 <= i < |e.vary| && !(e.vary[i] in e.variant && HeaderValue(headers, e.vary[i]) == e.variant[e.vary[i]])
  }

  // get(): walk the entries from index i on, dropping expired ones of this key, until one matches.
  function Get(hashes: Hashes, c: Cache, key: string, headers: map<string, string>, now: int, i: nat := 0): (Cache, Option<Body>)
    decreases |c.entries| - i
  {
    if i >= |c.entries| then (c, None)
    else
      var e := c.entries[i];
      if e.baseKey != key then Get(hashes, c, key, headers, now, i + 1)
      else if e.expiresAt <= now then Get(hashes, Drop(c, i), key, headers, now, i)
      else if Varies(e, headers) then Get(hashes, c, key, headers, now, i + 1)
      else if !Readable(hashes, c, e) then (Drop(c, i), None)
      else (c.(entries := c.entries[i := e.(lastAccess := now)]), Some(c.disk[e.file]))
  }

  function Clear(c: Cache, site: string, location: string, i: nat := 0): Cache
    decreases |c.entries| - i
  {
    if i >= |c.entries| then c
    else if (site != "" && c.entries[i].site != site) || (location != "" && c.entries[i].location != location)
    then Clear(c, site, location, i + 1)
    else Clear(Drop(c, i), site, location, i)
  }

  predicate Loadable(hashes: Hashes, c: Cache, e: Entry, now: int) {
    e.id != "" && e.expiresAt > now && Readable(hashes, c, e)
  }

  // Map.set on the index, with the size added.
  function Taken(c: Cache, e: Entry): Cache {
    var at := IndexOf(c.entries, e.id);
    c.(entries := if at.Some? then c.entries[at.value := e] else c.entries + [e], bytes := c.bytes + e.size)
  }

  // start(): take over each stored entry that is unexpired and whose file is intact.
  function Load(hashes: Hashes, c: Cache, stored: seq<Entry>, now: int): Cache
    decreases |stored|
  {
    if stored == [] then c
    else Load(hashes, if Loadable(hashes, c, stored[0], now) then Taken(c, stored[0]) else c, stored[1..], now)
  }

  function Start(hashes: Hashes, c: Cache, stored: seq<Entry>, now: int): Cache {
    Evict(Load(hashes, c, stored, now), "", MAX_SAFE_INTEGER)
  }

  // ---- Accounting ----

  ghost predicate DistinctIds(es: seq<Entry>) {
    forall i, j :: 0 <= i < j < |es| ==> es[i].id != es[j].id
  }

  // The byte count is the sum of the entry sizes.
  ghost predicate Accounted(c: Cache) {
    DistinctIds(c.entries) && c.bytes == Size(c.entries, None)
  }

  lemma {:induction false} SizeAppend(es: seq<Entry>, fs: seq<Entry>, scope: Option<string>)
    ensures Size(es + fs, scope) == Size(es, scope) + Size(fs, scope)
  {
    if fs == [] {
      assert es + fs == es;
    } else {
      assert (es + fs)[..|es + fs| - 1] == es + fs[..|fs| - 1];
      SizeAppend(es, fs[..|fs| - 1], scope);
    }
  }

  lemma SizeWithout(es: seq<Entry>, i: nat, scope: Option<string>)
    requires i < |es|
    ensures Size(es, scope) == Size(Without(es, i), scope) + if InScope(es[i], scope) then es[i].size else 0
  {
    hide InScope;
    var before, after := es[..i], es[i + 1..];
    SizeAppend(before, after, scope);
    SizeAppend(before + [es[i]], after, scope);
    assert es == before + [es[i]] + after && (before + [es[i]])[..i] == before;
  }

  lemma SizeUpdate(es: seq<Entry>, i: nat, e: Entry, scope: Option<string>)
    requires i < |es| && InScope(e, scope) == InScope(es[i], scope)
    ensures Size(es[i := e], scope) == Size(es, scope) + if InScope(e, scope) then e.size - es[i].size else 0
  {
    SizeWithout(es, i, scope);
    SizeWithout(es[i := e], i, scope);
    assert Without(es, i) == Without(es[i := e], i);
  }

  lemma DropKeepsAccounted(c: Cache, i: nat)
    requires i < |c.entries|
    ensures var t := Drop(c, i);
      && (Accounted(c) ==> Accounted(t))
      && forall scope :: Size(t.entries, scope) <= Size(c.entries, scope)
  {
    SizeWithout(c.entries, i, None);
    forall scope ensures Size(Drop(c, i).entries, scope) <= Size(c.entries, scope) {
      SizeWithout(c.entries, i, scope);
    }
  }

  lemma {:induction false} EvictLocationBounds(c: Cache, location: string, limit: int)
    requires limit >= 0
    ensures var t := EvictLocation(c, location, limit);
      && (Accounted(c) ==> Accounted(t)) && t.maxBytes == c.maxBytes
      && Size(t.entries, Some(location)) <= limit
      && forall scope :: Size(t.entries, scope) <= Size(c.entries, scope)
    decreases |c.entries|
  {
    var victim := LeastRecent(c.entries, Some(location));
    if Size(c.entries, Some(location)) > limit {
      if victim.None? {
        EmptyScopeWeighsNothing(c.entries, Some(location));
      } else {
        DropKeepsAccounted(c, victim.value);
        EvictLocationBounds(Drop(c, victim.value), location, limit);
      }
    }
  }

  lemma {:induction false} EmptyScopeWeighsNothing(es: seq<Entry>, scope: Option<string>)
    requires forall i :: 0 <= i < |es| ==> !InScope(es[i], scope)
    ensures Size(es, scope) == 0
  {
    if es != [] { EmptyScopeWeighsNothing(es[..|es| - 1], scope); }
  }

  lemma {:induction false} EvictTotalBounds(c: Cache)
    requires Accounted(c)
    ensures var t := EvictTotal(c);
      && Accounted(t) && t.maxBytes == c.maxBytes && t.bytes <= c.maxBytes
      && forall scope :: Size(t.entries, scope) <= Size(c.entries, scope)
    decreases |c.entries|
  {
    var victim := LeastRecent(c.entries, None);
    if c.bytes > c.maxBytes {
      if victim.None? {
        EmptyScopeWeighsNothing(c.entries, None);
      } else {
        DropKeepsAccounted(c, victim.value);
        EvictTotalBounds(Drop(c, victim.value));
      }
    }
  }

  lemma InsertKeepsAccounted(hashes: Hashes, c: Cache, o: Offer, now: int)
    requires Accounted(c)
    ensures Accounted(Inserted(hashes, c, o, now))
  {
    var e := NewEntry(hashes, o, now);
    var previous := IndexOf(c.entries, e.id);
    if previous.Some? { DropKeepsAccounted(c, previous.value); }
    var kept := if previous.Some? then Without(c.entries, previous.value) else c.entries;
    SizeAppend(kept, [e], None);
    assert Size([e], None) == e.size by { assert [e][..0] == []; }
  }

  // After a put the count is exact, the whole cache and the location are within their limits.
  lemma PutAccounting(hashes: Hashes, c: Cache, o: Offer, now: int)
    requires Accounted(c)
    ensures var (t, stored) := Put(hashes, c, o, now);
      && Accounted(t) && t.maxBytes == c.maxBytes
      && (stored ==> Size(t.entries, None) <= c.maxBytes)
      && (stored ==> Size(t.entries, Some(LocationKey(o.site, o.location))) <= o.locationMaxBytes)
      && (!Admissible(c, o) ==> t == c && !stored)
  {
    if Admissible(c, o) {
      var a := Inserted(hashes, c, o, now);
      InsertKeepsAccounted(hashes, c, o, now);
      EvictLocationBounds(a, LocationKey(o.site, o.location), o.locationMaxBytes);
      EvictTotalBounds(EvictLocation(a, LocationKey(o.site, o.location), o.locationMaxBytes));
    }
  }

  lemma ConfigureAccounting(c: Cache, maxBytes: nat)
    requires Accounted(c)
    ensures var t := Configure(c, maxBytes); Accounted(t) && t.maxBytes == maxBytes && Size(t.entries, None) <= maxBytes
  {
    EvictLocationBounds(c.(maxBytes := maxBytes), "", MAX_SAFE_INTEGER);
    EvictTotalBounds(EvictLocation(c.(maxBytes := maxBytes), "", MAX_SAFE_INTEGER));
  }

  lemma TouchKeepsAccounted(c: Cache, i: nat, now: int)
    requires Accounted(c) && i < |c.entries|
    ensures var t := c.(entries := c.entries[i := c.entries[i].(lastAccess := now)]);
      Accounted(t) && Size(t.entries, None) == Size(c.entries, None)
  {
    SizeUpdate(c.entries, i, c.entries[i].(lastAccess := now), None);
  }

  lemma {:induction false} GetAccounting(hashes: Hashes, c: Cache, key: string, headers: map<string, string>, now: int, i: nat)
    requires Accounted(c)
    ensures var t := Get(hashes, c, key, headers, now, i).0;
      Accounted(t) && t.maxBytes == c.maxBytes && Size(t.entries, None) <= Size(c.entries, None)
    decreases |c.entries| - i
  {
    hide Accounted, Size, Varies, Readable;
    if i < |c.entries| {
      var e := c.entries[i];
      DropKeepsAccounted(c, i);
      TouchKeepsAccounted(c, i, now);
      if e.baseKey != key { GetAccounting(hashes, c, key, headers, now, i + 1); }
      else if e.expiresAt <= now { GetAccounting(hashes, Drop(c, i), key, headers, now, i); }
      else if Varies(e, headers) { GetAccounting(hashes, c, key, headers, now, i + 1); }
    }
  }

  lemma {:induction false} ClearAccounting(c: Cache, site: string, location: string, i: nat)
    requires Accounted(c)
    ensures var t := Clear(c, site, location, i);
      Accounted(t) && t.maxBytes == c.maxBytes && Size(t.entries, None) <= Size(c.entries, None)
    decreases |c.entries| - i
  {
    hide Accounted, Size;
    if i < |c.entries| {
      DropKeepsAccounted(c, i);
      if (site != "" && c.entries[i].site != site) || (location != "" && c.entries[i].location != location) {
        ClearAccounting(c, site, location, i + 1);
      } else {
        ClearAccounting(Drop(c, i), site, location, i);
      }
    }
  }

  // The entries of a site, a location, or both; an empty text stands for all.
  predicate Selected(e: Entry, site: string, location: string) {
    (site == "" || e.site == site) && (location == "" || e.location == location)
  }

  function Unselected(es: seq<Entry>, site: string, location: string): (r: seq<Entry>)
    ensures forall e :: e in r <==> e in es && !Selected(e, site, location)
  {
    if es == [] then []
    else (if Selected(es[0], site, location) then [] else [es[0]]) + Unselected(es[1..], site, location)
  }

  function SelectedFiles(es: seq<Entry>, site: string, location: string): set<string> {
    set e | e in es && Selected(e, site, location) :: e.file
  }

  lemma {:induction false} ClearFrom(c: Cache, site: string, location: string, i: nat)
    requires i <= |c.entries|
    ensures var t := Clear(c, site, location, i);
      && t.entries == c.entries[..i] + Unselected(c.entries[i..], site, location)
      && t.disk == c.disk - SelectedFiles(c.entries[i..], site, location)
    decreases |c.entries| - i
  {
    hide Unselected, SelectedFiles;
    NoneSelected(site, location);
    if i < |c.entries| {
      var e, rest := c.entries[i], c.entries[i + 1..];
      assert c.entries[i..] == [e] + rest;
      SelectedStep(e, rest, site, location);
      var kept := Unselected(rest, site, location);
      if Selected(e, site, location) {
        ClearFrom(Drop(c, i), site, location, i);
        assert Drop(c, i).entries[i..] == rest && Drop(c, i).entries[..i] == c.entries[..i];
      } else {
        ClearFrom(c, site, location, i + 1);
        assert c.entries[..i + 1] + kept == c.entries[..i] + ([e] + kept);
      }
      assert [] + kept == kept;
    } else {
      assert c.entries[i..] == [] && c.entries[..i] + [] == c.entries;
    }
  }

  lemma NoneSelected(site: string, location: string)
    ensures Unselected([], site, location) == [] && SelectedFiles([], site, location) == {}
  {
  }

  lemma SelectedStep(e: Entry, rest: seq<Entry>, site: string, location: string)
    ensures Unselected([e] + rest, site, location) ==
      (if Selected(e, site, location) then [] else [e]) + Unselected(rest, site, location)
    ensures SelectedFiles([e] + rest, site, location) ==
      (if Selected(e, site, location) then {e.file} else {}) + SelectedFiles(rest, site, location)
  {
    assert ([e] + rest)[1..] == rest;
  }

  // Clearing keeps exactly the entries not selected, in order, and takes away exactly the files of the others.
  lemma ClearKeepsExactly(c: Cache, site: string, location: string)
    ensures var t := Clear(c, site, location, 0);
      && t.entries == Unselected(c.entries, site, location)
      && t.disk == c.disk - SelectedFiles(c.entries, site, location)
  {
    ClearFrom(c, site, location, 0);
    assert c.entries[0..] == c.entries && c.entries[..0] == [];
  }

  // ---- Admission: the newest entry is never its own victim ----

  ghost predicate NewestLast(es: seq<Entry>, e: Entry) {
    es != [] && es[|es| - 1] == e && forall i :: 0 <= i < |es| ==> es[i].lastAccess <= e.lastAccess
  }

  lemma VictimIsOlder(es: seq<Entry>, e: Entry, scope: Option<string>)
    requires NewestLast(es, e) && InScope(e, scope) && Size(es, scope) > e.size
    ensures LeastRecent(es, scope).Some? && LeastRecent(es, scope).value < |es| - 1
    ensures NewestLast(Without(es, LeastRecent(es, scope).value), e)
  {
    hide InScope;
    var n := |es| - 1;
    if forall i :: 0 <= i < n ==> !InScope(es[i], scope) {
      EmptyScopeWeighsNothing(es[..n], scope);
    } else {
      hide Size;
      var i :| 0 <= i < n && InScope(es[i], scope);
      var v := LeastRecent(es, scope).value;
      assert v < n by { assert es[v].lastAccess <= es[i].lastAccess <= es[n].lastAccess; }
      WithoutKeepsNewest(es, e, v);
    }
  }

  lemma WithoutKeepsNewest(es: seq<Entry>, e: Entry, v: nat)
    requires NewestLast(es, e) && v < |es| - 1
    ensures NewestLast(Without(es, v), e)
  {
  }

  lemma {:induction false} EvictLocationKeepsNewest(c: Cache, e: Entry, location: string, limit: int)
    requires NewestLast(c.entries, e) && KeyOf(e) == location && e.size <= limit
    ensures NewestLast(EvictLocation(c, location, limit).entries, e)
    decreases |c.entries|
  {
    if Size(c.entries, Some(location)) > limit {
      VictimIsOlder(c.entries, e, Some(location));
      EvictLocationKeepsNewest(Drop(c, LeastRecent(c.entries, Some(location)).value), e, location, limit);
    }
  }

  lemma {:induction false} EvictTotalKeepsNewest(c: Cache, e: Entry)
    requires Accounted(c) && NewestLast(c.entries, e) && e.size <= c.maxBytes
    ensures NewestLast(EvictTotal(c).entries, e)
    decreases |c.entries|
  {
    if c.bytes > c.maxBytes {
      VictimIsOlder(c.entries, e, None);
      DropKeepsAccounted(c, LeastRecent(c.entries, None).value);
      EvictTotalKeepsNewest(Drop(c, LeastRecent(c.entries, None).value), e);
    }
  }

  // With a clock that has not gone back, a put stores the response exactly when it is admissible.
  lemma AdmittedIsStored(hashes: Hashes, c: Cache, o: Offer, now: int)
    requires Accounted(c)
    requires forall i :: 0 <= i < |c.entries| ==> c.entries[i].lastAccess <= now
    ensures var (t, stored) := Put(hashes, c, o, now);
      && (stored <==> Admissible(c, o))
      && (stored ==> NewestLast(t.entries, NewEntry(hashes, o, now)))
  {
    if Admissible(c, o) {
      var e := NewEntry(hashes, o, now);
      var a := Inserted(hashes, c, o, now);
      var location := LocationKey(o.site, o.location);
      assert NewestLast(a.entries, e);
      InsertKeepsAccounted(hashes, c, o, now);
      EvictLocationBounds(a, location, o.locationMaxBytes);
      EvictLocationKeepsNewest(a, e, location, o.locationMaxBytes);
      EvictTotalKeepsNewest(EvictLocation(a, location, o.locationMaxBytes), e);
    }
  }

  // ---- Victims are the least recently used of their scope ----

  ghost predicate EvictsOldest(before: seq<Entry>, after: seq<Entry>, scope: Option<string>) {
    && (forall e :: e in after ==> e in before)
    && (forall e :: e in before && !InScope(e, scope) ==> e in after)
    && forall gone, kept :: gone in before && gone !in after && kept in after && InScope(kept, scope) ==>
         gone.lastAccess <= kept.lastAccess
  }

  // If anything went, then the victim last accessed had to: with it the scope was over its limit.
  ghost predicate LastVictimNeeded(before: seq<Entry>, after: seq<Entry>, scope: Option<string>, limit: int) {
    (exists e :: e in before && e !in after) ==> exists last :: NeededVictim(before, after, scope, limit, last)
  }

  ghost predicate NeededVictim(before: seq<Entry>, after: seq<Entry>, scope: Option<string>, limit: int, last: Entry) {
    && last in before && last !in after && Size(after, scope) + last.size > limit
    && forall gone :: gone in before && gone !in after ==> gone.lastAccess <= last.lastAccess
  }

  // One more victim in front of those that follow.
  lemma VictimInFront(es: seq<Entry>, i: nat, after: seq<Entry>, scope: Option<string>, limit: int)
    requires i < |es| && DistinctIds(es) && LeastRecent(es, scope) == Some(i) && Size(es, scope) > limit
    requires EvictsOldest(Without(es, i), after, scope) && LastVictimNeeded(Without(es, i), after, scope, limit)
    requires (forall e :: e in Without(es, i) ==> e in after) ==> after == Without(es, i)
    ensures EvictsOldest(es, after, scope) && LastVictimNeeded(es, after, scope, limit)
  {
    hide Size, LeastRecent;
    MembersWithout(es, i);
    SizeWithout(es, i, scope);
    var rest := Without(es, i);
    LeastRecentIsOldest(es, scope, i);
    if exists e :: e in rest && e !in after {
      var last :| NeededVictim(rest, after, scope, limit, last);
      assert InScope(last, scope);
      assert NeededVictim(es, after, scope, limit, last);
    } else {
      assert NeededVictim(es, after, scope, limit, es[i]);
    }
  }

  lemma LeastRecentIsOldest(es: seq<Entry>, scope: Option<string>, i: nat)
    requires LeastRecent(es, scope) == Some(i)
    ensures i < |es| && InScope(es[i], scope)
    ensures forall e :: e in es && InScope(e, scope) ==> es[i].lastAccess <= e.lastAccess
  {
  }

  lemma MembersWithout(es: seq<Entry>, i: nat)
    requires i < |es| && DistinctIds(es)
    ensures forall e :: e in Without(es, i) <==> e in es && e != es[i]
  {
    var r := Without(es, i);
    forall e ensures e in r <==> e in es && e != es[i] {
      if e in es && e != es[i] {
        var j :| 0 <= j < |es| && es[j] == e;
        assert if j < i then r[j] == e else r[j - 1] == e;
      }
    }
  }

  // Eviction of a location takes its least recently accessed entries, and no more than it must.
  lemma {:induction false} EvictLocationIsLeastRecent(c: Cache, location: string, limit: int)
    requires DistinctIds(c.entries)
    ensures var t := EvictLocation(c, location, limit).entries; var scope := Some(location);
      && EvictsOldest(c.entries, t, scope) && LastVictimNeeded(c.entries, t, scope, limit)
      && ((forall e :: e in c.entries ==> e in t) ==> t == c.entries)
    decreases |c.entries|
  {
    hide Size, LeastRecent, LastVictimNeeded, EvictsOldest;
    var scope := Some(location);
    var victim := LeastRecent(c.entries, scope);
    if Size(c.entries, scope) > limit && victim.Some? {
      MembersWithout(c.entries, victim.value);
      EvictLocationIsLeastRecent(Drop(c, victim.value), location, limit);
      var t := EvictLocation(c, location, limit).entries;
      VictimInFront(c.entries, victim.value, t, scope, limit);
      VictimIsGone(c.entries, victim.value, t, scope);
    } else {
      NothingEvicted(c.entries, scope, limit);
    }
  }

  lemma NothingEvicted(es: seq<Entry>, scope: Option<string>, limit: int)
    ensures EvictsOldest(es, es, scope) && LastVictimNeeded(es, es, scope, limit)
  {
  }

  lemma VictimIsGone(es: seq<Entry>, i: nat, after: seq<Entry>, scope: Option<string>)
    requires i < |es| && DistinctIds(es) && EvictsOldest(Without(es, i), after, scope)
    ensures es[i] in es && es[i] !in after
  {
    MembersWithout(es, i);
  }

  lemma {:induction false} EvictTotalIsLeastRecent(c: Cache)
    requires Accounted(c)
    ensures var t := EvictTotal(c).entries;
      && EvictsOldest(c.entries, t, None) && LastVictimNeeded(c.entries, t, None, c.maxBytes)
      && ((forall e :: e in c.entries ==> e in t) ==> t == c.entries)
    decreases |c.entries|
  {
    hide Size, LeastRecent, LastVictimNeeded, EvictsOldest;
    var victim := LeastRecent(c.entries, None);
    if c.bytes > c.maxBytes && victim.Some? {
      MembersWithout(c.entries, victim.value);
      DropKeepsAccounted(c, victim.value);
      EvictTotalIsLeastRecent(Drop(c, victim.value));
      var t := EvictTotal(c).entries;
      VictimInFront(c.entries, victim.value, t, None, c.maxBytes);
      VictimIsGone(c.entries, victim.value, t, None);
    } else {
      NothingEvicted(c.entries, None, c.maxBytes);
    }
  }

  // ---- Whole runs ----

  datatype Op =
    | OpPut(offer: Offer, now: int)
    | OpGet(key: string, headers: map<string, string>, now: int)
    | OpConfigure(maxBytes: nat, now: int)
    | OpClear(site: string, location: string, now: int)

  function Apply(hashes: Hashes, c: Cache, op: Op): Cache {
    match op
    case OpPut(o, now) => Put(hashes, c, o, now).0
    case OpGet(key, headers, now) => Get(hashes, c, key, headers, now).0
    case OpConfigure(max, _) => Configure(c, max)
    case OpClear(site, location, _) => Clear(c, site, location)
  }

  ghost predicate AccessedBy(c: Cache, now: int) {
    forall e :: e in c.entries ==> e.lastAccess <= now
  }

  // What holds between two operations: exact accounting within the limit, no access in the future.
  ghost predicate InOrder(c: Cache, now: int) {
    Accounted(c) && c.bytes <= c.maxBytes && AccessedBy(c, now)
  }

  lemma EvictKeepsAccessedBy(c: Cache, location: string, limit: int, now: int)
    requires DistinctIds(c.entries) && Accounted(c) && limit >= 0 && AccessedBy(c, now)
    ensures AccessedBy(Evict(c, location, limit), now)
  {
    EvictLocationIsLeastRecent(c, location, limit);
    EvictLocationBounds(c, location, limit);
    EvictTotalIsLeastRecent(EvictLocation(c, location, limit));
  }

  lemma {:induction false} GetKeepsAccessedBy(hashes: Hashes, c: Cache, key: string, headers: map<string, string>, now: int, i: nat)
    requires AccessedBy(c, now)
    ensures AccessedBy(Get(hashes, c, key, headers, now, i).0, now)
    decreases |c.entries| - i
  {
    if i < |c.entries| {
      var e := c.entries[i];
      assert AccessedBy(Drop(c, i), now);
      if e.baseKey != key { GetKeepsAccessedBy(hashes, c, key, headers, now, i + 1); }
      else if e.expiresAt <= now { GetKeepsAccessedBy(hashes, Drop(c, i), key, headers, now, i); }
      else if Varies(e, headers) { GetKeepsAccessedBy(hashes, c, key, headers, now, i + 1); }
    }
  }

  lemma {:induction false} ClearKeepsAccessedBy(c: Cache, site: string, location: string, now: int, i: nat)
    requires AccessedBy(c, now)
    ensures AccessedBy(Clear(c, site, location, i), now)
    decreases |c.entries| - i
  {
    if i < |c.entries| {
      if (site != "" && c.entries[i].site != site) || (location != "" && c.entries[i].location != location) {
        ClearKeepsAccessedBy(c, site, location, now, i + 1);
      } else {
        assert AccessedBy(Drop(c, i), now);
        ClearKeepsAccessedBy(Drop(c, i), site, location, now, i);
      }
    }
  }

  lemma InsertKeepsAccessedBy(hashes: Hashes, c: Cache, o: Offer, now: int)
    requires AccessedBy(c, now)
    ensures AccessedBy(Inserted(hashes, c, o, now), now)
  {
    var a := Inserted(hashes, c, o, now);
    forall e | e in a.entries ensures e.lastAccess <= now {
      if e != NewEntry(hashes, o, now) { assert e in c.entries; }
    }
  }

  lemma ApplyKeepsInOrder(hashes: Hashes, c: Cache, op: Op)
    requires InOrder(c, op.now)
    ensures InOrder(Apply(hashes, c, op), op.now)
  {
    match op {
      case OpPut(o, now) =>
        PutAccounting(hashes, c, o, now);
        if Admissible(c, o) {
          AdmittedIsStored(hashes, c, o, now);
          InsertKeepsAccounted(hashes, c, o, now);
          InsertKeepsAccessedBy(hashes, c, o, now);
          EvictKeepsAccessedBy(Inserted(hashes, c, o, now), LocationKey(o.site, o.location), o.locationMaxBytes, now);
        }
      case OpGet(key, headers, now) =>
        GetAccounting(hashes, c, key, headers, now, 0);
        GetKeepsAccessedBy(hashes, c, key, headers, now, 0);
      case OpConfigure(max, now) =>
        ConfigureAccounting(c, max);
        EvictKeepsAccessedBy(c.(maxBytes := max), "", MAX_SAFE_INTEGER, now);
      case OpClear(site, location, now) =>
        ClearAccounting(c, site, location, 0);
        ClearKeepsAccessedBy(c, site, location, now, 0);
    }
  }

  ghost predicate ClockMonotone(start: int, ops: seq<Op>) {
    (forall k :: 0 <= k < |ops| ==> start <= ops[k].now) && forall j, k :: 0 <= j < k < |ops| ==> ops[j].now <= ops[k].now
  }

  function Run(hashes: Hashes, c: Cache, ops: seq<Op>): Cache
    decreases |ops|
  {
    if ops == [] then c else Run(hashes, Apply(hashes, c, ops[0]), ops[1..])
  }

  // Over every run with a clock that never goes back: the count stays exact and within the limit,
  // and the next offer is stored exactly when it is admissible.
  lemma {:induction false} RunStaysInOrder(hashes: Hashes, c: Cache, start: int, ops: seq<Op>, next: Offer, now: int)
    requires InOrder(c, start) && ClockMonotone(start, ops) && start <= now
    requires forall k :: 0 <= k < |ops| ==> ops[k].now <= now
    ensures var t := Run(hashes, c, ops);
      && Accounted(t) && t.bytes <= t.maxBytes && AccessedBy(t, now)
      && (Put(hashes, t, next, now).1 <==> Admissible(t, next))
    decreases |ops|
  {
    if ops == [] {
      AdmittedIsStored(hashes, c, next, now);
    } else {
      ApplyKeepsInOrder(hashes, c, ops[0]);
      RunStaysInOrder(hashes, Apply(hashes, c, ops[0]), ops[0].now, ops[1..], next, now);
    }
  }

  // ---- Files ----

  predicate NoDot(s: string) {
    forall i :: 0 <= i < |s| ==> s[i] != '.'
  }

  // The file is named after the entry; digests in hexadecimal hold no dot.
  predicate Named(e: Entry) {
    e.file == FileName(e.id, e.digest) && NoDot(e.id)
  }

  ghost predicate FilesNamed(c: Cache) {
    forall i :: 0 <= i < |c.entries| ==> Named(c.entries[i])
  }

  lemma FirstDot(id: string, digest: string)
    requires NoDot(id)
    ensures FileName(id, digest)[|id|] == '.'
    ensures forall i :: 0 <= i < |id| ==> FileName(id, digest)[i] != '.'
  {
    forall i | 0 <= i < |id| ensures FileName(id, digest)[i] == id[i] {}
  }

  lemma FileNameIdentifies(a: string, d: string, b: string, e: string)
    requires NoDot(a) && NoDot(b) && FileName(a, d) == FileName(b, e)
    ensures a == b && d == e
  {
    var f, g := FileName(a, d), FileName(b, e);
    FirstDot(a, d);
    FirstDot(b, e);
    assert |a| == |b|;
    assert a == f[..|a|] && b == g[..|a|];
    assert d == f[|a| + 1..|f| - 5] && e == g[|a| + 1..|f| - 5];
  }

  // Removing one entry leaves every other entry's file alone.
  lemma DropKeepsOtherFiles(c: Cache, i: nat, e: Entry)
    requires i < |c.entries| && FilesNamed(c)
    requires e.id != c.entries[i].id && Named(e)
    ensures FilesNamed(Drop(c, i))
    ensures e.file in c.disk <==> e.file in Drop(c, i).disk
    ensures e.file in c.disk ==> c.disk[e.file] == Drop(c, i).disk[e.file]
  {
    if e.file == c.entries[i].file { FileNameIdentifies(e.id, e.digest, c.entries[i].id, c.entries[i].digest); }
  }

  lemma {:induction false} EvictTotalKeepsFile(c: Cache, e: Entry)
    requires Accounted(c) && FilesNamed(c) && NewestLast(c.entries, e) && e.size <= c.maxBytes
    ensures var t := EvictTotal(c); (
      FilesNamed(t) && (e.file in c.disk <==> e.file in t.disk) && (e.file in c.disk ==> c.disk[e.file] == t.disk[e.file]))
    decreases |c.entries|
  {
    if c.bytes > c.maxBytes {
      var v := LeastRecent(c.entries, None).value;
      VictimIsOlder(c.entries, e, None);
      DropKeepsAccounted(c, v);
      DropKeepsOtherFiles(c, v, e);
      EvictTotalKeepsFile(Drop(c, v), e);
    }
  }

  lemma {:induction false} EvictLocationKeepsFile(c: Cache, e: Entry, location: string, limit: int)
    requires Accounted(c) && FilesNamed(c) && NewestLast(c.entries, e) && KeyOf(e) == location && e.size <= limit
    ensures var t := EvictLocation(c, location, limit); (
      FilesNamed(t) && (e.file in c.disk <==> e.file in t.disk) && (e.file in c.disk ==> c.disk[e.file] == t.disk[e.file]))
    decreases |c.entries|
  {
    if Size(c.entries, Some(location)) > limit {
      var v := LeastRecent(c.entries, Some(location)).value;
      VictimIsOlder(c.entries, e, Some(location));
      DropKeepsAccounted(c, v);
      DropKeepsOtherFiles(c, v, e);
      EvictLocationKeepsFile(Drop(c, v), e, location, limit);
    }
  }

  // The file just written is missing again exactly when the entry replaced had the same body.
  lemma InsertedFile(hashes: Hashes, c: Cache, o: Offer, now: int)
    requires FilesNamed(c) && NoDot(hashes.id(o.baseKey, o.variant))
    ensures var e := NewEntry(hashes, o, now); var a := Inserted(hashes, c, o, now); var previous := IndexOf(c.entries, e.id);
      && FilesNamed(a)
      && (e.file in a.disk <==> previous.None? || c.entries[previous.value].digest != e.digest)
      && (e.file in a.disk ==> a.disk[e.file] == o.body)
  {
    hide FileName, NoDot;
    var e := NewEntry(hashes, o, now);
    var previous := IndexOf(c.entries, e.id);
    if previous.Some? {
      var p := c.entries[previous.value];
      if p.file == e.file { FileNameIdentifies(p.id, p.digest, e.id, e.digest); }
    }
  }

  lemma InsertedIsNewest(hashes: Hashes, c: Cache, o: Offer, now: int)
    requires forall i :: 0 <= i < |c.entries| ==> c.entries[i].lastAccess <= now
    ensures NewestLast(Inserted(hashes, c, o, now).entries, NewEntry(hashes, o, now))
  {
  }

  // A stored response can be read back exactly when it did not replace an identical one: then the file
  // just written is the file the replaced entry takes with it.
  lemma StoredIsReadableExactly(hashes: Hashes, c: Cache, o: Offer, now: int)
    requires Accounted(c) && FilesNamed(c) && Admissible(c, o)
    requires NoDot(hashes.id(o.baseKey, o.variant))
    requires forall i :: 0 <= i < |c.entries| ==> c.entries[i].lastAccess <= now
    ensures var e := NewEntry(hashes, o, now); var t := Put(hashes, c, o, now).0; var previous := IndexOf(c.entries, e.id);
      && FilesNamed(t)
      && (Readable(hashes, t, e) <==> previous.None? || c.entries[previous.value].digest != e.digest)
      && (Readable(hashes, t, e) ==> t.disk[e.file] == o.body)
  {
    hide Accounted, FilesNamed, NewestLast, Inserted, EvictLocation, EvictTotal, NoDot, FileName;
    var e := NewEntry(hashes, o, now);
    var a := Inserted(hashes, c, o, now);
    var location := LocationKey(o.site, o.location);
    InsertedFile(hashes, c, o, now);
    InsertedIsNewest(hashes, c, o, now);
    InsertKeepsAccounted(hashes, c, o, now);
    InsertKeepsLimit(hashes, c, o, now);
    EvictLocationBounds(a, location, o.locationMaxBytes);
    EvictLocationKeepsNewest(a, e, location, o.locationMaxBytes);
    EvictLocationKeepsFile(a, e, location, o.locationMaxBytes);
    EvictTotalKeepsFile(EvictLocation(a, location, o.locationMaxBytes), e);
  }

  lemma InsertKeepsLimit(hashes: Hashes, c: Cache, o: Offer, now: int)
    ensures Inserted(hashes, c, o, now).maxBytes == c.maxBytes
  {
  }

  // ---- File names over runs ----

  // Request identifiers are digests.
  ghost predicate IdsHoldNoDot(hashes: Hashes) {
    forall key, variant :: NoDot(hashes.id(key, variant))
  }

  lemma {:induction false} EvictLocationKeepsNamed(c: Cache, location: string, limit: int)
    requires FilesNamed(c)
    ensures FilesNamed(EvictLocation(c, location, limit))
    decreases |c.entries|
  {
    hide FileName, NoDot;
    var victim := LeastRecent(c.entries, Some(location));
    if Size(c.entries, Some(location)) > limit && victim.Some? { EvictLocationKeepsNamed(Drop(c, victim.value), location, limit); }
  }

  lemma {:induction false} EvictTotalKeepsNamed(c: Cache)
    requires FilesNamed(c)
    ensures FilesNamed(EvictTotal(c))
    decreases |c.entries|
  {
    hide FileName, NoDot;
    var victim := LeastRecent(c.entries, None);
    if c.bytes > c.maxBytes && victim.Some? { EvictTotalKeepsNamed(Drop(c, victim.value)); }
  }

  lemma EvictKeepsNamed(c: Cache, location: string, limit: int)
    requires FilesNamed(c)
    ensures FilesNamed(Evict(c, location, limit))
  {
    EvictLocationKeepsNamed(c, location, limit);
    EvictTotalKeepsNamed(EvictLocation(c, location, limit));
  }

  lemma {:induction false} GetKeepsNamed(hashes: Hashes, c: Cache, key: string, headers: map<string, string>, now: int, i: nat)
    requires FilesNamed(c)
    ensures FilesNamed(Get(hashes, c, key, headers, now, i).0)
    decreases |c.entries| - i
  {
    hide FileName, NoDot, Readable, Varies;
    if i < |c.entries| {
      var e := c.entries[i];
      if e.baseKey == key && e.expiresAt <= now { GetKeepsNamed(hashes, Drop(c, i), key, headers, now, i); }
      else if e.baseKey != key || Varies(e, headers) { GetKeepsNamed(hashes, c, key, headers, now, i + 1); }
    }
  }

  lemma {:induction false} ClearKeepsNamed(c: Cache, site: string, location: string, i: nat)
    requires FilesNamed(c)
    ensures FilesNamed(Clear(c, site, location, i))
    decreases |c.entries| - i
  {
    hide FileName, NoDot;
    if i < |c.entries| {
      ClearKeepsNamed(c, site, location, i + 1);
      ClearKeepsNamed(Drop(c, i), site, location, i);
    }
  }

  lemma {:induction false} LoadKeepsNamed(hashes: Hashes, c: Cache, stored: seq<Entry>, now: int)
    requires FilesNamed(c) && forall e :: e in stored ==> Named(e)
    ensures FilesNamed(Load(hashes, c, stored, now))
    decreases |stored|
  {
    hide FileName, NoDot, Loadable;
    if stored != [] {
      assert stored[0] in stored;
      LoadKeepsNamed(hashes, if Loadable(hashes, c, stored[0], now) then Taken(c, stored[0]) else c, stored[1..], now);
    }
  }

  // A start from an index of named files, such as the cache's own.
  lemma StartKeepsNamed(hashes: Hashes, c: Cache, stored: seq<Entry>, now: int)
    requires FilesNamed(c) && forall e :: e in stored ==> Named(e)
    ensures FilesNamed(Start(hashes, c, stored, now))
  {
    LoadKeepsNamed(hashes, c, stored, now);
    EvictKeepsNamed(Load(hashes, c, stored, now), "", MAX_SAFE_INTEGER);
  }

  lemma ApplyKeepsNamed(hashes: Hashes, c: Cache, op: Op)
    requires FilesNamed(c) && IdsHoldNoDot(hashes)
    ensures FilesNamed(Apply(hashes, c, op))
  {
    hide FilesNamed, NoDot, Evict, Get, Clear, Inserted;
    match op {
      case OpPut(o, now) =>
        InsertedFile(hashes, c, o, now);
        EvictKeepsNamed(Inserted(hashes, c, o, now), LocationKey(o.site, o.location), o.locationMaxBytes);
      case OpGet(key, headers, now) => GetKeepsNamed(hashes, c, key, headers, now, 0);
      case OpConfigure(max, now) =>
        RenamedLimit(c, max);
        EvictKeepsNamed(c.(maxBytes := max), "", MAX_SAFE_INTEGER);
      case OpClear(site, location, now) => ClearKeepsNamed(c, site, location, 0);
    }
  }

  lemma RenamedLimit(c: Cache, maxBytes: nat)
    requires FilesNamed(c)
    ensures FilesNamed(c.(maxBytes := maxBytes))
  {
  }

  lemma {:induction false} RunKeepsNamed(hashes: Hashes, c: Cache, ops: seq<Op>)
    requires FilesNamed(c) && IdsHoldNoDot(hashes)
    ensures FilesNamed(Run(hashes, c, ops))
    decreases |ops|
  {
    hide FilesNamed, IdsHoldNoDot;
    if ops != [] {
      ApplyKeepsNamed(hashes, c, ops[0]);
      RunKeepsNamed(hashes, Apply(hashes, c, ops[0]), ops[1..]);
    }
  }

  // After every run: a stored response can be read back exactly when it did not replace an identical one.
  lemma RunStoresReadableExactly(hashes: Hashes, c: Cache, start: int, ops: seq<Op>, next: Offer, now: int)
    requires InOrder(c, start) && FilesNamed(c) && IdsHoldNoDot(hashes)
    requires ClockMonotone(start, ops) && start <= now && forall k :: 0 <= k < |ops| ==> ops[k].now <= now
    requires Admissible(Run(hashes, c, ops), next)
    ensures var t := Run(hashes, c, ops); var e := NewEntry(hashes, next, now); var u := Put(hashes, t, next, now).0;
      var previous := IndexOf(t.entries, e.id);
      Readable(hashes, u, e) <==> previous.None? || t.entries[previous.value].digest != e.digest
  {
    hide FilesNamed, NoDot, Run, Put, Accounted, Admissible, Readable;
    RunStaysInOrder(hashes, c, start, ops, next, now);
    RunKeepsNamed(hashes, c, ops);
    StoredIsReadableExactly(hashes, Run(hashes, c, ops), next, now);
  }

  // Putting the same response twice running loses its body, whatever the response.
  lemma PutTwiceLosesBody(hashes: Hashes, c: Cache, o: Offer, now: int, later: int)
    requires Accounted(c) && FilesNamed(c) && Admissible(c, o) && now <= later
    requires NoDot(hashes.id(o.baseKey, o.variant))
    requires forall i :: 0 <= i < |c.entries| ==> c.entries[i].lastAccess <= now
    ensures var once := Put(hashes, c, o, now).0; var twice := Put(hashes, once, o, later);
      && twice.1 && !Readable(hashes, twice.0, NewEntry(hashes, o, later))
  {
    hide Accounted, FilesNamed, NoDot, FileName, Readable, Inserted, EvictLocation, EvictTotal, Size;
    var e := NewEntry(hashes, o, now);
    var once := Put(hashes, c, o, now).0;
    PutAccounting(hashes, c, o, now);
    AdmittedIsStored(hashes, c, o, now);
    StoredIsReadableExactly(hashes, c, o, now);
    PutKeepsLimit(hashes, c, o, now);
    DistinctHolder(once, e);
    AdmittedIsStored(hashes, once, o, later);
    StoredIsReadableExactly(hashes, once, o, later);
  }

  lemma PutKeepsLimit(hashes: Hashes, c: Cache, o: Offer, now: int)
    requires Accounted(c)
    ensures Put(hashes, c, o, now).0.maxBytes == c.maxBytes
  {
    PutAccounting(hashes, c, o, now);
  }

  lemma DistinctHolder(c: Cache, e: Entry)
    requires Accounted(c) && e in c.entries
    ensures IndexOf(c.entries, e.id).Some? && c.entries[IndexOf(c.entries, e.id).value] == e
  {
  }

  // The smallest case: one octet, put twice into an empty cache.
  lemma OneOctetIsLost()
    ensures var hashes := Hashes((key, variant) => "k", body => "d");
      var o := Offer("s", "/", "k", [], map[], true, [0], 1, 1000);
      var once := Put(hashes, Cache([], 0, 10, map[]), o, 0).0;
      Put(hashes, once, o, 1).1 && !Readable(hashes, Put(hashes, once, o, 1).0, NewEntry(hashes, o, 1))
  {
    hide Put, Readable;
    var hashes := Hashes((key, variant) => "k", body => "d");
    var o := Offer("s", "/", "k", [], map[], true, [0], 1, 1000);
    PutTwiceLosesBody(hashes, Cache([], 0, 10, map[]), o, 0, 1);
  }

  predicate Hit(hashes: Hashes, e: Entry, key: string, headers: map<string, string>, now: int, body: Body) {
    && e.baseKey == key && e.expiresAt > now && !Varies(e, headers)
    && |body| == e.size && hashes.body(body) == e.digest
  }

  // A hit is an unexpired entry of this request whose file is intact; the cache remembers the access.
  lemma {:induction false} HitIsSound(hashes: Hashes, c: Cache, key: string, headers: map<string, string>, now: int, i: nat)
    ensures var (t, hit) := Get(hashes, c, key, headers, now, i);
      hit.Some? ==> exists e :: e in c.entries && Hit(hashes, e, key, headers, now, hit.value) && e.(lastAccess := now) in t.entries
    decreases |c.entries| - i
  {
    if i < |c.entries| {
      var e := c.entries[i];
      if e.baseKey != key { HitIsSound(hashes, c, key, headers, now, i + 1); }
      else if e.expiresAt <= now {
        HitIsSound(hashes, Drop(c, i), key, headers, now, i);
        assert forall x :: x in Drop(c, i).entries ==> x in c.entries;
      }
      else if Varies(e, headers) { HitIsSound(hashes, c, key, headers, now, i + 1); }
      else if Readable(hashes, c, e) {
        var t := Get(hashes, c, key, headers, now, i).0;
        assert t.entries[i] == e.(lastAccess := now);
      }
    }
  }

  // An unexpired entry of this key and variant.
  predicate Answers(e: Entry, key: string, headers: map<string, string>, now: int) {
    e.baseKey == key && e.expiresAt > now && !Varies(e, headers)
  }

  // The body in the entry's file, if the file is intact.
  function BodyOf(hashes: Hashes, c: Cache, e: Entry): Option<Body> {
    if Readable(hashes, c, e) then Some(c.disk[e.file]) else None
  }

  // The first entry from index i on that answers.
  function Chosen(es: seq<Entry>, key: string, headers: map<string, string>, now: int, i: nat): (r: Option<nat>)
    ensures r.None? <==> forall j :: i <= j < |es| ==> !Answers(es[j], key, headers, now)
    ensures r.Some? ==> i <= r.value < |es| && Answers(es[r.value], key, headers, now)
    ensures r.Some? ==> forall j :: i <= j < r.value ==> !Answers(es[j], key, headers, now)
    decreases |es| - i
  {
    if i >= |es| then None
    else if Answers(es[i], key, headers, now) then Some(i)
    else Chosen(es, key, headers, now, i + 1)
  }

  lemma {:induction false} ChosenWithout(es: seq<Entry>, key: string, headers: map<string, string>, now: int, i: nat, m: nat)
    requires i < |es| && i <= m < |es|
    ensures var later := Chosen(es, key, headers, now, m + 1);
      Chosen(Without(es, i), key, headers, now, m) == if later.Some? then Some((later.value - 1) as nat) else None
    decreases |es| - m
  {
    hide Answers;
    if m + 1 < |es| {
      assert Without(es, i)[m] == es[m + 1];
      ChosenWithout(es, key, headers, now, i, m + 1);
    }
  }

  lemma DropKeepsReadable(hashes: Hashes, c: Cache, i: nat, j: nat)
    requires i < j < |c.entries| && DistinctIds(c.entries) && FilesNamed(c)
    ensures var t := Drop(c, i);
      && j - 1 < |t.entries| && t.entries[j - 1] == c.entries[j]
      && BodyOf(hashes, t, c.entries[j]) == BodyOf(hashes, c, c.entries[j])
  {
    hide FileName, NoDot;
    DropKeepsOtherFiles(c, i, c.entries[j]);
  }

  lemma DropKeepsNamed(c: Cache, i: nat)
    requires i < |c.entries| && DistinctIds(c.entries) && FilesNamed(c)
    ensures DistinctIds(Drop(c, i).entries) && FilesNamed(Drop(c, i)) && Drop(c, i).entries == Without(c.entries, i)
    ensures |Drop(c, i).entries| == |c.entries| - 1
  {
    hide Named;
  }

  // get() answers exactly from the first unexpired entry of this key and variant, and exactly when its file is intact.
  lemma {:induction false} HitExactly(hashes: Hashes, c: Cache, key: string, headers: map<string, string>, now: int, i: nat)
    requires DistinctIds(c.entries) && FilesNamed(c)
    ensures var chosen := Chosen(c.entries, key, headers, now, i);
      Get(hashes, c, key, headers, now, i).1 ==
        if chosen.Some? then BodyOf(hashes, c, c.entries[chosen.value]) else None
    decreases |c.entries| - i
  {
    hide Named, Varies, Readable, Without, Drop, DistinctIds, FilesNamed;
    if i < |c.entries| {
      var e := c.entries[i];
      if e.baseKey == key && e.expiresAt <= now {
        var chosen := Chosen(c.entries, key, headers, now, i + 1);
        DropKeepsNamed(c, i);
        HitExactly(hashes, Drop(c, i), key, headers, now, i);
        ChosenWithout(c.entries, key, headers, now, i, i);
        if chosen.Some? { DropKeepsReadable(hashes, c, i, chosen.value); }
      } else if !Answers(e, key, headers, now) {
        HitExactly(hashes, c, key, headers, now, i + 1);
      }
    }
  }

  // ---- Starting ----

  // The sizes of the entries that loading replaces; start() adds the new size without taking these off.
  function Overwritten(hashes: Hashes, c: Cache, stored: seq<Entry>, now: int): nat
    decreases |stored|
  {
    if stored == [] then 0
    else if !Loadable(hashes, c, stored[0], now) then Overwritten(hashes, c, stored[1..], now)
    else
      var at := IndexOf(c.entries, stored[0].id);
      var replaced := if at.Some? then c.entries[at.value].size else 0;
      replaced + Overwritten(hashes, Taken(c, stored[0]), stored[1..], now)
  }

  lemma TakenAccounts(c: Cache, e: Entry)
    requires DistinctIds(c.entries)
    ensures var t := Taken(c, e); var at := IndexOf(c.entries, e.id);
      && DistinctIds(t.entries)
      && t.bytes - Size(t.entries, None) == c.bytes - Size(c.entries, None) + if at.Some? then c.entries[at.value].size else 0
  {
    var at := IndexOf(c.entries, e.id);
    if at.Some? {
      SizeUpdate(c.entries, at.value, e, None);
    } else {
      SizeAppend(c.entries, [e], None);
      assert Size([e], None) == e.size by { assert [e][..0] == []; }
    }
  }

  // Loading drifts by what it replaces.
  lemma {:induction false} LoadDrifts(hashes: Hashes, c: Cache, stored: seq<Entry>, now: int)
    requires DistinctIds(c.entries)
    ensures var t := Load(hashes, c, stored, now);
      && DistinctIds(t.entries) && t.maxBytes == c.maxBytes
      && t.bytes - Size(t.entries, None) == c.bytes - Size(c.entries, None) + Overwritten(hashes, c, stored, now)
    decreases |stored|
  {
    hide Loadable;
    if stored != [] {
      if Loadable(hashes, c, stored[0], now) {
        TakenAccounts(c, stored[0]);
        LoadDrifts(hashes, Taken(c, stored[0]), stored[1..], now);
      } else {
        LoadDrifts(hashes, c, stored[1..], now);
      }
    }
  }

  // An indexed entry with a size has this id.
  predicate Sized(es: seq<Entry>, id: string) {
    exists i :: 0 <= i < |es| && es[i].id == id && es[i].size > 0
  }

  // The j-th stored entry is loadable and repeats the id of an indexed entry, or of an earlier loadable one,
  // that has a size.
  predicate Collides(hashes: Hashes, c: Cache, stored: seq<Entry>, now: int, j: nat)
    requires j < |stored|
  {
    && Loadable(hashes, c, stored[j], now)
    && (Sized(c.entries, stored[j].id)
        || exists k :: 0 <= k < j && Loadable(hashes, c, stored[k], now) && stored[k].id == stored[j].id && stored[k].size > 0)
  }

  predicate NoneCollides(hashes: Hashes, c: Cache, stored: seq<Entry>, now: int) {
    forall j :: 0 <= j < |stored| ==> !Collides(hashes, c, stored, now, j)
  }

  lemma TakenSizes(c: Cache, e: Entry, id: string)
    requires DistinctIds(c.entries)
    ensures Sized(Taken(c, e).entries, id) <==> if id == e.id then e.size > 0 else Sized(c.entries, id)
    ensures var at := IndexOf(c.entries, e.id);
      Sized(c.entries, e.id) <==> at.Some? && c.entries[at.value].size > 0
  {
    var at := IndexOf(c.entries, e.id);
    var t := Taken(c, e).entries;
    assert if at.Some? then t[at.value] == e else t[|c.entries|] == e;
    if id != e.id && Sized(c.entries, id) {
      var i :| 0 <= i < |c.entries| && c.entries[i].id == id && c.entries[i].size > 0;
      assert t[i] == c.entries[i];
    }
  }

  lemma CollidesLater(hashes: Hashes, c: Cache, stored: seq<Entry>, now: int, j: nat)
    requires DistinctIds(c.entries) && 0 < j < |stored|
    ensures !Loadable(hashes, c, stored[0], now) ==>
      (Collides(hashes, c, stored, now, j) <==> Collides(hashes, c, stored[1..], now, j - 1))
    ensures Loadable(hashes, c, stored[0], now) && !Sized(c.entries, stored[0].id) ==>
      (Collides(hashes, c, stored, now, j) <==> Collides(hashes, Taken(c, stored[0]), stored[1..], now, j - 1))
  {
    hide Loadable, Sized;
    LoadableAlike(hashes, c, stored, now);
    TakenSizes(c, stored[0], stored[j].id);
    var rest := stored[1..];
    forall k | 0 < k < j ensures rest[k - 1] == stored[k] {}
    assert rest[j - 1] == stored[j];
    if exists k :: 0 < k < j && Loadable(hashes, c, stored[k], now) && stored[k].id == stored[j].id && stored[k].size > 0 {
      var k :| 0 < k < j && Loadable(hashes, c, stored[k], now) && stored[k].id == stored[j].id && stored[k].size > 0;
      assert rest[k - 1] == stored[k];
    }
  }

  lemma LoadableAlike(hashes: Hashes, c: Cache, stored: seq<Entry>, now: int)
    requires stored != []
    ensures forall e :: Loadable(hashes, Taken(c, stored[0]), e, now) == Loadable(hashes, c, e, now)
  {
  }

  lemma {:induction false} OverwritesNothingExactly(hashes: Hashes, c: Cache, stored: seq<Entry>, now: int)
    requires DistinctIds(c.entries)
    ensures Overwritten(hashes, c, stored, now) == 0 <==> NoneCollides(hashes, c, stored, now)
    decreases |stored|
  {
    hide Loadable, Sized, Collides;
    if stored != [] {
      var rest := stored[1..];
      FirstCollides(hashes, c, stored, now);
      forall j | 0 < j < |stored|
        ensures !Loadable(hashes, c, stored[0], now) ==>
          (Collides(hashes, c, stored, now, j) <==> Collides(hashes, c, rest, now, j - 1))
        ensures Loadable(hashes, c, stored[0], now) && !Sized(c.entries, stored[0].id) ==>
          (Collides(hashes, c, stored, now, j) <==> Collides(hashes, Taken(c, stored[0]), rest, now, j - 1))
      {
        CollidesLater(hashes, c, stored, now, j);
      }
      TakenSizes(c, stored[0], stored[0].id);
      if Loadable(hashes, c, stored[0], now) {
        TakenAccounts(c, stored[0]);
        OverwritesNothingExactly(hashes, Taken(c, stored[0]), rest, now);
        if !Sized(c.entries, stored[0].id) { TailCollides(hashes, c, Taken(c, stored[0]), stored, now); }
      } else {
        OverwritesNothingExactly(hashes, c, rest, now);
        TailCollides(hashes, c, c, stored, now);
      }
    }
  }

  lemma FirstCollides(hashes: Hashes, c: Cache, stored: seq<Entry>, now: int)
    requires stored != []
    ensures Collides(hashes, c, stored, now, 0) <==> Loadable(hashes, c, stored[0], now) && Sized(c.entries, stored[0].id)
  {
  }

  lemma TailCollides(hashes: Hashes, c: Cache, d: Cache, stored: seq<Entry>, now: int)
    requires stored != [] && !Collides(hashes, c, stored, now, 0)
    requires forall j :: 0 < j < |stored| ==>
      (Collides(hashes, c, stored, now, j) <==> Collides(hashes, d, stored[1..], now, j - 1))
    ensures NoneCollides(hashes, c, stored, now) <==> NoneCollides(hashes, d, stored[1..], now)
  {
    hide Collides;
    if NoneCollides(hashes, c, stored, now) {
      forall j | 0 <= j < |stored| - 1 ensures !Collides(hashes, d, stored[1..], now, j) {
        assert !Collides(hashes, c, stored, now, j + 1);
      }
    }
  }

  // Loading keeps an exact count exact exactly when no loadable stored entry repeats the id of an entry with a size.
  lemma LoadAccountsExactly(hashes: Hashes, c: Cache, stored: seq<Entry>, now: int)
    requires Accounted(c)
    ensures Accounted(Load(hashes, c, stored, now)) <==> NoneCollides(hashes, c, stored, now)
  {
    LoadDrifts(hashes, c, stored, now);
    OverwritesNothingExactly(hashes, c, stored, now);
  }

  lemma {:induction false} LoadedIsStored(hashes: Hashes, c: Cache, stored: seq<Entry>, now: int)
    ensures forall e :: e in Load(hashes, c, stored, now).entries ==> e in c.entries || e in stored
    decreases |stored|
  {
    if stored != [] {
      var next := if Loadable(hashes, c, stored[0], now) then Taken(c, stored[0]) else c;
      LoadedIsStored(hashes, next, stored[1..], now);
    }
  }

  // A first start from an index without repeated ids leaves the cache in order: exact count, within its limit,
  // no access in the future.
  lemma FirstStartAccounting(hashes: Hashes, c: Cache, stored: seq<Entry>, now: int)
    requires c.entries == [] && c.bytes == 0 && DistinctIds(stored)
    requires forall e :: e in stored ==> e.lastAccess <= now
    ensures var t := Start(hashes, c, stored, now); InOrder(t, now) && t.maxBytes == c.maxBytes
  {
    assert NoneCollides(hashes, c, stored, now);
    LoadAccountsExactly(hashes, c, stored, now);
    LoadDrifts(hashes, c, stored, now);
    LoadedIsStored(hashes, c, stored, now);
    var l := Load(hashes, c, stored, now);
    EvictLocationBounds(l, "", MAX_SAFE_INTEGER);
    EvictTotalBounds(EvictLocation(l, "", MAX_SAFE_INTEGER));
    EvictKeepsAccessedBy(l, "", MAX_SAFE_INTEGER, now);
  }

  // ---- Starting again ----

  function LoadableSize(hashes: Hashes, c: Cache, es: seq<Entry>, now: int): nat {
    if es == [] then 0
    else (if Loadable(hashes, c, es[0], now) then es[0].size else 0) + LoadableSize(hashes, c, es[1..], now)
  }

  lemma {:induction false} LoadOwn(hashes: Hashes, c: Cache, bytes: int, now: int, k: nat)
    requires DistinctIds(c.entries) && k <= |c.entries|
    ensures Load(hashes, c.(bytes := bytes), c.entries[k..], now) ==
      c.(bytes := bytes + LoadableSize(hashes, c, c.entries[k..], now))
    decreases |c.entries| - k
  {
    hide Taken;
    if k < |c.entries| {
      var e := c.entries[k];
      assert c.entries[k..][1..] == c.entries[k + 1..];
      assert c.entries[k..][0] == e;
      TakesItself(c.(bytes := bytes), k);
      assert Loadable(hashes, c.(bytes := bytes), e, now) == Loadable(hashes, c, e, now);
      LoadOwn(hashes, c, if Loadable(hashes, c, e, now) then bytes + e.size else bytes, now, k + 1);
    }
  }

  lemma TakesItself(c: Cache, k: nat)
    requires DistinctIds(c.entries) && k < |c.entries|
    ensures Taken(c, c.entries[k]) == c.(bytes := c.bytes + c.entries[k].size)
  {
    assert IndexOf(c.entries, c.entries[k].id) == Some(k);
    assert c.entries[k := c.entries[k]] == c.entries;
  }

  // Closing and starting again counts every live entry once more.
  lemma RestartDrifts(hashes: Hashes, c: Cache, now: int)
    requires DistinctIds(c.entries)
    ensures Load(hashes, c, c.entries, now) == c.(bytes := c.bytes + LoadableSize(hashes, c, c.entries, now))
  {
    assert c.entries[0..] == c.entries;
    LoadOwn(hashes, c, c.bytes, now, 0);
  }

  // A cache with one live entry that has a size, started again.
  lemma RestartCountsTwice(hashes: Hashes, c: Cache, e: Entry, now: int)
    requires c.entries == [e] && c.bytes == e.size && e.id != "" && e.expiresAt > now && Readable(hashes, c, e)
    ensures Load(hashes, c, [e], now).entries == [e] && Load(hashes, c, [e], now).bytes == 2 * e.size
  {
    assert [e][1..] == [];
    assert c.entries[0 := e] == [e];
  }
}
