// What a get answers after a put, in terms of the response that was offered.
module CacheReads {
  import opened Wrappers
  import opened ProxyCaching
  import Text

  // What put() keeps of the request's headers: a value for each name the response varies by.
  function VariantOf(vary: seq<string>, headers: map<string, string>): map<string, string> {
    map name | name in vary :: HeaderValue(headers, name)
  }

  // The headers give every name the response varies by the value it was stored with.
  predicate SameVariant(o: Offer, headers: map<string, string>) {
    forall i :: 0 <= i < |o.vary| ==> o.vary[i] in o.variant && HeaderValue(headers, o.vary[i]) == o.variant[o.vary[i]]
  }

  // The entry this offer would replace.
  predicate Replaces(hashes: Hashes, o: Offer, e: Entry) {
    e.id == hashes.id(o.baseKey, o.variant)
  }

  // A put of a body that the entry it replaces has already; that entry takes the file with it.
  predicate RepeatsBody(hashes: Hashes, c: Cache, o: Offer) {
    exists i :: 0 <= i < |c.entries| && Replaces(hashes, o, c.entries[i]) && c.entries[i].digest == hashes.body(o.body)
  }

  // No other entry has this key.
  predicate OnlyEntryFor(hashes: Hashes, c: Cache, o: Offer, key: string) {
    forall i :: 0 <= i < |c.entries| && c.entries[i].baseKey == key ==> Replaces(hashes, o, c.entries[i])
  }

  lemma {:induction false} EvictLocationSubset(c: Cache, location: string, limit: int)
    ensures forall e :: e in EvictLocation(c, location, limit).entries ==> e in c.entries
    decreases |c.entries|
  {
    var victim := LeastRecent(c.entries, Some(location));
    if Size(c.entries, Some(location)) > limit && victim.Some? { EvictLocationSubset(Drop(c, victim.value), location, limit); }
  }

  lemma {:induction false} EvictTotalSubset(c: Cache)
    ensures forall e :: e in EvictTotal(c).entries ==> e in c.entries
    decreases |c.entries|
  {
    var victim := LeastRecent(c.entries, None);
    if c.bytes > c.maxBytes && victim.Some? { EvictTotalSubset(Drop(c, victim.value)); }
  }

  // Whatever is left for the key after the put is the newcomer.
  lemma OnlyNewcomer(hashes: Hashes, c: Cache, o: Offer, now: int, key: string, e: Entry)
    requires Accounted(c) && Admissible(c, o) && OnlyEntryFor(hashes, c, o, key)
    requires e in Put(hashes, c, o, now).0.entries && e.baseKey == key
    ensures e == NewEntry(hashes, o, now)
  {
    hide Evict, EvictLocation, EvictTotal, Size;
    var a := Inserted(hashes, c, o, now);
    var location := LocationKey(o.site, o.location);
    EvictSubset(a, location, o.locationMaxBytes);
    assert e in a.entries;
    if e != NewEntry(hashes, o, now) { KeptIsOther(hashes, c, o, now, e); }
  }

  lemma EvictSubset(c: Cache, location: string, limit: int)
    ensures forall e :: e in Evict(c, location, limit).entries ==> e in c.entries
  {
    EvictLocationSubset(c, location, limit);
    EvictTotalSubset(EvictLocation(c, location, limit));
  }

  lemma KeptIsOther(hashes: Hashes, c: Cache, o: Offer, now: int, e: Entry)
    requires DistinctIds(c.entries) && e in Inserted(hashes, c, o, now).entries && e != NewEntry(hashes, o, now)
    ensures e in c.entries && !Replaces(hashes, o, e)
  {
  }

  // Main result on put and get: after an admissible put, with no other entry for the key asked, a get answers with
  // exactly the body that was put when the key is the offer's, its lifetime is not over, the headers give each name
  // varied by its stored value, and the put did not repeat the body it replaced; and with nothing otherwise.
  lemma PutThenGet(hashes: Hashes, c: Cache, o: Offer, now: int, key: string, headers: map<string, string>, later: int)
    requires Accounted(c) && FilesNamed(c) && AccessedBy(c, now) && Admissible(c, o)
    requires NoDot(hashes.id(o.baseKey, o.variant)) && OnlyEntryFor(hashes, c, o, key)
    ensures Get(hashes, Put(hashes, c, o, now).0, key, headers, later).1 ==
      if key == o.baseKey && later < now + o.ttlMs && SameVariant(o, headers) && !RepeatsBody(hashes, c, o)
      then Some(o.body) else None
  {
    hide Put, Get, Accounted, FilesNamed, NoDot, Readable, OnlyEntryFor;
    var e, t := NewEntry(hashes, o, now), Put(hashes, c, o, now).0;
    var chosen := Chosen(t.entries, key, headers, later, 0);
    AdmittedIsStored(hashes, c, o, now);
    PutAccounting(hashes, c, o, now);
    StoredIsReadableExactly(hashes, c, o, now);
    RepeatsExactly(hashes, c, o, now);
    AccountedIds(t);
    HitExactly(hashes, t, key, headers, later, 0);
    if chosen.Some? {
      OnlyNewcomer(hashes, c, o, now, key, t.entries[chosen.value]);
    } else {
      assert t.entries[|t.entries| - 1] == e;
      assert !Answers(e, key, headers, later);
    }
    AnswersExactly(hashes, o, now, key, headers, later);
  }

  lemma AccountedIds(c: Cache)
    requires Accounted(c)
    ensures DistinctIds(c.entries)
  {
  }

  lemma RepeatsExactly(hashes: Hashes, c: Cache, o: Offer, now: int)
    requires Accounted(c)
    ensures var e := NewEntry(hashes, o, now); var previous := IndexOf(c.entries, e.id);
      RepeatsBody(hashes, c, o) <==> previous.Some? && c.entries[previous.value].digest == e.digest
  {
    hide Size, FileName;
  }

  lemma AnswersExactly(hashes: Hashes, o: Offer, now: int, key: string, headers: map<string, string>, later: int)
    ensures Answers(NewEntry(hashes, o, now), key, headers, later) <==>
      key == o.baseKey && later < now + o.ttlMs && SameVariant(o, headers)
  {
    hide FileName;
  }

  // With the variant taken from the storing request, the headers of two requests have to agree on every name varied by.
  lemma VariantAgrees(o: Offer, stored: map<string, string>, headers: map<string, string>)
    requires o.variant == VariantOf(o.vary, stored)
    ensures SameVariant(o, headers) <==>
      forall i :: 0 <= i < |o.vary| ==> HeaderValue(headers, o.vary[i]) == HeaderValue(stored, o.vary[i])
  {
    hide HeaderValue;
    forall i | 0 <= i < |o.vary| ensures o.vary[i] in o.variant && o.variant[o.vary[i]] == HeaderValue(stored, o.vary[i]) {
      assert o.vary[i] in o.vary;
    }
  }

  // ---- What a get leaves ----

  // The entries of this key that have expired.
  predicate Outdated(e: Entry, key: string, now: int) {
    e.baseKey == key && e.expiresAt <= now
  }

  function WithoutOutdated(es: seq<Entry>, key: string, now: int): (r: seq<Entry>)
    ensures forall e :: e in r <==> e in es && !Outdated(e, key, now)
  {
    if es == [] then []
    else (if Outdated(es[0], key, now) then [] else [es[0]]) + WithoutOutdated(es[1..], key, now)
  }

  // The entries up to the one chosen lose those that have expired for this key; the one chosen is marked as accessed
  // or, with a damaged file, goes; the others stay.
  function Left(hashes: Hashes, c: Cache, key: string, now: int, i: nat, chosen: Option<nat>): seq<Entry>
    requires i <= |c.entries| && (chosen.Some? ==> i <= chosen.value < |c.entries|)
  {
    if chosen.None? then c.entries[..i] + WithoutOutdated(c.entries[i..], key, now)
    else
      c.entries[..i] + WithoutOutdated(c.entries[i..chosen.value], key, now)
        + (if Readable(hashes, c, c.entries[chosen.value]) then [c.entries[chosen.value].(lastAccess := now)] else [])
        + c.entries[chosen.value + 1..]
  }

  lemma NoneOutdated(key: string, now: int)
    ensures WithoutOutdated([], key, now) == []
  {
  }

  lemma OutdatedFirst(e: Entry, rest: seq<Entry>, key: string, now: int)
    ensures WithoutOutdated([e] + rest, key, now) == (if Outdated(e, key, now) then [] else [e]) + WithoutOutdated(rest, key, now)
  {
    assert ([e] + rest)[1..] == rest;
  }

  // One entry further on that stays.
  lemma LeftBehind(hashes: Hashes, c: Cache, key: string, now: int, i: nat, chosen: Option<nat>)
    requires i < |c.entries| && (chosen.Some? ==> i < chosen.value < |c.entries|) && !Outdated(c.entries[i], key, now)
    ensures Left(hashes, c, key, now, i, chosen) == Left(hashes, c, key, now, i + 1, chosen)
  {
    hide WithoutOutdated, Readable, Outdated;
    var e, end := c.entries[i], if chosen.Some? then chosen.value else |c.entries|;
    assert c.entries[i..end] == [e] + c.entries[i + 1..end];
    OutdatedFirst(e, c.entries[i + 1..end], key, now);
    assert c.entries[..i + 1] == c.entries[..i] + [e];
    Text.ConcatAssociates(c.entries[..i], [e], WithoutOutdated(c.entries[i + 1..end], key, now));
    assert c.entries[i..|c.entries|] == c.entries[i..] && c.entries[i + 1..|c.entries|] == c.entries[i + 1..];
  }

  // One entry further on that goes.
  lemma LeftDropped(hashes: Hashes, c: Cache, key: string, now: int, i: nat, chosen: Option<nat>)
    requires i < |c.entries| && (chosen.Some? ==> i < chosen.value < |c.entries|) && Outdated(c.entries[i], key, now)
    requires DistinctIds(c.entries) && FilesNamed(c)
    ensures |Drop(c, i).entries| == |c.entries| - 1
    ensures Left(hashes, c, key, now, i, chosen) ==
      Left(hashes, Drop(c, i), key, now, i, if chosen.Some? then Some((chosen.value - 1) as nat) else None)
  {
    hide WithoutOutdated, Readable, Outdated, FilesNamed, DistinctIds;
    var e, end, t := c.entries[i], if chosen.Some? then chosen.value else |c.entries|, Drop(c, i);
    assert c.entries[i..end] == [e] + c.entries[i + 1..end];
    OutdatedFirst(e, c.entries[i + 1..end], key, now);
    assert t.entries[i..end - 1] == c.entries[i + 1..end] && t.entries[..i] == c.entries[..i];
    if chosen.Some? {
      SameReadable(hashes, c, i, end);
      assert t.entries[end..] == c.entries[end + 1..];
    } else {
      assert c.entries[i..end] == c.entries[i..] && t.entries[i..end - 1] == t.entries[i..];
    }
  }

  lemma SameReadable(hashes: Hashes, c: Cache, i: nat, j: nat)
    requires i < j < |c.entries| && DistinctIds(c.entries) && FilesNamed(c)
    ensures j - 1 < |Drop(c, i).entries| && Drop(c, i).entries[j - 1] == c.entries[j]
    ensures Readable(hashes, Drop(c, i), c.entries[j]) == Readable(hashes, c, c.entries[j])
  {
    hide Readable, DistinctIds, FilesNamed;
    DropKeepsReadable(hashes, c, i, j);
  }

  lemma {:induction false} GetLeavesFrom(hashes: Hashes, c: Cache, key: string, headers: map<string, string>, now: int, i: nat)
    requires DistinctIds(c.entries) && FilesNamed(c) && i <= |c.entries|
    ensures Get(hashes, c, key, headers, now, i).0.entries == Left(hashes, c, key, now, i, Chosen(c.entries, key, headers, now, i))
    decreases |c.entries| - i
  {
    hide Readable, Varies, WithoutOutdated, Left, FilesNamed, DistinctIds, Drop, Without;
    if i < |c.entries| {
      var e := c.entries[i];
      if e.baseKey == key && e.expiresAt <= now {
        DropKeepsNamed(c, i);
        LeftDropped(hashes, c, key, now, i, Chosen(c.entries, key, headers, now, i + 1));
        ChosenWithout(c.entries, key, headers, now, i, i);
        GetLeavesFrom(hashes, Drop(c, i), key, headers, now, i);
      } else if !Answers(e, key, headers, now) {
        LeftBehind(hashes, c, key, now, i, Chosen(c.entries, key, headers, now, i + 1));
        GetLeavesFrom(hashes, c, key, headers, now, i + 1);
      } else {
        LeftAtChosen(hashes, c, key, now, i);
      }
    } else {
      LeftAtEnd(hashes, c, key, now);
    }
  }

  lemma LeftAtEnd(hashes: Hashes, c: Cache, key: string, now: int)
    ensures Left(hashes, c, key, now, |c.entries|, None) == c.entries
  {
    NoneOutdated(key, now);
    assert c.entries[|c.entries|..] == [] && c.entries[..|c.entries|] + [] == c.entries;
  }

  lemma LeftAtChosen(hashes: Hashes, c: Cache, key: string, now: int, i: nat)
    requires i < |c.entries|
    ensures var e := c.entries[i];
      Left(hashes, c, key, now, i, Some(i)) ==
        if Readable(hashes, c, e) then c.entries[i := e.(lastAccess := now)] else Drop(c, i).entries
  {
    hide Readable, WithoutOutdated;
    NoneOutdated(key, now);
    assert c.entries[i..i] == [] && c.entries[..i] + [] == c.entries[..i];
    var e := c.entries[i].(lastAccess := now);
    assert c.entries[i := e] == c.entries[..i] + [e] + c.entries[i + 1..];
  }

  // Main result on what a get leaves of the index.
  lemma GetLeaves(hashes: Hashes, c: Cache, key: string, headers: map<string, string>, now: int)
    requires DistinctIds(c.entries) && FilesNamed(c)
    ensures Get(hashes, c, key, headers, now).0.entries == Left(hashes, c, key, now, 0, Chosen(c.entries, key, headers, now, 0))
  {
    GetLeavesFrom(hashes, c, key, headers, now, 0);
  }

  // ---- Put and clear ----

  // A stored response is cleared with its site and location, and with no others.
  lemma PutThenClear(hashes: Hashes, c: Cache, o: Offer, now: int, site: string, location: string)
    requires Accounted(c) && AccessedBy(c, now) && Admissible(c, o)
    ensures var t := Clear(Put(hashes, c, o, now).0, site, location);
      (exists e :: e in t.entries && Replaces(hashes, o, e)) <==>
        (site != "" && site != o.site) || (location != "" && location != o.location)
  {
    hide Put, Clear, Size;
    var e, u := NewEntry(hashes, o, now), Put(hashes, c, o, now).0;
    AdmittedIsStored(hashes, c, o, now);
    PutAccounting(hashes, c, o, now);
    ClearKeepsExactly(u, site, location);
    assert u.entries[|u.entries| - 1] == e && Replaces(hashes, o, e);
    forall x | x in u.entries && Replaces(hashes, o, x) ensures x == e {
      var i :| 0 <= i < |u.entries| && u.entries[i] == x;
    }
  }

  // ---- What eviction leaves ----

  // The oldest of the location go until it fits its limit, then the oldest of the rest until the whole cache fits.
  ghost predicate EvictedTo(before: seq<Entry>, middle: seq<Entry>, after: seq<Entry>, location: string, limit: int, maxBytes: int) {
    && EvictsOldest(before, middle, Some(location)) && LastVictimNeeded(before, middle, Some(location), limit)
    && Size(middle, Some(location)) <= limit
    && EvictsOldest(middle, after, None) && LastVictimNeeded(middle, after, None, maxBytes) && Size(after, None) <= maxBytes
  }

  lemma EvictsInTurn(c: Cache, location: string, limit: int)
    requires Accounted(c) && limit >= 0
    ensures exists middle :: EvictedTo(c.entries, middle, Evict(c, location, limit).entries, location, limit, c.maxBytes)
  {
    hide Accounted, EvictsOldest, LastVictimNeeded, Size, EvictLocation, EvictTotal;
    AccountedIds(c);
    var m := EvictLocation(c, location, limit);
    EvictLocationIsLeastRecent(c, location, limit);
    EvictLocationBounds(c, location, limit);
    EvictTotalIsLeastRecent(m);
    EvictTotalBounds(m);
    AccountedSize(EvictTotal(m));
    var t := Evict(c, location, limit);
    assert t == EvictTotal(m) && m.maxBytes == c.maxBytes;
    assert EvictedTo(c.entries, m.entries, t.entries, location, limit, c.maxBytes);
  }

  lemma AccountedSize(c: Cache)
    requires Accounted(c)
    ensures c.bytes == Size(c.entries, None)
  {
  }

  // A put leaves the entries it found, less the one it replaces, with its own behind them, evicted in turn.
  lemma PutEvicts(hashes: Hashes, c: Cache, o: Offer, now: int)
    requires Accounted(c) && Admissible(c, o)
    ensures var inserted := Inserted(hashes, c, o, now).entries; var after := Put(hashes, c, o, now).0.entries;
      && (forall e :: e in inserted <==> e == NewEntry(hashes, o, now) || (e in c.entries && !Replaces(hashes, o, e)))
      && exists middle :: EvictedTo(inserted, middle, after, LocationKey(o.site, o.location), o.locationMaxBytes, c.maxBytes)
  {
    hide Evict, Size, EvictedTo;
    var a := Inserted(hashes, c, o, now);
    InsertKeepsAccounted(hashes, c, o, now);
    InsertKeepsLimit(hashes, c, o, now);
    InsertedEntries(hashes, c, o, now);
    EvictsInTurn(a, LocationKey(o.site, o.location), o.locationMaxBytes);
  }

  lemma InsertedEntries(hashes: Hashes, c: Cache, o: Offer, now: int)
    requires Accounted(c)
    ensures forall e :: e in Inserted(hashes, c, o, now).entries <==>
      e == NewEntry(hashes, o, now) || (e in c.entries && !Replaces(hashes, o, e))
  {
    hide Size, FileName;
    var previous := IndexOf(c.entries, hashes.id(o.baseKey, o.variant));
    if previous.Some? { MembersWithout(c.entries, previous.value); }
  }

  // A new size evicts the oldest of the whole cache, and nothing while everything fits.
  lemma ConfigureEvicts(c: Cache, maxBytes: nat)
    requires Accounted(c) && Size(c.entries, None) <= MAX_SAFE_INTEGER
    ensures var after := Configure(c, maxBytes).entries;
      && EvictsOldest(c.entries, after, None) && LastVictimNeeded(c.entries, after, None, maxBytes) && Size(after, None) <= maxBytes
      && (Size(c.entries, None) <= maxBytes ==> after == c.entries)
  {
    hide Accounted, EvictsOldest, LastVictimNeeded, Size, EvictTotal;
    var d := c.(maxBytes := maxBytes);
    ResizedAccounted(c, maxBytes);
    SizeWithinTotal(c.entries, Some(""));
    assert EvictLocation(d, "", MAX_SAFE_INTEGER) == d;
    EvictTotalIsLeastRecent(d);
    EvictTotalBounds(d);
    AccountedSize(d);
    AccountedSize(EvictTotal(d));
    NothingToEvict(d);
  }

  lemma ResizedAccounted(c: Cache, maxBytes: nat)
    requires Accounted(c)
    ensures Accounted(c.(maxBytes := maxBytes))
  {
  }

  lemma NothingToEvict(c: Cache)
    ensures c.bytes <= c.maxBytes ==> EvictTotal(c) == c
  {
  }

  lemma {:induction false} SizeWithinTotal(es: seq<Entry>, scope: Option<string>)
    ensures Size(es, scope) <= Size(es, None)
  {
    hide InScope;
    if es != [] { SizeWithinTotal(es[..|es| - 1], scope); }
    EverythingInScope();
  }

  lemma EverythingInScope()
    ensures forall e :: InScope(e, None)
  {
  }

  // ---- What a start takes over ----

  // From nothing, exactly the stored entries with an id that have not expired and whose file is intact.
  lemma {:induction false} StartTakesExactly(hashes: Hashes, c: Cache, stored: seq<Entry>, now: int)
    requires DistinctIds(stored) && forall e, f :: e in c.entries && f in stored ==> e.id != f.id
    ensures forall e :: e in Load(hashes, c, stored, now).entries <==>
      e in c.entries || (e in stored && e.id != "" && now < e.expiresAt && e.file in c.disk
                         && |c.disk[e.file]| == e.size && hashes.body(c.disk[e.file]) == e.digest)
    decreases |stored|
  {
    if stored != [] {
      var first, rest := stored[0], stored[1..];
      assert stored == [first] + rest;
      if Loadable(hashes, c, first, now) {
        assert IndexOf(c.entries, first.id).None?;
        StartTakesExactly(hashes, Taken(c, first), rest, now);
      } else {
        StartTakesExactly(hashes, c, rest, now);
      }
    }
  }
}
