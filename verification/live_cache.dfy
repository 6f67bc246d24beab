// The cache object: index, byte count and directory updated in place.
module LiveProxyCache {
  import opened Wrappers
  import opened ProxyCaching

  datatype Failure = NotStarted | InvalidSize

  class ProxyCache {
    const hashes: Hashes
    var entries: seq<Entry>
    var bytes: int
    var maxBytes: nat
    var started: bool
    var disk: map<string, Body>

    constructor (hashes: Hashes, maxBytes: nat, disk: map<string, Body>)
      requires maxBytes > 0
      ensures State() == Cache([], 0, maxBytes, disk) && !started && this.hashes == hashes
    {
      this.hashes, this.maxBytes, this.disk := hashes, maxBytes, disk;
      entries, bytes, started := [], 0, false;
    }

    function State(): Cache
      reads this
    {
      Cache(entries, bytes, maxBytes, disk)
    }

    method Remove(i: nat)
      requires i < |entries|
      modifies this`entries, this`bytes, this`disk
      ensures State() == Drop(old(State()), i)
    {
      var e := entries[i];
      entries := entries[..i] + entries[i + 1..];
      bytes := bytes - e.size;
      disk := disk - {e.file};
    }

    method BytesIn(location: string) returns (total: nat)
      ensures total == Size(entries, Some(location))
    {
      total := 0;
      for i := 0 to |entries|
        invariant total == Size(entries[..i], Some(location))
      {
        assert entries[..i + 1][..i] == entries[..i];
        if KeyOf(entries[i]) == location { total := total + entries[i].size; }
      }
      assert entries[..|entries|] == entries;
    }

    method EvictDown(location: string, limit: int)
      modifies this`entries, this`bytes, this`disk
      ensures State() == Evict(old(State()), location, limit)
    {
      while true
        invariant maxBytes == old(maxBytes)
        invariant EvictLocation(State(), location, limit) == EvictLocation(old(State()), location, limit)
        decreases |entries|
      {
        var total := BytesIn(location);
        if total <= limit { break; }
        var victim := LeastRecent(entries, Some(location));
        if victim.None? { break; }
        Remove(victim.value);
      }
      ghost var fitted := State();
      while bytes > maxBytes
        invariant maxBytes == old(maxBytes)
        invariant EvictTotal(State()) == EvictTotal(fitted)
        decreases |entries|
      {
        var victim := LeastRecent(entries, None);
        if victim.None? { break; }
        Remove(victim.value);
      }
    }

    method Put(offer: Offer, now: int) returns (r: Result<bool, Failure>)
      modifies this`entries, this`bytes, this`disk
      ensures !started ==> r == Err(NotStarted) && State() == old(State())
      ensures started ==> r.Ok? && (State(), r.value) == ProxyCaching.Put(hashes, old(State()), offer, now)
    {
      if !started { return Err(NotStarted); }
      if !offer.cacheable { return Ok(false); }
      if |offer.body| > offer.locationMaxBytes || |offer.body| > maxBytes { return Ok(false); }
      var id := hashes.id(offer.baseKey, offer.variant);
      var digest := hashes.body(offer.body);
      var file := FileName(id, digest);
      disk := disk[file := offer.body];
      var previous := IndexOf(entries, id);
      if previous.Some? { Remove(previous.value); }
      var entry := Entry(id, offer.baseKey, offer.site, offer.location, offer.vary, offer.variant, file, digest,
                         |offer.body|, now, now + offer.ttlMs);
      entries := entries + [entry];
      bytes := bytes + entry.size;
      assert State() == Inserted(hashes, old(State()), offer, now);
      EvictDown(LocationKey(offer.site, offer.location), offer.locationMaxBytes);
      return Ok(IndexOf(entries, id).Some?);
    }

    method Get(key: string, headers: map<string, string>, now: int) returns (r: Result<Option<Body>, Failure>)
      modifies this`entries, this`bytes, this`disk
      ensures !started ==> r == Err(NotStarted) && State() == old(State())
      ensures started ==> r.Ok? && (State(), r.value) == ProxyCaching.Get(hashes, old(State()), key, headers, now)
    {
      if !started { return Err(NotStarted); }
      var i := 0;
      while i < |entries|
        invariant maxBytes == old(maxBytes)
        invariant ProxyCaching.Get(hashes, State(), key, headers, now, i) == ProxyCaching.Get(hashes, old(State()), key, headers, now)
        decreases |entries| - i
      {
        var entry := entries[i];
        if entry.baseKey != key {
          i := i + 1;
        } else if entry.expiresAt <= now {
          Remove(i);
        } else if Varies(entry, headers) {
          i := i + 1;
        } else if !Readable(hashes, State(), entry) {
          Remove(i);
          return Ok(None);
        } else {
          entries := entries[i := entry.(lastAccess := now)];
          return Ok(Some(disk[entry.file]));
        }
      }
      return Ok(None);
    }

    method Configure(maxBytes: int) returns (r: Result<(), Failure>)
      modifies this
      ensures r == if maxBytes < 1 then Err(InvalidSize) else Ok(())
      ensures State() == (if r.Ok? then ProxyCaching.Configure(old(State()), maxBytes) else old(State())) && started == old(started)
    {
      if maxBytes < 1 { return Err(InvalidSize); }
      this.maxBytes := maxBytes;
      EvictDown("", MAX_SAFE_INTEGER);
      return Ok(());
    }

    method Clear(site: string, location: string)
      modifies this`entries, this`bytes, this`disk
      ensures State() == ProxyCaching.Clear(old(State()), site, location)
    {
      var i := 0;
      while i < |entries|
        invariant maxBytes == old(maxBytes)
        invariant ProxyCaching.Clear(State(), site, location, i) == ProxyCaching.Clear(old(State()), site, location)
        decreases |entries| - i
      {
        if (site != "" && entries[i].site != site) || (location != "" && entries[i].location != location) {
          i := i + 1;
        } else {
          Remove(i);
        }
      }
    }

    method Start(stored: seq<Entry>, now: int)
      modifies this
      ensures started
      ensures State() == if old(started) then old(State()) else ProxyCaching.Start(hashes, old(State()), stored, now)
    {
      if started { return; }
      for i := 0 to |stored|
        invariant maxBytes == old(maxBytes)
        invariant Load(hashes, State(), stored[i..], now) == Load(hashes, old(State()), stored, now)
      {
        assert stored[i..][0] == stored[i] && stored[i..][1..] == stored[i + 1..];
        if Loadable(hashes, State(), stored[i], now) {
          var at := IndexOf(entries, stored[i].id);
          entries := if at.Some? then entries[at.value := stored[i]] else entries + [stored[i]];
          bytes := bytes + stored[i].size;
        }
      }
      started := true;
      EvictDown("", MAX_SAFE_INTEGER);
    }

    method Close()
      modifies this`started
      ensures !started
    {
      started := false;
    }
  }
}
