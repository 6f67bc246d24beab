// The audit log: a hash chain that is appended to, pruned, rebuilt and verified.
module Audit {
  import opened Wrappers
  import opened CanonicalJson
  import opened JsonParsing

  datatype Content = Content(
    createdAt: string, actorId: string, actorType: string, action: string, resource: string,
    before: Json, after: Json, requestId: string, sourceIp: string)

  datatype Row = Row(id: nat, content: Content, previousHash: Option<string>, entryHash: string)

  // A digest function without collisions; digests are never empty.
  ghost predicate Digest(hash: string -> string) {
    (forall s, t :: hash(s) == hash(t) ==> s == t) && forall s :: hash(s) != []
  }

  ghost predicate ValidContent(c: Content) {
    Valid(c.before) && Valid(c.after)
  }

  ghost predicate ValidLog(log: seq<Row>) {
    forall i :: 0 <= i < |log| ==> ValidContent(log[i].content)
  }

  function Payload(c: Content, previous: Option<string>): Json {
    Obj([Prop("createdAt", Str(c.createdAt)), Prop("actorId", Str(c.actorId)), Prop("actorType", Str(c.actorType)),
         Prop("action", Str(c.action)), Prop("resource", Str(c.resource)), Prop("before", c.before),
         Prop("after", c.after), Prop("requestId", Str(c.requestId)), Prop("sourceIp", Str(c.sourceIp)),
         Prop("previousHash", if previous.None? then Null else Str(previous.value))])
  }

  function AuditHash(hash: string -> string, c: Content, previous: Option<string>): string {
    hash(Canonical(Payload(c, previous)))
  }

  // Contents as the digest sees them: JSON states count by meaning.
  predicate SameContent(c: Content, d: Content) {
    && c.(before := Null, after := Null) == d.(before := Null, after := Null)
    && MeaningOf(c.before) == MeaningOf(d.before) && MeaningOf(c.after) == MeaningOf(d.after)
  }

  const FIELDS: seq<string> :=
    ["createdAt", "actorId", "actorType", "action", "resource", "before", "after", "requestId", "sourceIp", "previousHash"]

  lemma PayloadKeys(c: Content, previous: Option<string>)
    ensures Payload(c, previous).Obj? && |Payload(c, previous).props| == 10
    ensures forall i :: 0 <= i < 10 ==> Payload(c, previous).props[i].key == FIELDS[i]
  {
  }

  lemma PayloadKeysDistinct(c: Content, previous: Option<string>)
    ensures DistinctKeys(Payload(c, previous).props)
  {
  }

  lemma PayloadValid(c: Content, previous: Option<string>)
    requires ValidContent(c)
    ensures Valid(Payload(c, previous))
  {
    PayloadKeysDistinct(c, previous);
  }

  lemma PayloadField(c: Content, p: Option<string>, d: Content, q: Option<string>, i: nat)
    requires MeaningOf(Payload(c, p)) == MeaningOf(Payload(d, q)) && i < 10
    ensures |Payload(c, p).props| == |Payload(d, q).props| == 10
    ensures MeaningOf(Payload(c, p).props[i].value) == MeaningOf(Payload(d, q).props[i].value)
  {
    hide Payload, DistinctKeys, FieldsOf;
    PayloadKeys(c, p);
    PayloadKeys(d, q);
    PayloadKeysDistinct(c, p);
    PayloadKeysDistinct(d, q);
    FieldsAreProps(Payload(c, p).props);
    FieldsAreProps(Payload(d, q).props);
    assert Payload(c, p).props[i].key == Payload(d, q).props[i].key;
  }

  lemma HashDeterminesContent(hash: string -> string, c: Content, p: Option<string>, d: Content, q: Option<string>)
    requires Digest(hash) && ValidContent(c) && ValidContent(d)
    requires AuditHash(hash, c, p) == AuditHash(hash, d, q)
    ensures SameContent(c, d) && p == q
  {
    PayloadValid(c, p);
    PayloadValid(d, q);
    CanonicalIsUnambiguous(Payload(c, p), Payload(d, q));
    forall i: nat | i < 10
      ensures MeaningOf(Payload(c, p).props[i].value) == MeaningOf(Payload(d, q).props[i].value)
    {
      PayloadField(c, p, d, q, i);
    }
    var cs, ds := Payload(c, p).props, Payload(d, q).props;
    assert MeaningOf(cs[0].value) == MeaningOf(ds[0].value) && MeaningOf(cs[1].value) == MeaningOf(ds[1].value);
    assert MeaningOf(cs[2].value) == MeaningOf(ds[2].value) && MeaningOf(cs[3].value) == MeaningOf(ds[3].value);
    assert MeaningOf(cs[4].value) == MeaningOf(ds[4].value) && MeaningOf(cs[5].value) == MeaningOf(ds[5].value);
    assert MeaningOf(cs[6].value) == MeaningOf(ds[6].value) && MeaningOf(cs[7].value) == MeaningOf(ds[7].value);
    assert MeaningOf(cs[8].value) == MeaningOf(ds[8].value) && MeaningOf(cs[9].value) == MeaningOf(ds[9].value);
  }

  // The content of a row read back: the states are parsed from their stored canonical texts.
  function Reread(c: Content): Option<Content> {
    var before, after := Parse(Canonical(c.before)), Parse(Canonical(c.after));
    if before.None? || after.None? then None else Some(c.(before := before.value, after := after.value))
  }

  // It can be read back, means the same, and hashes the same.
  lemma RereadKeepsHash(hash: string -> string, c: Content, p: Option<string>)
    requires ValidContent(c)
    ensures Reread(c).Some? && ValidContent(Reread(c).value) && SameContent(c, Reread(c).value)
    ensures AuditHash(hash, Reread(c).value, p) == AuditHash(hash, c, p)
  {
    hide Canonical, MeaningOf, Parse;
    ParsesBack(c.before);
    ParsesBack(c.after);
    SameContentSameHash(hash, c, Reread(c).value, p);
  }

  lemma SameContentSameHash(hash: string -> string, c: Content, d: Content, p: Option<string>)
    requires ValidContent(c) && ValidContent(d) && SameContent(c, d)
    ensures AuditHash(hash, c, p) == AuditHash(hash, d, p)
  {
    PayloadValid(c, p);
    PayloadValid(d, p);
    FieldsPointwise(Payload(c, p).props, Payload(d, p).props);
    CanonicalIsUnambiguous(Payload(c, p), Payload(d, p));
  }

  // ---- The chain ----

  // The hash a new entry links to; an empty text counts as none.
  function LastHash(log: seq<Row>): Option<string> {
    if log == [] || log[|log| - 1].entryHash == [] then None else Some(log[|log| - 1].entryHash)
  }

  function LinkFor(log: seq<Row>, i: nat): Option<string>
    requires i <= |log|
  {
    if i == 0 then None else Some(log[i - 1].entryHash)
  }

  predicate LinkOk(hash: string -> string, log: seq<Row>, i: nat)
    requires i < |log|
  {
    && log[i].previousHash == LinkFor(log, i)
    && log[i].entryHash == AuditHash(hash, log[i].content, LinkFor(log, i))
  }

  ghost predicate ChainOk(hash: string -> string, log: seq<Row>) {
    forall i :: 0 <= i < |log| ==> LinkOk(hash, log, i)
  }

  function Pruned(log: seq<Row>, cutoff: string): (r: seq<Row>)
    ensures |r| <= |log|
    ensures |r| == |log| ==> r == log
    ensures |r| == |log| <==> forall i :: 0 <= i < |log| ==> !Before(log[i].content.createdAt, cutoff)
    ensures forall i :: 0 <= i < |r| ==> r[i] in log && !Before(r[i].content.createdAt, cutoff)
  {
    if log == [] then []
    else
      var last := log[|log| - 1];
      Pruned(log[..|log| - 1], cutoff) + if Before(last.content.createdAt, cutoff) then [] else [last]
  }

  // Of one row behind others, the row unless it is before the cutoff.
  lemma PrunedLast(log: seq<Row>, r: Row, cutoff: string)
    ensures Pruned(log + [r], cutoff) == Pruned(log, cutoff) + if Before(r.content.createdAt, cutoff) then [] else [r]
  {
    assert (log + [r])[..|log|] == log;
  }

  // Of two stretches of the log what is left of each is left, in order.
  lemma {:induction false} PrunedExactly(a: seq<Row>, b: seq<Row>, cutoff: string)
    ensures Pruned(a + b, cutoff) == Pruned(a, cutoff) + Pruned(b, cutoff)
    decreases |b|
  {
    hide Pruned, Before;
    if b == [] {
      NothingPruned(cutoff);
      assert a + b == a;
    } else {
      var front, last := b[..|b| - 1], b[|b| - 1];
      assert b == front + [last] && a + b == (a + front) + [last];
      PrunedExactly(a, front, cutoff);
      PrunedLast(front, last, cutoff);
      PrunedLast(a + front, last, cutoff);
    }
  }

  lemma NothingPruned(cutoff: string)
    ensures Pruned([], cutoff) == []
  {
  }

  function Rebuilt(hash: string -> string, log: seq<Row>): (r: seq<Row>)
    ensures |r| == |log|
    ensures forall i :: 0 <= i < |r| ==> r[i].content == log[i].content && r[i].id == log[i].id
  {
    if log == [] then []
    else
      var front := Rebuilt(hash, log[..|log| - 1]);
      var row := log[|log| - 1];
      var previous := LinkFor(front, |front|);
      front + [row.(previousHash := previous, entryHash := AuditHash(hash, row.content, previous))]
  }

  lemma RebuiltStart(hash: string -> string, log: seq<Row>)
    ensures Rebuilt(hash, log[..0]) == [] && log == Rebuilt(hash, log[..0]) + log[0..]
    ensures LinkFor(Rebuilt(hash, log[..0]), 0) == None
  {
  }

  lemma RebuiltStep(hash: string -> string, log: seq<Row>, i: nat)
    requires i < |log|
    ensures var front := Rebuilt(hash, log[..i]); var previous := LinkFor(front, i);
      var row := log[i].(previousHash := previous, entryHash := AuditHash(hash, log[i].content, previous));
      && (front + log[i..])[i] == log[i]
      && (front + log[i..])[i := row] == Rebuilt(hash, log[..i + 1]) + log[i + 1..]
      && LinkFor(Rebuilt(hash, log[..i + 1]), i + 1) == Some(row.entryHash)
  {
    hide AuditHash;
    assert log[..i + 1][..i] == log[..i];
  }

  // Rows as they are read back.
  function RereadLog(log: seq<Row>): seq<Row>
    requires ValidLog(log)
  {
    seq(|log|, i requires 0 <= i < |log| => log[i].(content := RereadRow(log, i)))
  }

  function RereadRow(log: seq<Row>, i: nat): Content
    requires ValidLog(log) && i < |log|
  {
    RereadKeepsHash(s => s, log[i].content, None);
    Reread(log[i].content).value
  }

  // The check of the rows read back is the check of the rows written.
  lemma RereadLogVerifies(hash: string -> string, log: seq<Row>)
    requires ValidLog(log)
    ensures ValidLog(RereadLog(log)) && (ChainOk(hash, RereadLog(log)) <==> ChainOk(hash, log))
  {
    hide AuditHash, ValidContent, SameContent;
    var read := RereadLog(log);
    forall i | 0 <= i < |log| ensures ValidContent(read[i].content) && (LinkOk(hash, read, i) <==> LinkOk(hash, log, i)) {
      RereadKeepsHash(hash, log[i].content, LinkFor(log, i));
    }
  }

  // The log one append leaves.
  function Appended(hash: string -> string, log: seq<Row>, id: nat, c: Content, cutoff: string): seq<Row> {
    var kept := Pruned(log, cutoff);
    var base := if |kept| < |log| then Rebuilt(hash, kept) else kept;
    base + [Row(id, c, LastHash(base), AuditHash(hash, c, LastHash(base)))]
  }

  // Contents and ids: what pruning leaves, in order, and the new entry behind it.
  lemma AppendKeeps(hash: string -> string, log: seq<Row>, id: nat, c: Content, cutoff: string)
    ensures var kept := Pruned(log, cutoff); var after := Appended(hash, log, id, c, cutoff);
      && |after| == |kept| + 1 && after[|kept|].content == c && after[|kept|].id == id
      && (forall i :: 0 <= i < |kept| ==> after[i].content == kept[i].content && after[i].id == kept[i].id)
      && (|kept| == |log| ==> after[..|log|] == log)
  {
    hide Pruned, Rebuilt, AuditHash;
  }

  class AuditLog {
    const hash: string -> string
    var log: seq<Row>
    var nextId: nat

    constructor (hash: string -> string)
      ensures log == [] && this.hash == hash
    {
      this.hash := hash;
      log, nextId := [], 1;
    }

    // Rewrites every link in order.
    method Rebuild()
      modifies this`log
      ensures log == Rebuilt(hash, old(log))
    {
      hide *;
      ghost var was := log;
      var previous: Option<string> := None;
      RebuiltStart(hash, log);
      for i := 0 to |log|
        invariant |log| == |was| && log == Rebuilt(hash, was[..i]) + was[i..]
        invariant previous == LinkFor(Rebuilt(hash, was[..i]), i)
      {
        RebuiltStep(hash, was, i);
        var entryHash := AuditHash(hash, log[i].content, previous);
        log := log[i := log[i].(previousHash := previous, entryHash := entryHash)];
        previous := Some(entryHash);
      }
      assert was[..|was|] == was;
    }

    method Append(c: Content, cutoff: string) returns (id: Option<nat>)
      modifies this
      ensures id.Some? <==> AcceptedEntry(c)
      ensures id.None? ==> log == old(log) && nextId == old(nextId)
      ensures id.Some? ==> id.value == old(nextId) && nextId == old(nextId) + 1
      ensures id.Some? ==> log == Appended(hash, old(log), id.value, c, cutoff)
    {
      if c.actorId == "" || !(c.actorType in ["user", "api-token", "system"]) || c.action == "" || c.resource == ""
        || c.requestId == "" || c.sourceIp == "" {
        return None;
      }
      var before := |log|;
      log := Pruned(log, cutoff);
      if |log| < before { Rebuild(); }
      var previous := LastHash(log);
      log := log + [Row(nextId, c, previous, AuditHash(hash, c, previous))];
      id := Some(nextId);
      nextId := nextId + 1;
    }

    // The id of the first entry whose link or hash is wrong, if any.
    method Verify() returns (valid: bool, brokenAt: Option<nat>)
      ensures valid <==> ChainOk(hash, log)
      ensures valid <==> brokenAt.None?
      ensures !valid ==> exists i ::
        0 <= i < |log| && !LinkOk(hash, log, i) && (forall j :: 0 <= j < i ==> LinkOk(hash, log, j)) && brokenAt == Some(log[i].id)
    {
      var previous: Option<string> := None;
      for i := 0 to |log|
        invariant previous == LinkFor(log, i)
        invariant forall j :: 0 <= j < i ==> LinkOk(hash, log, j)
      {
        var entry := log[i];
        if entry.previousHash != previous || entry.entryHash != AuditHash(hash, entry.content, previous) {
          assert !LinkOk(hash, log, i);
          return false, Some(entry.id);
        }
        previous := Some(entry.entryHash);
      }
      return true, None;
    }
  }

  predicate AcceptedEntry(c: Content) {
    c.actorId != "" && c.actorType in ["user", "api-token", "system"] && c.action != "" && c.resource != ""
    && c.requestId != "" && c.sourceIp != ""
  }

  lemma {:induction false} RebuiltChains(hash: string -> string, log: seq<Row>)
    ensures ChainOk(hash, Rebuilt(hash, log))
  {
    if log != [] {
      var front := Rebuilt(hash, log[..|log| - 1]);
      var r := Rebuilt(hash, log);
      RebuiltChains(hash, log[..|log| - 1]);
      forall i | 0 <= i < |r| ensures LinkOk(hash, r, i) {
        if i < |front| { assert LinkOk(hash, front, i); }
      }
    }
  }

  lemma ChainedLastHash(hash: string -> string, log: seq<Row>)
    requires Digest(hash) && ChainOk(hash, log)
    ensures LastHash(log) == LinkFor(log, |log|)
  {
    if log != [] { assert LinkOk(hash, log, |log| - 1); }
  }

  // Linking one more entry keeps a chain as good or as bad as it was.
  lemma LinkedOneMore(hash: string -> string, base: seq<Row>, row: Row)
    requires Digest(hash)
    requires row.previousHash == LastHash(base) && row.entryHash == AuditHash(hash, row.content, LastHash(base))
    ensures ChainOk(hash, base + [row]) <==> ChainOk(hash, base)
  {
    hide AuditHash;
    var r := base + [row];
    if ChainOk(hash, base) {
      ChainedLastHash(hash, base);
      forall i | 0 <= i < |r| ensures LinkOk(hash, r, i) {
        if i < |base| { assert LinkOk(hash, base, i); }
      }
    }
    if ChainOk(hash, r) {
      forall i | 0 <= i < |base| ensures LinkOk(hash, base, i) {
        assert LinkOk(hash, r, i);
      }
    }
  }

  // An append leaves a verified log exactly when the log verified before, or when pruning rebuilt it:
  // a rebuild vouches for whatever rows it finds.
  lemma AppendVerifiesExactly(hash: string -> string, log: seq<Row>, id: nat, c: Content, cutoff: string)
    requires Digest(hash)
    ensures ChainOk(hash, Appended(hash, log, id, c, cutoff)) <==> ChainOk(hash, log) || |Pruned(log, cutoff)| < |log|
  {
    hide AuditHash, ChainOk, LastHash, Digest;
    var kept := Pruned(log, cutoff);
    var base := if |kept| < |log| then Rebuilt(hash, kept) else kept;
    if |kept| < |log| { RebuiltChains(hash, kept); }
    LinkedOneMore(hash, base, Row(id, c, LastHash(base), AuditHash(hash, c, LastHash(base))));
  }

  // The smallest case: an outdated entry and a broken one; the append prunes the first, and the log verifies.
  lemma PruningRepairs(hash: string -> string)
    requires Digest(hash)
    ensures var c := createdAt => Content(createdAt, "a", "user", "b", "r", Null, Null, "q", "s");
      var log := [Row(1, c("1"), None, "x"), Row(2, c("3"), None, "")];
      && !ChainOk(hash, log)
      && ChainOk(hash, Appended(hash, log, 3, c("4"), "2"))
      && Appended(hash, log, 3, c("4"), "2")[0].content == c("3")
  {
    hide AuditHash;
    var c := createdAt => Content(createdAt, "a", "user", "b", "r", Null, Null, "q", "s");
    var log := [Row(1, c("1"), None, "x"), Row(2, c("3"), None, "")];
    assert !LinkOk(hash, log, 1);
    assert log[..1] == [log[0]] && log[..1][..0] == [];
    assert Before("1", "2") && !Before("3", "2");
    assert Pruned(log[..1][..0], "2") == [];
    assert Pruned(log[..1], "2") == [];
    assert Pruned(log, "2") == [log[1]];
    AppendVerifiesExactly(hash, log, 3, c("4"), "2");
  }

  datatype Write = Write(id: nat, content: Content, cutoff: string)

  function AppendAll(hash: string -> string, log: seq<Row>, writes: seq<Write>): seq<Row>
    decreases |writes|
  {
    if writes == [] then log
    else AppendAll(hash, Appended(hash, log, writes[0].id, writes[0].content, writes[0].cutoff), writes[1..])
  }

  // Every run of appends from a verified log, pruning or not, leaves a verified log.
  lemma {:induction false} RunsVerify(hash: string -> string, log: seq<Row>, writes: seq<Write>)
    requires Digest(hash) && ChainOk(hash, log)
    ensures ChainOk(hash, AppendAll(hash, log, writes))
    decreases |writes|
  {
    if writes != [] {
      var w := writes[0];
      AppendVerifiesExactly(hash, log, w.id, w.content, w.cutoff);
      RunsVerify(hash, Appended(hash, log, w.id, w.content, w.cutoff), writes[1..]);
    }
  }

  // The last hash of a verified log determines the whole log: its length and every hashed content.
  lemma {:induction false} LastHashDeterminesLog(hash: string -> string, a: seq<Row>, b: seq<Row>)
    requires Digest(hash) && ValidLog(a) && ValidLog(b)
    requires ChainOk(hash, a) && ChainOk(hash, b) && LastHash(a) == LastHash(b)
    ensures |a| == |b| && forall i :: 0 <= i < |a| ==> SameContent(a[i].content, b[i].content)
  {
    hide AuditHash, SameContent, Digest, ValidContent;
    ChainedLastHash(hash, a);
    ChainedLastHash(hash, b);
    if a != [] && b != [] {
      var m, n := |a| - 1, |b| - 1;
      assert LinkOk(hash, a, m) && LinkOk(hash, b, n);
      HashDeterminesContent(hash, a[m].content, LinkFor(a, m), b[n].content, LinkFor(b, n));
      PrefixChains(hash, a, m);
      PrefixChains(hash, b, n);
      ChainedLastHash(hash, a[..m]);
      ChainedLastHash(hash, b[..n]);
      LastHashDeterminesLog(hash, a[..m], b[..n]);
      forall i | 0 <= i < |a| ensures SameContent(a[i].content, b[i].content) {
        if i < m { assert a[..m][i] == a[i] && b[..n][i] == b[i]; }
      }
    }
  }

  lemma PrefixChains(hash: string -> string, log: seq<Row>, n: nat)
    requires ChainOk(hash, log) && n <= |log|
    ensures ChainOk(hash, log[..n])
  {
    forall i | 0 <= i < n ensures LinkOk(hash, log[..n], i) {
      assert LinkOk(hash, log, i);
    }
  }
}
