// Idempotent requests: the fingerprint, the reservation table, and every interleaving of concurrent calls.
module Idempotency {
  import opened Wrappers
  import opened CanonicalJson
  import Text

  // ---- The request fingerprint ----

  ghost predicate Injective(hash: string -> string) {
    forall s, t :: hash(s) == hash(t) ==> s == t
  }

  function OrNull(body: Option<Json>): Json {
    if body.None? then Null else body.value
  }

  function RequestFingerprint(hash: string -> string, verb: string, path: string, body: Option<Json>): string {
    hash(Canonical(Obj([Prop("body", OrNull(body)), Prop("method", Str(Text.Upper(verb))), Prop("path", Str(path))])))
  }

  lemma RequestMeaning(body: Json, verb: string, path: string)
    ensures MeaningOf(Obj([Prop("body", body), Prop("method", Str(verb)), Prop("path", Str(path))]))
      == MObj(map["body" := MeaningOf(body), "method" := MStr(verb), "path" := MStr(path)])
  {
    var props := [Prop("body", body), Prop("method", Str(verb)), Prop("path", Str(path))];
    assert props[..1] == [Prop("body", body)] && props[..2][..1] == props[..1];
    assert FieldsOf([]) == map[];
    assert FieldsOf(props[..1]) == map["body" := MeaningOf(body)];
    assert FieldsOf(props[..2]) == FieldsOf(props[..1])["method" := MStr(verb)];
    assert FieldsOf(props) == FieldsOf(props[..2])["path" := MStr(path)];
  }

  // Two requests share a fingerprint exactly when method, path and body agree.
  lemma FingerprintIdentifiesRequest(hash: string -> string, v1: string, p1: string, b1: Option<Json>,
                                     v2: string, p2: string, b2: Option<Json>)
    requires Injective(hash) && Valid(OrNull(b1)) && Valid(OrNull(b2))
    ensures RequestFingerprint(hash, v1, p1, b1) == RequestFingerprint(hash, v2, p2, b2)
      <==> Text.Upper(v1) == Text.Upper(v2) && p1 == p2 && MeaningOf(OrNull(b1)) == MeaningOf(OrNull(b2))
  {
    var r1 := Obj([Prop("body", OrNull(b1)), Prop("method", Str(Text.Upper(v1))), Prop("path", Str(p1))]);
    var r2 := Obj([Prop("body", OrNull(b2)), Prop("method", Str(Text.Upper(v2))), Prop("path", Str(p2))]);
    assert Valid(r1) && Valid(r2);
    CanonicalIsUnambiguous(r1, r2);
    RequestMeaning(OrNull(b1), Text.Upper(v1), p1);
    RequestMeaning(OrNull(b2), Text.Upper(v2), p2);
    var m1, m2 := MeaningOf(r1).fields, MeaningOf(r2).fields;
    assert m1 == m2 <==> m1["body"] == m2["body"] && m1["method"] == m2["method"] && m1["path"] == m2["path"];
  }

  // ---- The reservation table ----

  datatype Slot = Slot(actor: string, key: string)

  datatype Progress = Pending | Completed(status: int, response: string)

  datatype Row = Row(fingerprint: string, progress: Progress, expiresAt: int)

  type Table = map<Slot, Row>

  datatype Reservation = Started | Replay(status: int, response: string) | Busy | Conflict

  const DAY := 24 * 60 * 60 * 1000

  function Unexpired(rows: Table, now: int): Table {
    map slot | slot in rows && rows[slot].expiresAt > now :: rows[slot]
  }

  // One transaction: a conflict throws, which rolls the expiry back as well.
  function Reserved(rows: Table, slot: Slot, fingerprint: string, now: int): (Table, Reservation) {
    var live := Unexpired(rows, now);
    if slot !in live then (live[slot := Row(fingerprint, Pending, now + DAY)], Started)
    else if live[slot].fingerprint != fingerprint then (rows, Conflict)
    else match live[slot].progress
      case Completed(status, response) => (live, Replay(status, response))
      case Pending => (live, Busy)
  }

  // The slot's own row, unless it has expired.
  function Live(rows: Table, slot: Slot, now: int): Option<Row> {
    if slot in rows && rows[slot].expiresAt > now then Some(rows[slot]) else None
  }

  // What one call answers, in terms of the slot's own row.
  predicate AnswersFor(row: Option<Row>, fingerprint: string, r: Reservation) {
    match r
    case Started => row.None?
    case Conflict => row.Some? && row.value.fingerprint != fingerprint
    case Busy => row.Some? && row.value.fingerprint == fingerprint && row.value.progress.Pending?
    case Replay(status, response) =>
      row.Some? && row.value.fingerprint == fingerprint && row.value.progress == Completed(status, response)
  }

  // What it leaves: a conflict nothing new; a start a new pending row for a day; otherwise the slot's row as it was.
  // Other slots keep exactly their unexpired rows, except that a conflict keeps all.
  ghost predicate Leaves(before: Table, after: Table, slot: Slot, fingerprint: string, now: int, r: Reservation) {
    if r.Conflict? then after == before
    else
      && slot in after
      && (if r.Started? then after[slot] == Row(fingerprint, Pending, now + 86_400_000)
          else slot in before && after[slot] == before[slot])
      && forall other :: other != slot ==> Live(before, other, now) == if other in after then Some(after[other]) else None
  }

  // A reservation is decided by the slot's unexpired row alone.
  lemma ReservedExactly(rows: Table, slot: Slot, fingerprint: string, now: int)
    ensures var (after, r) := Reserved(rows, slot, fingerprint, now);
      && Leaves(rows, after, slot, fingerprint, now, r)
      && forall x :: x == r <==> AnswersFor(Live(rows, slot, now), fingerprint, x)
  {
  }

  function IsPending(rows: Table, slot: Slot): bool {
    slot in rows && rows[slot].progress.Pending?
  }

  // Both updates touch a pending row only.
  function CompletedRows(rows: Table, slot: Slot, status: int, response: string): Table {
    if IsPending(rows, slot) then rows[slot := rows[slot].(progress := Completed(status, response))] else rows
  }

  function AbandonedRows(rows: Table, slot: Slot): Table {
    if IsPending(rows, slot) then rows - {slot} else rows
  }

  class IdempotencyTable {
    var rows: Table

    method Reserve(slot: Slot, fingerprint: string, now: int) returns (r: Reservation)
      modifies this
      ensures (rows, r) == Reserved(old(rows), slot, fingerprint, now)
      ensures AnswersFor(Live(old(rows), slot, now), fingerprint, r)
      ensures Leaves(old(rows), rows, slot, fingerprint, now, r)
    {
      ReservedExactly(rows, slot, fingerprint, now);
      var before := rows;
      rows := map s | s in rows && rows[s].expiresAt > now :: rows[s];
      if slot in rows {
        if rows[slot].fingerprint != fingerprint {
          rows := before;
          return Conflict;
        }
        if rows[slot].progress.Completed? {
          return Replay(rows[slot].progress.status, rows[slot].progress.response);
        }
        return Busy;
      }
      rows := rows[slot := Row(fingerprint, Pending, now + DAY)];
      return Started;
    }

    method Complete(slot: Slot, status: int, response: string) returns (ok: bool)
      modifies this
      ensures ok == IsPending(old(rows), slot)
      ensures rows == CompletedRows(old(rows), slot, status, response)
    {
      ok := slot in rows && rows[slot].progress.Pending?;
      if ok { rows := rows[slot := rows[slot].(progress := Completed(status, response))]; }
    }

    method Abandon(slot: Slot) returns (removed: bool)
      modifies this
      ensures removed == IsPending(old(rows), slot)
      ensures rows == AbandonedRows(old(rows), slot)
    {
      removed := slot in rows && rows[slot].progress.Pending?;
      if removed { rows := rows - {slot}; }
    }
  }

  // ---- Concurrent execute() calls as interleaved steps ----

  // A call is in flight between its reservation and the end of its operation.
  datatype Call = Call(slot: Slot, fingerprint: string)

  datatype Event =
    | DidStart(id: nat, slot: Slot, fingerprint: string)
    | DidReplay(id: nat, slot: Slot, fingerprint: string, status: int, response: string)
    | WasBusy(id: nat, slot: Slot, fingerprint: string)
    | DidConflict(id: nat, slot: Slot, fingerprint: string)
    | DidComplete(id: nat, slot: Slot, fingerprint: string, status: int, response: string)
    | DidAbandon(id: nat, slot: Slot, fingerprint: string)
    | LostRow(id: nat, slot: Slot, fingerprint: string)

  datatype System = System(rows: Table, inFlight: map<nat, Call>, log: seq<Event>)

  datatype Step =
    | Begin(id: nat, slot: Slot, fingerprint: string, now: int)
    | Return(id: nat, status: int, response: string)
    | Throw(id: nat)

  predicate Enabled(s: System, step: Step) {
    match step
    case Begin(id, _, _, _) => id !in s.inFlight
    case Return(id, _, _) => id in s.inFlight
    case Throw(id) => id in s.inFlight
  }

  function Abandoned(s: System, id: nat, lost: bool): System
    requires id in s.inFlight
  {
    var call := s.inFlight[id];
    var event := if lost then LostRow(id, call.slot, call.fingerprint) else DidAbandon(id, call.slot, call.fingerprint);
    System(AbandonedRows(s.rows, call.slot), s.inFlight - {id}, s.log + [event])
  }

  function Apply(s: System, step: Step): System
    requires Enabled(s, step)
  {
    match step
    case Begin(id, slot, fp, now) => (
      var (rows, outcome) := Reserved(s.rows, slot, fp, now);
      match outcome
      case Started => System(rows, s.inFlight[id := Call(slot, fp)], s.log + [DidStart(id, slot, fp)])
      case Replay(status, response) => System(rows, s.inFlight, s.log + [DidReplay(id, slot, fp, status, response)])
      case Busy => System(rows, s.inFlight, s.log + [WasBusy(id, slot, fp)])
      case Conflict => System(rows, s.inFlight, s.log + [DidConflict(id, slot, fp)]))
    case Return(id, status, response) => (
      var call := s.inFlight[id];
      if !(100 <= status <= 599) then Abandoned(s, id, false)
      else if !IsPending(s.rows, call.slot) then Abandoned(s, id, true)
      else
        System(CompletedRows(s.rows, call.slot, status, response), s.inFlight - {id},
               s.log + [DidComplete(id, call.slot, call.fingerprint, status, response)]))
    case Throw(id) => Abandoned(s, id, false)
  }

  predicate RunEvent(e: Event, slot: Slot) {
    e.slot == slot && (e.DidStart? || e.DidComplete? || e.DidAbandon? || e.LostRow?)
  }

  // The latest start or end of an operation on a slot.
  function LastRun(log: seq<Event>, slot: Slot): (r: Option<Event>)
    ensures r.Some? ==> r.value.slot == slot
  {
    if log == [] then None
    else
      var e := log[|log| - 1];
      if RunEvent(e, slot) then Some(e)
      else LastRun(log[..|log| - 1], slot)
  }

  // An in-flight call owns the pending row of its slot.
  ghost predicate CallOk(s: System, id: nat)
    requires id in s.inFlight
  {
    var call := s.inFlight[id];
    && IsPending(s.rows, call.slot) && s.rows[call.slot].fingerprint == call.fingerprint
    && LastRun(s.log, call.slot) == Some(DidStart(id, call.slot, call.fingerprint))
  }

  // A pending row has its call in flight; a completed row holds what the last operation on its slot returned.
  ghost predicate SlotOk(s: System, slot: Slot) {
    var last := LastRun(s.log, slot);
    if slot !in s.rows then last.None? || !last.value.DidStart?
    else
      var row := s.rows[slot];
      && last.Some? && last.value.fingerprint == row.fingerprint
      && match row.progress
         case Pending => last.value.DidStart? && last.value.id in s.inFlight
                         && s.inFlight[last.value.id] == Call(slot, row.fingerprint)
         case Completed(status, response) => (
           last.value.DidComplete? && last.value.status == status && last.value.response == response)
  }

  ghost predicate Consistent(s: System) {
    (forall id :: id in s.inFlight ==> CallOk(s, id)) && forall slot :: SlotOk(s, slot)
  }

  // What an event may follow: the protocol's promises about one entry of the log.
  predicate Follows(e: Event, last: Option<Event>) {
    match e
    case DidStart(_, _, _) => last.None? || !last.value.DidStart?
    case DidReplay(_, _, fp, status, response) =>
      last.Some? && last.value.DidComplete? && last.value.fingerprint == fp
      && last.value.status == status && last.value.response == response
    case WasBusy(_, _, fp) => last.Some? && last.value.DidStart? && last.value.fingerprint == fp
    case DidConflict(_, _, fp) =>
      last.Some? && (last.value.DidStart? || last.value.DidComplete?) && last.value.fingerprint != fp
    case DidComplete(id, slot, fp, _, _) => last == Some(DidStart(id, slot, fp))
    case DidAbandon(id, slot, fp) => last == Some(DidStart(id, slot, fp))
    case LostRow(_, _, _) => false
  }

  ghost predicate Orderly(log: seq<Event>) {
    forall i :: 0 <= i < |log| ==> Follows(log[i], LastRun(log[..i], log[i].slot))
  }

  // No operation has outlived its reservation when the next call sweeps expired rows.
  ghost predicate Timely(s: System, step: Step) {
    step.Begin? ==> forall slot :: slot in s.rows && s.rows[slot].progress.Pending? ==> s.rows[slot].expiresAt > step.now
  }

  lemma LastRunAppend(log: seq<Event>, e: Event, slot: Slot)
    ensures LastRun(log + [e], slot) ==
      if RunEvent(e, slot) then Some(e) else LastRun(log, slot)
  {
    assert (log + [e])[..|log|] == log;
  }

  lemma OrderlyAppend(log: seq<Event>, e: Event)
    requires Orderly(log) && Follows(e, LastRun(log, e.slot))
    ensures Orderly(log + [e])
  {
    forall i | 0 <= i < |log| + 1 ensures Follows((log + [e])[i], LastRun((log + [e])[..i], (log + [e])[i].slot)) {
      if i < |log| { assert (log + [e])[..i] == log[..i]; } else { assert (log + [e])[..i] == log; }
    }
  }

  lemma BeginKeepsConsistent(s: System, step: Step)
    requires Consistent(s) && Orderly(s.log) && Enabled(s, step) && step.Begin?
    requires Timely(s, step) || Reserved(s.rows, step.slot, step.fingerprint, step.now).1.Conflict?
    ensures Consistent(Apply(s, step)) && Orderly(Apply(s, step).log)
  {
    hide Orderly, LastRun;
    var t := Apply(s, step);
    var e := t.log[|s.log|];
    assert t.log == s.log + [e];
    assert SlotOk(s, step.slot);
    OrderlyAppend(s.log, e);
    forall slot ensures SlotOk(t, slot) {
      assert SlotOk(s, slot);
      LastRunAppend(s.log, e, slot);
    }
    forall id | id in t.inFlight ensures CallOk(t, id) {
      LastRunAppend(s.log, e, t.inFlight[id].slot);
      if id in s.inFlight { assert CallOk(s, id) && SlotOk(s, s.inFlight[id].slot); }
    }
  }

  lemma EndKeepsConsistent(s: System, step: Step)
    requires Consistent(s) && Orderly(s.log) && Enabled(s, step) && !step.Begin?
    ensures Consistent(Apply(s, step)) && Orderly(Apply(s, step).log)
  {
    hide Orderly, LastRun;
    var t := Apply(s, step);
    var e := t.log[|s.log|];
    assert t.log == s.log + [e];
    assert CallOk(s, step.id);
    OrderlyAppend(s.log, e);
    forall slot ensures SlotOk(t, slot) {
      assert SlotOk(s, slot);
      LastRunAppend(s.log, e, slot);
    }
    forall id | id in t.inFlight ensures CallOk(t, id) {
      assert CallOk(s, id);
      LastRunAppend(s.log, e, t.inFlight[id].slot);
    }
  }

  // A sweep that meets an unfinished operation past its day breaks the protocol, and nothing else does.
  lemma BeginKeepsConsistentExactlyWhenTimely(s: System, step: Step)
    requires Consistent(s) && Orderly(s.log) && Enabled(s, step) && step.Begin?
    ensures Consistent(Apply(s, step)) <==>
      Timely(s, step) || Reserved(s.rows, step.slot, step.fingerprint, step.now).1.Conflict?
  {
    if Timely(s, step) || Reserved(s.rows, step.slot, step.fingerprint, step.now).1.Conflict? {
      BeginKeepsConsistent(s, step);
    } else {
      var slot :| slot in s.rows && s.rows[slot].progress.Pending? && s.rows[slot].expiresAt <= step.now;
      assert SlotOk(s, slot);
      var id := LastRun(s.log, slot).value.id;
      var t := Apply(s, step);
      assert t.inFlight[id].slot == slot;
      LastRunAppend(s.log, t.log[|s.log|], slot);
      assert !CallOk(t, id);
    }
  }

  // Two calls in flight for one slot.
  ghost predicate TwoInFlight(s: System) {
    exists i, j :: i in s.inFlight && j in s.inFlight && i != j && s.inFlight[i].slot == s.inFlight[j].slot
  }

  lemma OneInFlight(s: System)
    requires Consistent(s)
    ensures !TwoInFlight(s)
  {
    forall i, j | i in s.inFlight && j in s.inFlight && s.inFlight[i].slot == s.inFlight[j].slot ensures i == j {
      assert CallOk(s, i) && CallOk(s, j);
    }
  }

  // A second operation starts for a slot that has one in flight exactly when the slot's own row is pending and
  // past its day.
  lemma SecondRunExactly(s: System, step: Step)
    requires Consistent(s) && Enabled(s, step) && step.Begin?
    ensures TwoInFlight(Apply(s, step)) <==>
      step.slot in s.rows && s.rows[step.slot].progress.Pending? && s.rows[step.slot].expiresAt <= step.now
  {
    OneInFlight(s);
    var t := Apply(s, step);
    assert SlotOk(s, step.slot);
    if TwoInFlight(t) {
      var i, j :| i in t.inFlight && j in t.inFlight && i != j && t.inFlight[i].slot == t.inFlight[j].slot;
      var other := if i == step.id then j else i;
      assert other in s.inFlight && CallOk(s, other);
    }
    if IsPending(s.rows, step.slot) && s.rows[step.slot].expiresAt <= step.now {
      var running := LastRun(s.log, step.slot).value.id;
      assert running in s.inFlight && t.inFlight[running].slot == t.inFlight[step.id].slot;
    }
  }

  ghost predicate ValidRun(s: System, steps: seq<Step>)
    decreases |steps|
  {
    steps == [] || (Enabled(s, steps[0]) && Timely(s, steps[0]) && ValidRun(Apply(s, steps[0]), steps[1..]))
  }

  ghost function RunAll(s: System, steps: seq<Step>): System
    requires ValidRun(s, steps)
    decreases |steps|
  {
    if steps == [] then s else RunAll(Apply(s, steps[0]), steps[1..])
  }

  // Main result: in every interleaving, no operation runs beside another on its slot, every completion
  // finds its own pending row, and every replay is the last completion's status and response.
  lemma {:induction false} EveryInterleavingIsOrderly(s: System, steps: seq<Step>)
    requires Consistent(s) && Orderly(s.log) && ValidRun(s, steps)
    ensures Consistent(RunAll(s, steps)) && Orderly(RunAll(s, steps).log)
    decreases |steps|
  {
    if steps != [] {
      if steps[0].Begin? { BeginKeepsConsistent(s, steps[0]); } else { EndKeepsConsistent(s, steps[0]); }
      EveryInterleavingIsOrderly(Apply(s, steps[0]), steps[1..]);
    }
  }

  // ---- A completion is replayed until its deadline ----

  predicate BeginsBefore(steps: seq<Step>, deadline: int) {
    forall i :: 0 <= i < |steps| && steps[i].Begin? ==> steps[i].now < deadline
  }

  // A later event on a completed slot: the same request replays, another one is a conflict.
  predicate ReplaysOrConflicts(e: Event, row: Row) {
    match e
    case DidReplay(_, _, fp, status, response) => fp == row.fingerprint && row.progress == Completed(status, response)
    case DidConflict(_, _, fp) => fp != row.fingerprint
    case _ => false
  }

  lemma CompletedStep(s: System, step: Step, slot: Slot)
    requires Consistent(s) && Enabled(s, step)
    requires slot in s.rows && s.rows[slot].progress.Completed? && (step.Begin? ==> step.now < s.rows[slot].expiresAt)
    ensures var t := Apply(s, step);
      && slot in t.rows && t.rows[slot] == s.rows[slot] && |t.log| == |s.log| + 1 && t.log[..|s.log|] == s.log
      && (t.log[|s.log|].slot == slot ==> ReplaysOrConflicts(t.log[|s.log|], s.rows[slot]))
  {
    hide Orderly, LastRun, Reserved;
    if step.Begin? {
      ReservedExactly(s.rows, step.slot, step.fingerprint, step.now);
      var (_, outcome) := Reserved(s.rows, step.slot, step.fingerprint, step.now);
      assert AnswersFor(Live(s.rows, step.slot, step.now), step.fingerprint, outcome);
      assert Live(s.rows, slot, step.now) == Some(s.rows[slot]);
    } else {
      assert CallOk(s, step.id);
    }
  }

  lemma {:induction false} CompletedStays(s: System, steps: seq<Step>, slot: Slot)
    requires Consistent(s) && Orderly(s.log) && ValidRun(s, steps)
    requires slot in s.rows && s.rows[slot].progress.Completed? && BeginsBefore(steps, s.rows[slot].expiresAt)
    ensures var t := RunAll(s, steps);
      && slot in t.rows && t.rows[slot] == s.rows[slot] && s.log <= t.log
      && forall k :: |s.log| <= k < |t.log| && t.log[k].slot == slot ==> ReplaysOrConflicts(t.log[k], s.rows[slot])
    decreases |steps|
  {
    hide Orderly, Consistent, Apply, Timely, ReplaysOrConflicts;
    if steps != [] {
      CompletedStep(s, steps[0], slot);
      StepKeepsOrder(s, steps[0]);
      CompletedStays(Apply(s, steps[0]), steps[1..], slot);
    }
  }

  lemma StepKeepsOrder(s: System, step: Step)
    requires Consistent(s) && Orderly(s.log) && Enabled(s, step) && Timely(s, step)
    ensures Consistent(Apply(s, step)) && Orderly(Apply(s, step).log)
  {
    hide Orderly, Consistent, Apply, Reserved;
    if step.Begin? { BeginKeepsConsistent(s, step); } else { EndKeepsConsistent(s, step); }
  }

  lemma BeginReplays(s: System, id: nat, slot: Slot, fp: string, now: int)
    requires id !in s.inFlight && slot in s.rows && s.rows[slot].expiresAt > now
    requires s.rows[slot].fingerprint == fp && s.rows[slot].progress.Completed?
    ensures var row := s.rows[slot]; var t := Apply(s, Begin(id, slot, fp, now));
      && t.log == s.log + [DidReplay(id, slot, fp, row.progress.status, row.progress.response)]
      && t.inFlight == s.inFlight && slot in t.rows && t.rows[slot] == row
  {
    ReservedExactly(s.rows, slot, fp, now);
  }

  // Main result on replays: when an operation completes, every later call for its slot before the row's deadline, in
  // any timely interleaving, replays that status and response if it is the same request and is a conflict if not; so
  // one reservation completes at most once.
  lemma CompletionIsReplayed(s: System, done: nat, status: int, response: string, steps: seq<Step>, id: nat, now: int)
    requires Consistent(s) && Orderly(s.log) && done in s.inFlight && 100 <= status <= 599
    requires s.inFlight[done].slot in s.rows
    requires var deadline := s.rows[s.inFlight[done].slot].expiresAt; now < deadline && BeginsBefore(steps, deadline)
    requires var t := Apply(s, Return(done, status, response)); ValidRun(t, steps) && id !in RunAll(t, steps).inFlight
    ensures var call := s.inFlight[done]; var row := Row(call.fingerprint, Completed(status, response), s.rows[call.slot].expiresAt);
      var t := Apply(s, Return(done, status, response)); var u := RunAll(t, steps);
      && t.log == s.log + [DidComplete(done, call.slot, call.fingerprint, status, response)]
      && t.log <= u.log
      && (forall k :: |t.log| <= k < |u.log| && u.log[k].slot == call.slot ==> ReplaysOrConflicts(u.log[k], row))
      && Apply(u, Begin(id, call.slot, call.fingerprint, now)).log ==
           u.log + [DidReplay(id, call.slot, call.fingerprint, status, response)]
  {
    hide Orderly, LastRun, ReplaysOrConflicts, Timely;
    assert CallOk(s, done);
    var call, t := s.inFlight[done], Apply(s, Return(done, status, response));
    EndKeepsConsistent(s, Return(done, status, response));
    CompletedStays(t, steps, call.slot);
    BeginReplays(RunAll(t, steps), id, call.slot, call.fingerprint, now);
  }

  lemma {:induction false} LastRunIndex(log: seq<Event>, slot: Slot, i: nat) returns (k: nat)
    requires i < |log| && RunEvent(log[i], slot)
    ensures i <= k < |log| && LastRun(log, slot) == Some(log[k]) && RunEvent(log[k], slot)
  {
    k := |log| - 1;
    if !RunEvent(log[k], slot) { k := LastRunIndex(log[..k], slot, i); }
  }

  predicate EndsRun(e: Event, started: Event) {
    (e.DidComplete? || e.DidAbandon?) && e.id == started.id && e.slot == started.slot
  }

  // Between two starts on one slot the first operation has ended: runs on a slot never overlap.
  lemma {:induction false} RunsNeverOverlap(log: seq<Event>, i: nat, j: nat)
    requires Orderly(log) && i < j < |log| && log[i].DidStart? && log[j].DidStart? && log[i].slot == log[j].slot
    ensures exists k :: i < k < j && EndsRun(log[k], log[i])
    decreases j
  {
    var slot := log[i].slot;
    var k := LastRunIndex(log[..j], slot, i);
    assert Follows(log[j], LastRun(log[..j], slot)) && Follows(log[k], LastRun(log[..k], slot));
    var m := LastRunIndex(log[..k], slot, i);
    if m > i {
      assert log[m] == DidStart(log[k].id, slot, log[k].fingerprint);
      RunsNeverOverlap(log, i, m);
    }
  }

  // An operation that outlives its reservation runs beside a second one for the same request, its result is
  // recorded on the other's row, and the other's own result is lost.
  lemma SlowOperationRunsTwice(slot: Slot, fp: string)
    ensures var s0 := System(map[], map[], []);
      var s1 := Apply(s0, Begin(1, slot, fp, 0));
      var s2 := Apply(s1, Begin(2, slot, fp, DAY));
      var s3 := Apply(s2, Return(1, 200, "a"));
      var s4 := Apply(s3, Return(2, 201, "b"));
      && Consistent(s0) && Consistent(s1)
      && s2.inFlight == map[1 := Call(slot, fp), 2 := Call(slot, fp)] && !Consistent(s2)
      && s4.log[3] == LostRow(2, slot, fp)
      && s4.rows[slot].progress == Completed(200, "a")
  {
    var s0 := System(map[], map[], []);
    BeginKeepsConsistent(s0, Begin(1, slot, fp, 0));
    var s1 := Apply(s0, Begin(1, slot, fp, 0));
    var s2 := Apply(s1, Begin(2, slot, fp, DAY));
    LastRunAppend(s1.log, s2.log[1], slot);
    assert !CallOk(s2, 1);
  }
}
