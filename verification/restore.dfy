// Restoring a backup: all of the archive's files, or all of the files there were before.
module Restore {

  // The data directory: path relative to it, and content.
  type Directory = map<string, string>

  const ADMIN := "admin.json"
  const CONFIG := "config.json"
  const DATABASE := "operations.sqlite"

  predicate StartsWith(s: string, prefix: string) {
    |prefix| <= |s| && s[..|prefix|] == prefix
  }

  predicate InLogs(path: string) {
    StartsWith(path, "logs/")
  }

  // An archive entry that may be restored: one of three files, or a .jsonl file directly in logs.
  predicate PortableEntryName(name: string) {
    || name == ADMIN || name == CONFIG || name == DATABASE
    || (InLogs(name) && |name| > 11 && name[|name| - 6..] == ".jsonl" && '/' !in name[5..])
  }

  // What a restore replaces, and the database's side files, which it discards.
  predicate Covered(path: string) {
    path == ADMIN || path == CONFIG || path == DATABASE || InLogs(path)
  }

  const SIDE_FILES: set<string> := {"operations.sqlite-wal", "operations.sqlite-shm"}

  predicate Touched(path: string) {
    Covered(path) || path in SIDE_FILES
  }

  function Untouched(d: Directory): Directory {
    map p | p in d && !Touched(p) :: d[p]
  }

  // The copy made before anything changes.
  function Snapshot(d: Directory): Directory {
    map p | p in d && Covered(p) :: d[p]
  }

  // The directory a completed restore leaves: the archive's files and nothing else where it reaches.
  function Applied(d: Directory, files: Directory): Directory {
    Untouched(d) + files
  }

  function RolledBack(d: Directory, snapshot: Directory): Directory {
    Untouched(d) + snapshot
  }

  lemma EntriesAreCovered(name: string)
    requires PortableEntryName(name)
    ensures Covered(name) && name !in SIDE_FILES
  {
    LogsPath(name);
    assert "operations.sqlite-wal"[0] == 'o' && "operations.sqlite-shm"[0] == 'o';
    assert |DATABASE| == 17 && |"operations.sqlite-wal"| == 21 && |"operations.sqlite-shm"| == 21;
  }

  lemma LogsPath(path: string)
    ensures InLogs(path) ==> path != "" && path[0] == 'l'
  {
    if InLogs(path) { assert path[..5][0] == "logs/"[0]; }
  }

  lemma SideFilesAreNotCovered(path: string)
    requires path in SIDE_FILES
    ensures !Covered(path)
  {
    LogsPath(path);
    assert path[0] == 'o';
    assert |path| == 21 && |DATABASE| == 17 && |ADMIN| == 10 && |CONFIG| == 11;
  }

  // However far applying got, putting the snapshot back yields the original directory less the side files.
  lemma RollbackRestoresAll(original: Directory, damaged: Directory)
    requires Untouched(damaged) == Untouched(original)
    ensures RolledBack(damaged, Snapshot(original)) == original - SIDE_FILES
  {
    var r := RolledBack(damaged, Snapshot(original));
    forall p ensures p in r <==> p in original && p !in SIDE_FILES
      ensures p in r ==> r[p] == original[p]
    {
      assert p in Untouched(original) <==> p in original && !Touched(p);
      if p in SIDE_FILES { SideFilesAreNotCovered(p); }
    }
  }

  // Restoring the archive of a snapshot is the identity where a restore reaches.
  lemma RestoringOwnSnapshot(d: Directory)
    ensures Applied(d, Snapshot(d)) == d - SIDE_FILES
  {
    RollbackRestoresAll(d, d);
  }

  datatype Outcome =
    | Rejected           // a required file is missing or an entry may not be restored
    | DryRun
    | NotStarted         // staging, snapshot or entering maintenance failed, or the store would not close
    | Restored
    | Reverted           // a step failed and the snapshot is back
    | RollbackFailed     // a step failed, and so did putting the snapshot back

  // Which steps fail, and which paths a failing removal had already removed.
  datatype Faults = Faults(fails: nat -> bool, removed: nat -> set<string>)

  // Some step from `from` up to but not including `to` fails.
  predicate FailsWithin(faults: Faults, from: nat, to: nat) {
    from < to && (faults.fails(to - 1) || FailsWithin(faults, from, to - 1))
  }

  lemma FailsNext(faults: Faults, from: nat, to: nat)
    requires from <= to
    ensures !FailsWithin(faults, from, from)
    ensures FailsWithin(faults, from, to + 1) <==> FailsWithin(faults, from, to) || faults.fails(to)
  {
  }

  lemma {:induction false} FailsJoin(faults: Faults, from: nat, middle: nat, to: nat)
    requires from <= middle <= to
    ensures FailsWithin(faults, from, to) <==> FailsWithin(faults, from, middle) || FailsWithin(faults, middle, to)
  {
    if middle < to { FailsJoin(faults, from, middle, to - 1); }
  }

  lemma {:induction false} FailsAt(faults: Faults, from: nat, to: nat) returns (k: nat)
    requires FailsWithin(faults, from, to)
    ensures from <= k < to && faults.fails(k)
  {
    k := to - 1;
    if !faults.fails(k) { k := FailsAt(faults, from, to - 1); }
  }

  lemma OnlyOneFails(faults: Faults, from: nat, middle: nat, to: nat)
    requires AtMostOneFails(faults) && FailsWithin(faults, from, middle)
    ensures !FailsWithin(faults, middle, to)
  {
    if FailsWithin(faults, middle, to) {
      var j := FailsAt(faults, from, middle);
      var k := FailsAt(faults, middle, to);
      assert false;
    }
  }

  ghost predicate AtMostOneFails(faults: Faults) {
    forall j, k :: faults.fails(j) && faults.fails(k) ==> j == k
  }

  class BackupManager {
    var dir: Directory
    var enters: nat
    var exits: nat
    var step: nat

    constructor (dir: Directory)
      ensures this.dir == dir && enters == 0 && exits == 0
    {
      this.dir, enters, exits, step := dir, 0, 0, 0;
    }

    method Fails(faults: Faults) returns (failed: bool)
      modifies this`step
      ensures step == old(step) + 1 && failed == faults.fails(old(step))
    {
      failed := faults.fails(step);
      step := step + 1;
    }

    // A forced, possibly recursive removal; a failure may leave some of the paths.
    method Remove(paths: set<string>, faults: Faults) returns (ok: bool)
      requires forall p :: p in paths ==> Touched(p)
      modifies this`dir, this`step
      ensures Untouched(dir) == Untouched(old(dir))
      ensures ok ==> dir == old(dir) - paths
      ensures step == old(step) + 1 && (ok <==> !FailsWithin(faults, old(step), step))
    {
      FailsNext(faults, step, step);
      var gone := paths * faults.removed(step);
      var failed := Fails(faults);
      dir := if failed then dir - gone else dir - paths;
      ok := !failed;
    }

    method ApplyStaging(files: Directory, faults: Faults) returns (ok: bool)
      requires forall name :: name in files ==> PortableEntryName(name)
      requires CONFIG in files && DATABASE in files
      modifies this`dir, this`step
      ensures Untouched(dir) == Untouched(old(dir))
      ensures ok ==> dir == Applied(old(dir), files)
      ensures step >= old(step) && (ok <==> !FailsWithin(faults, old(step), step))
    {
      hide FailsWithin;
      var logs := set p | p in dir && InLogs(p);
      ok := Remove(logs, faults);
      if !ok { return; }
      if ADMIN !in files {
        ghost var at := step;
        ok := Remove({ADMIN}, faults);
        FailsJoin(faults, old(step), at, step);
        if !ok { return; }
      }
      hide PortableEntryName, Untouched, InLogs;
      var names := files.Keys;
      while names != {}
        invariant names <= files.Keys
        invariant Untouched(dir) == Untouched(old(dir))
        invariant forall p :: p in files && p !in names ==> p in dir && dir[p] == files[p]
        invariant forall p :: p in dir && Covered(p) && p !in files ==> p in names + {CONFIG, DATABASE}
        invariant step >= old(step) && !FailsWithin(faults, old(step), step)
      {
        var name :| name in names;
        EntriesAreCovered(name);
        FailsNext(faults, old(step), step);
        var failed := Fails(faults);
        if failed { return false; }
        WrittenIsUntouched(dir, name, files[name]);
        dir := dir[name := files[name]];
        names := names - {name};
      }
      var afterFiles := dir;
      ghost var at := step;
      ok := Remove(SIDE_FILES, faults);
      FailsJoin(faults, old(step), at, step);
      if ok { AppliedExactly(old(dir), files, afterFiles); }
    }

    // Everything a restore may have changed is removed, then the snapshot copied file by file.
    method RestoreRollback(snapshot: Directory, faults: Faults) returns (ok: bool)
      requires forall p :: p in snapshot ==> Covered(p)
      modifies this`dir, this`step
      ensures Untouched(dir) == Untouched(old(dir))
      ensures ok ==> dir == RolledBack(old(dir), snapshot)
      ensures step >= old(step) && (ok <==> !FailsWithin(faults, old(step), step))
    {
      hide FailsWithin;
      var paths := set p | p in dir && Touched(p);
      ok := Remove(paths, faults);
      if !ok { return; }
      assert dir == Untouched(old(dir));
      hide Untouched, Covered, Touched;
      var names := snapshot.Keys;
      while names != {}
        invariant names <= snapshot.Keys
        invariant dir == Untouched(old(dir)) + (snapshot - names)
        invariant Untouched(dir) == Untouched(old(dir))
        invariant step >= old(step) && !FailsWithin(faults, old(step), step)
      {
        var name :| name in names;
        FailsNext(faults, old(step), step);
        var failed := Fails(faults);
        if failed { return false; }
        WrittenIsUntouched(dir, name, snapshot[name]);
        CopiedOneMore(Untouched(old(dir)), snapshot, names, name);
        dir := dir[name := snapshot[name]];
        names := names - {name};
      }
      assert snapshot - {} == snapshot;
    }

    // The body of restore() once the archive has been read.
    method RestoreFiles(files: Directory, dryRun: bool, faults: Faults) returns (outcome: Outcome)
      modifies this
      ensures outcome == Rejected <==>
        !(CONFIG in files && DATABASE in files && forall name :: name in files ==> PortableEntryName(name))
      ensures outcome == DryRun <==> outcome != Rejected && dryRun
      ensures outcome == Restored ==> dir == Applied(old(dir), files)
      ensures outcome == Reverted ==> dir == old(dir) - SIDE_FILES
      ensures outcome.Rejected? || outcome.DryRun? || outcome.NotStarted? ==> dir == old(dir)
      ensures Untouched(dir) == Untouched(old(dir))
      ensures enters <= old(enters) + 1 && exits - old(exits) == enters - old(enters)
      ensures outcome.Restored? || outcome.Reverted? || outcome.RollbackFailed? ==> enters == old(enters) + 1
      ensures !outcome.Rejected? && !outcome.DryRun? ==> (outcome == Restored <==> !FailsWithin(faults, old(step), step))
      ensures AtMostOneFails(faults) ==> outcome != RollbackFailed
    {
      hide *;
      if CONFIG !in files || DATABASE !in files { return Rejected; }
      if exists name :: name in files && !PortableEntryName(name) { return Rejected; }
      if dryRun { return DryRun; }
      FailsNext(faults, step, step);
      FailsNext(faults, step, step + 1);
      FailsNext(faults, step, step + 2);
      var staged := Fails(faults);
      if staged { return NotStarted; }
      var snapshot := Snapshot(dir);
      var copied := Fails(faults);
      if copied { return NotStarted; }
      var entering := Fails(faults);
      if entering { return NotStarted; }
      enters := enters + 1;
      ghost var at := step;
      outcome := Replace(files, snapshot, faults);
      FailsJoin(faults, old(step), at, step);
      exits := exits + 1;
    }

    // Between entering and leaving maintenance.
    method Replace(files: Directory, snapshot: Directory, faults: Faults) returns (outcome: Outcome)
      requires CONFIG in files && DATABASE in files && forall name :: name in files ==> PortableEntryName(name)
      requires snapshot == Snapshot(dir)
      modifies this`dir, this`step
      ensures !outcome.Rejected? && !outcome.DryRun?
      ensures outcome == Restored ==> dir == Applied(old(dir), files)
      ensures outcome == Reverted ==> dir == old(dir) - SIDE_FILES
      ensures outcome == NotStarted ==> dir == old(dir)
      ensures Untouched(dir) == Untouched(old(dir))
      ensures step >= old(step) && (outcome == Restored <==> !FailsWithin(faults, old(step), step))
      ensures AtMostOneFails(faults) ==> outcome != RollbackFailed
    {
      SnapshotIsCovered(dir);
      hide PortableEntryName, FailsWithin, AtMostOneFails, Untouched, Applied, Snapshot, RolledBack, Covered;
      FailsNext(faults, step, step);
      var closing := Fails(faults);
      if closing { return NotStarted; }
      ghost var at := step;
      var applied := ApplyStaging(files, faults);
      FailsJoin(faults, old(step), at, step);
      FailsNext(faults, old(step), step);
      FailsNext(faults, old(step), step + 1);
      if applied {
        var opening := Fails(faults);
        if !opening {
          var reloading := Fails(faults);
          if !reloading { return Restored; }
        }
      }
      var damaged := dir;
      ghost var failedBy := step;
      assert FailsWithin(faults, old(step), failedBy);
      UntouchedOfApplied(old(dir), files);
      FailsNext(faults, failedBy, failedBy);
      var closingAgain := Fails(faults);
      ghost var closedAt := step;
      FailsJoin(faults, old(step), failedBy, step);
      if AtMostOneFails(faults) { OnlyOneFails(faults, old(step), failedBy, step); }
      if closingAgain { return RollbackFailed; }
      var back := RestoreRollback(snapshot, faults);
      FailsJoin(faults, old(step), failedBy, step);
      FailsJoin(faults, failedBy, closedAt, step);
      if AtMostOneFails(faults) { OnlyOneFails(faults, old(step), failedBy, step); }
      if !back { return RollbackFailed; }
      RollbackRestoresAll(old(dir), damaged);
      // Opening and reloading again may fail too; the files stay as they are.
      return Reverted;
    }
  }

  lemma UntouchedOfApplied(d: Directory, files: Directory)
    requires forall name :: name in files ==> PortableEntryName(name)
    ensures Untouched(Applied(d, files)) == Untouched(d)
  {
    forall name | name in files ensures Covered(name) { EntriesAreCovered(name); }
  }

  lemma SnapshotIsCovered(d: Directory)
    ensures forall p :: p in Snapshot(d) ==> Covered(p)
  {
  }

  lemma CopiedOneMore(base: Directory, snapshot: Directory, names: set<string>, name: string)
    requires name in names && name in snapshot
    ensures (base + (snapshot - names))[name := snapshot[name]] == base + (snapshot - (names - {name}))
  {
  }

  lemma WrittenIsUntouched(d: Directory, name: string, content: string)
    requires Touched(name)
    ensures Untouched(d[name := content]) == Untouched(d)
  {
  }

  lemma AppliedExactly(original: Directory, files: Directory, written: Directory)
    requires forall name :: name in files ==> PortableEntryName(name)
    requires CONFIG in files && DATABASE in files
    requires Untouched(written) == Untouched(original)
    requires forall p :: p in files ==> p in written && written[p] == files[p]
    requires forall p :: p in written && Covered(p) ==> p in files
    ensures written - SIDE_FILES == Applied(original, files)
  {
    var r := Applied(original, files);
    forall p ensures p in written - SIDE_FILES <==> p in r
      ensures p in r ==> p in written && r[p] == written[p]
    {
      assert p in Untouched(original) <==> p in Untouched(written);
      if p in files { EntriesAreCovered(p); }
    }
  }
}
