// The profile repair transaction: crates/core-profiles/src/repair.rs, with the
// snapshot restoration of crates/audit-journal/src/rollback.rs.

module RegistryKeys {
  import opened Faults

  /** One child key of ProfileList; `rest` stands for every other value and subkey. */
  datatype Key = Key(imagePath: Option<string>, state: Option<nat>, refCount: Option<nat>, rest: nat)

  /** What `RegCreateKeyExW` makes of a missing key. */
  const EMPTY_KEY: Key := Key(None, None, None, 0)

  type Keys = map<string, Key>

  datatype Snapshot = Snapshot(name: string, content: Key)

  datatype Plan = Plan(sid: string, canonical: string, fixBak: bool, resetState: bool, unlockHive: bool, dryRun: bool)

  function BakName(p: Plan): string { p.canonical + ".bak" }

  function BackupName(p: Plan, stamp: string): string { p.canonical + ".pre-repair-" + stamp }

  function Rename(keys: Keys, from: string, to: string): Keys
    requires from in keys
  {
    (keys - {from})[to := keys[from]]
  }

  predicate Blank(s: string) {
    forall i :: 0 <= i < |s| ==> s[i] in " \t\r\n"
  }

  predicate HasPath(k: Key) {
    k.imagePath.Some? && !Blank(k.imagePath.value)
  }

  lemma NamesDiffer(p: Plan, stamp: string)
    ensures p.canonical != BakName(p) && p.canonical != BackupName(p, stamp) && BakName(p) != BackupName(p, stamp)
  {
    assert |BakName(p)| > |p.canonical| && |BackupName(p, stamp)| > |p.canonical|;
    assert BakName(p)[|p.canonical| + 1] == 'b' && BackupName(p, stamp)[|p.canonical| + 1] == 'p';
  }

  /** The three names a repair may touch. */
  datatype Trio = Trio(canonical: string, bak: string, backup: string)

  ghost predicate NamesApart(t: Trio) {
    t.canonical != t.bak && t.canonical != t.backup && t.bak != t.backup
  }

  function NamesOf(p: Plan, stamp: string): Trio {
    Trio(p.canonical, BakName(p), BackupName(p, stamp))
  }

  /** The child keys once the renames recorded in the mutation have been made. */
  ghost function Renamed(k0: Keys, t: Trio, bakMoved: bool, backedUp: bool): Keys
    requires NamesApart(t) && (backedUp ==> t.canonical in k0) && (bakMoved ==> t.bak in k0)
  {
    var k1 := if backedUp then Rename(k0, t.canonical, t.backup) else k0;
    if bakMoved then Rename(k1, t.bak, t.canonical) else k1
  }

  /** Equal up to State and RefCount. */
  predicate SameProfile(a: Key, b: Key) {
    a.imagePath == b.imagePath && a.rest == b.rest
  }

  /** What a failed `execute_steps` can leave: the recorded renames, and possibly
      other State and RefCount values under the canonical name. */
  ghost predicate Mutated(k0: Keys, t: Trio, fixBak: bool, keys: Keys, bakMoved: bool, backedUp: bool) {
    NamesApart(t) && (backedUp ==> t.canonical in k0 && t.backup !in k0) &&
    (bakMoved ==> t.bak in k0 && (backedUp || t.canonical !in k0)) &&
    var r := Renamed(k0, t, bakMoved, backedUp);
    keys == r ||
    (t.canonical in r && t.canonical in keys && keys == r[t.canonical := keys[t.canonical]] &&
     SameProfile(keys[t.canonical], r[t.canonical]) && (fixBak ==> bakMoved))
  }

  /** The snapshots taken for a plan: every key a failed run may have changed. */
  ghost predicate Captures(snapshots: seq<Snapshot>, k0: Keys, t: Trio, fixBak: bool) {
    if fixBak then
      t.bak in k0 &&
      snapshots == [Snapshot(t.bak, k0[t.bak])] +
                   if t.canonical in k0 then [Snapshot(t.canonical, k0[t.canonical])] else []
    else
      t.canonical in k0 && snapshots == [Snapshot(t.canonical, k0[t.canonical])]
  }

  /** Nothing is lost or changed: the only surplus names are those two. */
  ghost predicate RestoredUpTo(k0: Keys, keys: Keys, surplus: set<string>) {
    (forall n :: n in k0 ==> n in keys && keys[n] == k0[n]) &&
    (forall n :: n in keys ==> n in k0 || n in surplus)
  }

  /** What renaming back can leave, however many of its steps fail. */
  ghost predicate RenamedBack(k0: Keys, t: Trio, keys: Keys, fixBak: bool, clean: bool) {
    (forall n :: n in k0 && n != t.canonical && (n == t.bak ==> !fixBak) ==> n in keys && keys[n] == k0[n]) &&
    (forall n :: n in keys && n !in k0 ==> fixBak && (n == t.canonical || n == t.backup)) &&
    (clean ==> keys.Keys == k0.Keys) &&
    (fixBak && t.canonical in k0 ==>
      (t.canonical in keys && keys[t.canonical] == k0[t.canonical]) ||
      (t.backup in keys && keys[t.backup] == k0[t.canonical]))
  }

  /** The original canonical key is somewhere, whatever failed. */
  ghost predicate CanonicalKept(k0: Keys, t: Trio, keys: Keys) {
    t.canonical in k0 ==>
      (t.canonical in keys && keys[t.canonical] == k0[t.canonical]) ||
      (t.backup in keys && keys[t.backup] == k0[t.canonical])
  }

  /** No key but those three is touched. */
  ghost predicate OthersKept(k0: Keys, t: Trio, keys: Keys) {
    forall n :: n != t.canonical && n != t.bak && n != t.backup ==>
      (n in keys <==> n in k0) && (n in k0 ==> keys[n] == k0[n])
  }

  /** The child keys after a complete repair. */
  ghost function Repaired(k0: Keys, t: Trio, fixBak: bool, resetState: bool): Keys
    requires NamesApart(t) && (fixBak ==> t.bak in k0) && (!fixBak ==> t.canonical in k0)
  {
    var k1 := if fixBak then Renamed(k0, t, true, t.canonical in k0) else k0;
    if resetState then k1[t.canonical := k1[t.canonical].(state := Some(0), refCount := Some(0))] else k1
  }
}

module Repair {
  import opened Faults
  import opened RegistryKeys

  datatype Error =
    | AutomaticUnlockUnsupported
    | NoActionSelected
    | Refused                 // SID, session, lock or path checks
    | MissingRegistryKey
    | RegistryError
    | SnapshotError
    | AuditError
    | TransactionFailed       // a step or its verification
    | RollbackFailed

  datatype Event = DryRun | Started | Success | Failed | RollbackSummary | RollbackFailure

  datatype Result<+T> = Ok(value: T) | Err(error: Error)

  class RepairTransaction {
    var keys: Keys
    var bakMoved: bool
    var canonicalBackup: Option<string>
    var audit: seq<Event>
    var clock: nat
    const schedule: Schedule
    /** Snapshots a rollback could not restore. */
    ghost var failedRestores: nat
    /** Failures of a rollback: renames, restores and the summary entry. */
    ghost var rollbackErrors: nat
    /** The error of the failed step. */
    ghost var stepError: Option<Error>

    constructor (keys: Keys, schedule: Schedule)
      ensures this.keys == keys && this.schedule == schedule && clock == 0
      ensures !bakMoved && canonicalBackup == None && audit == [] && stepError == None
    {
      audit, stepError := [], None;
      this.keys, this.schedule, clock, bakMoved, canonicalBackup := keys, schedule, 0, false, None;
    }

    ghost predicate QuietSince(from: nat)
      reads this
    {
      QuietBetween(schedule, from, clock)
    }

    /** One registry, storage or audit call; a failed one has no effect. */
    method Tick() returns (ok: bool)
      modifies this`clock
      ensures clock == old(clock) + 1 && (ok <==> schedule(old(clock)) == Succeeds)
    {
      ok := schedule(clock) == Succeeds;
      clock := clock + 1;
    }

    /** `AuditLogger::log`, one atomic append. */
    method Log(event: Event) returns (ok: bool)
      modifies this`audit, this`clock
      ensures clock == old(clock) + 1 && (ok <==> schedule(old(clock)) == Succeeds)
      ensures audit == if ok then old(audit) + [event] else old(audit)
      ensures Success in audit <==> Success in old(audit) || (ok && event == Success)
    {
      ok := Tick();
      if ok {
        audit := audit + [event];
      }
    }

    method SubkeyExists(name: string) returns (r: Result<bool>)
      modifies this`clock
      ensures clock == old(clock) + 1 && (r.Ok? <==> schedule(old(clock)) == Succeeds)
      ensures r.Ok? ==> r.value == (name in keys)
    {
      var ok := Tick();
      return if ok then Ok(name in keys) else Err(RegistryError);
    }

    /** `RegRenameKey`: an existing target is refused. */
    method RenameSubkey(from: string, to: string) returns (ok: bool)
      modifies this`keys, this`clock
      ensures clock == old(clock) + 1
      ensures ok <==> schedule(old(clock)) == Succeeds && from in old(keys) && to !in old(keys)
      ensures keys == if ok then Rename(old(keys), from, to) else old(keys)
    {
      ok := Tick();
      ok := ok && from in keys && to !in keys;
      if ok {
        keys := Rename(keys, from, to);
      }
    }

    /** `execute_steps`: records each rename before the next step starts. */
    method ExecuteSteps(p: Plan, stamp: string) returns (r: Result<()>)
      requires !bakMoved && canonicalBackup == None
      requires p.fixBak ==> BakName(p) in keys
      requires p.fixBak || p.canonical in keys
      modifies this`keys, this`bakMoved, this`canonicalBackup, this`clock
      ensures clock >= old(clock) && r != Err(RollbackFailed)
      ensures canonicalBackup.Some? ==> canonicalBackup.value == BackupName(p, stamp)
      ensures !p.fixBak ==> !bakMoved && canonicalBackup == None
      ensures Mutated(old(keys), NamesOf(p, stamp), p.fixBak, keys, bakMoved, canonicalBackup.Some?)
      ensures NamesApart(NamesOf(p, stamp))
      ensures r.Ok? ==> keys == Repaired(old(keys), NamesOf(p, stamp), p.fixBak, p.resetState)
      ensures QuietSince(old(clock)) ==> r == if CanRepair(old(keys), p, stamp) then Ok(()) else Err(TransactionFailed)
      ensures r.Ok? ==> QuietSince(old(clock))
    {
      NamesDiffer(p, stamp);
      if p.fixBak {
        r := MoveKeys(p, stamp);
        if r.Err? {
          return;
        }
      }
      if p.resetState {
        r := ResetState(p, stamp, old(keys));
        if r.Err? {
          return;
        }
      }
      assert p.canonical in keys;
      r := Verify(p);
    }

    /** The renames of `execute_steps`. */
    method MoveKeys(p: Plan, stamp: string) returns (r: Result<()>)
      requires !bakMoved && canonicalBackup == None && p.fixBak && BakName(p) in keys
      modifies this`keys, this`bakMoved, this`canonicalBackup, this`clock
      ensures clock >= old(clock) && NamesApart(NamesOf(p, stamp)) && r != Err(RollbackFailed)
      ensures canonicalBackup.Some? ==> canonicalBackup.value == BackupName(p, stamp)
      ensures Mutated(old(keys), NamesOf(p, stamp), p.fixBak, keys, bakMoved, canonicalBackup.Some?)
      ensures keys == Renamed(old(keys), NamesOf(p, stamp), bakMoved, canonicalBackup.Some?)
      ensures r.Ok? ==> bakMoved && (canonicalBackup.Some? <==> p.canonical in old(keys))
      ensures QuietSince(old(clock)) ==>
                r == if p.canonical in old(keys) && BackupName(p, stamp) in old(keys) then Err(TransactionFailed) else Ok(())
      ensures r.Ok? ==> QuietSince(old(clock))
    {
      NamesDiffer(p, stamp);
      var canonicalExists := SubkeyExists(p.canonical);
      if canonicalExists.Err? {
        return Err(RegistryError);
      }
      if canonicalExists.value {
        var backup := BackupName(p, stamp);
        var taken := SubkeyExists(backup);
        if taken.Err? {
          return Err(RegistryError);
        }
        if taken.value {
          return Err(TransactionFailed);
        }
        var preserved := RenameSubkey(p.canonical, backup);
        if !preserved {
          return Err(RegistryError);
        }
        canonicalBackup := Some(backup);
      }
      var moved := RenameSubkey(BakName(p), p.canonical);
      if !moved {
        return Err(RegistryError);
      }
      bakMoved := true;
      return Ok(());
    }

    method ResetState(p: Plan, stamp: string, ghost k0: Keys) returns (r: Result<()>)
      requires Mutated(k0, NamesOf(p, stamp), p.fixBak, keys, bakMoved, canonicalBackup.Some?)
      requires keys == Renamed(k0, NamesOf(p, stamp), bakMoved, canonicalBackup.Some?)
      requires p.canonical in keys && (p.fixBak ==> bakMoved)
      modifies this`keys, this`clock
      ensures clock >= old(clock) && r != Err(RollbackFailed)
      ensures Mutated(k0, NamesOf(p, stamp), p.fixBak, keys, bakMoved, canonicalBackup.Some?)
      ensures r.Ok? ==> keys == old(keys)[p.canonical := old(keys)[p.canonical].(state := Some(0), refCount := Some(0))]
      ensures QuietSince(old(clock)) ==> r.Ok?
      ensures r.Ok? ==> QuietSince(old(clock))
    {
      var opens := Tick();
      if !opens {
        return Err(RegistryError);
      }
      var wrote := Tick();
      if !wrote {
        return Err(RegistryError);
      }
      keys := keys[p.canonical := keys[p.canonical].(state := Some(0))];
      wrote := Tick();
      if !wrote {
        return Err(RegistryError);
      }
      keys := keys[p.canonical := keys[p.canonical].(refCount := Some(0))];
      return Ok(());
    }

    /** `verify`: re-reads every postcondition of the plan. */
    method Verify(p: Plan) returns (r: Result<()>)
      modifies this`clock
      ensures clock >= old(clock) && r != Err(RollbackFailed)
      ensures r.Ok? ==> Verified(keys, p)
      ensures QuietSince(old(clock)) ==> (r.Ok? <==> Verified(keys, p))
      ensures QuietSince(old(clock)) && p.canonical in keys ==>
                r == if Verified(keys, p) then Ok(()) else Err(TransactionFailed)
      ensures QuietSince(old(clock)) && p.canonical !in keys ==> r == Err(MissingRegistryKey)
      ensures r.Ok? ==> QuietSince(old(clock))
    {
      var present := SubkeyExists(p.canonical);
      if present.Err? {
        return Err(RegistryError);
      }
      if !present.value {
        return Err(MissingRegistryKey);
      }
      if p.fixBak {
        var bak := SubkeyExists(BakName(p));
        if bak.Err? {
          return Err(RegistryError);
        }
        if bak.value {
          return Err(TransactionFailed);
        }
      }
      var read := Tick();
      if !read {
        return Err(RegistryError);
      }
      var key := keys[p.canonical];
      if !HasPath(key) {
        return Err(TransactionFailed);
      }
      if p.resetState && (key.state != Some(0) || key.refCount != Some(0)) {
        return Err(TransactionFailed);
      }
      return Ok(());
    }

    /** The renames of `rollback`: every one is attempted. */
    method RenameBack(t: Trio, ghost k0: Keys, ghost fixBak: bool) returns (errors: nat)
      requires Mutated(k0, t, fixBak, keys, bakMoved, canonicalBackup.Some?)
      requires canonicalBackup.Some? ==> canonicalBackup.value == t.backup
      requires if fixBak then t.bak in k0 else !bakMoved && canonicalBackup == None
      modifies this`keys, this`clock
      ensures clock >= old(clock)
      // The second rename is attempted on what the first one left, failed or not.
      ensures var first := if bakMoved then Undo(old(keys), old(clock), t.canonical, t.bak)
                           else Attempt(old(keys), old(clock), true);
              var second := if canonicalBackup.Some? then Undo(first.keys, first.clock, t.backup, t.canonical)
                            else Attempt(first.keys, first.clock, true);
              keys == second.keys && clock == second.clock && (errors == 0 <==> first.clean && second.clean)
      ensures RenamedBack(k0, t, keys, fixBak, errors == 0)
      ensures QuietSince(old(clock)) ==> errors == 0
    {
      errors := 0;
      ghost var first := keys;
      if bakMoved {
        var undone := UndoRename(t.canonical, t.bak);
        if !undone {
          errors := errors + 1;
        }
      }
      ghost var second := keys;
      if canonicalBackup.Some? {
        var undone := UndoRename(canonicalBackup.value, t.canonical);
        if !undone {
          errors := errors + 1;
        }
      }
      UndoneBoth(k0, t, fixBak, first, second, keys, bakMoved, canonicalBackup.Some?, errors == 0);
    }

    /** What one inverse rename achieves under the schedule: it is skipped when its
        source is gone and fails when its target exists. */
    ghost function Undo(before: Keys, at: nat, from: string, to: string): Attempt {
      if schedule(at) != Succeeds then Attempt(before, at + 1, false)
      else if from !in before then Attempt(before, at + 1, true)
      else if schedule(at + 1) == Succeeds && to !in before then Attempt(Rename(before, from, to), at + 2, true)
      else Attempt(before, at + 2, false)
    }

    /** One rename of `rollback`, skipped when its source is gone. */
    method UndoRename(from: string, to: string) returns (clean: bool)
      modifies this`keys, this`clock
      ensures clock >= old(clock) && Attempt(keys, clock, clean) == Undo(old(keys), old(clock), from, to)
      ensures Undone(old(keys), keys, from, to, clean)
      ensures QuietSince(old(clock)) && to !in old(keys) ==> clean
    {
      var present := SubkeyExists(from);
      if present.Err? {
        return false;
      }
      if !present.value {
        return true;
      }
      clean := RenameSubkey(from, to);
    }

    /** Validation, key creation, restoration and privilege restoration all succeed. */
    ghost predicate RestoreSucceeds(at: nat) {
      forall i: nat :: at <= i < at + 4 ==> schedule(i) == Succeeds
    }

    /** A restore stops at its first failed call. */
    ghost function RestoreEnd(at: nat): (end: nat)
      ensures at < end <= at + 4
    {
      if schedule(at) != Succeeds then at + 1
      else if schedule(at + 1) != Succeeds then at + 2
      else if schedule(at + 2) != Succeeds then at + 3
      else at + 4
    }

    /** Where restore number `i` starts when every one before it was attempted. */
    ghost function RestoreStart(at: nat, i: nat): nat {
      if i == 0 then at else RestoreEnd(RestoreStart(at, i - 1))
    }

    /** `restore_registry_file`: opens or recreates the key, then overwrites it;
        a failed privilege restoration afterwards is an error as well. */
    method RestoreSnapshot(snapshot: Snapshot) returns (ok: bool)
      modifies this`keys, this`clock
      ensures clock == RestoreEnd(old(clock)) && (ok <==> RestoreSucceeds(old(clock)))
      ensures keys == old(keys) || keys == old(keys)[snapshot.name := snapshot.content] ||
              (snapshot.name !in old(keys) && keys == old(keys)[snapshot.name := Key(None, None, None, 0)])
      ensures ok ==> keys == old(keys)[snapshot.name := snapshot.content]
      ensures QuietSince(old(clock)) ==> ok
    {
      var validated := Tick();
      if !validated {
        return false;
      }
      var created := Tick();
      if !created {
        return false;
      }
      if snapshot.name !in keys {
        keys := keys[snapshot.name := EMPTY_KEY];
      }
      var restored := Tick();
      if !restored {
        return false;
      }
      assert keys[snapshot.name := snapshot.content] == old(keys)[snapshot.name := snapshot.content];
      keys := keys[snapshot.name := snapshot.content];
      ok := Tick();
    }

    /** `rollback`: renames back, restores every snapshot, logs the summary. */
    method Rollback(t: Trio, snapshots: seq<Snapshot>, ghost k0: Keys, ghost fixBak: bool)
      returns (renameErrors: nat, restoreErrors: nat, summaryLogged: bool)
      requires Mutated(k0, t, fixBak, keys, bakMoved, canonicalBackup.Some?)
      requires canonicalBackup.Some? ==> canonicalBackup.value == t.backup
      requires if fixBak then t.bak in k0 else !bakMoved && canonicalBackup == None
      requires Captures(snapshots, k0, t, fixBak)
      modifies this`keys, this`clock, this`audit, this`failedRestores, this`rollbackErrors
      ensures clock > old(clock)
      ensures failedRestores == old(failedRestores) + restoreErrors
      ensures rollbackErrors == old(rollbackErrors) + renameErrors + restoreErrors + if summaryLogged then 0 else 1
      ensures summaryLogged <==> schedule(clock - 1) == Succeeds
      ensures audit == if summaryLogged then old(audit) + [RollbackSummary] else old(audit)
      ensures renameErrors == 0 && restoreErrors == 0 ==> keys == k0
      ensures restoreErrors == 0 ==> RestoredUpTo(k0, keys, if fixBak then {t.canonical, t.backup} else {})
      ensures fixBak ==> CanonicalKept(k0, t, keys)
      ensures OthersKept(k0, t, keys)
      ensures QuietSince(old(clock)) ==> renameErrors == 0 && restoreErrors == 0 && summaryLogged
    {
      hide Undo, RestoreStart, RestoreSucceeds, Has, OneEach, OthersKept, CanonicalKept, RestoredUpTo, RenamedBack, Overwritten;
      renameErrors := RenameBack(t, k0, fixBak);
      ghost var renamed := keys;
      restoreErrors := RestoreAll(snapshots);
      failedRestores := failedRestores + restoreErrors;
      Combine(k0, t, fixBak, snapshots, renamed, keys, renameErrors == 0, restoreErrors == 0);
      summaryLogged := Log(RollbackSummary);
      rollbackErrors := rollbackErrors + renameErrors + restoreErrors + if summaryLogged then 0 else 1;
    }

    /** `create_required_snapshots`. */
    method CreateRequiredSnapshots(p: Plan) returns (r: Result<seq<Snapshot>>)
      requires p.fixBak || p.resetState
      modifies this`clock
      ensures clock >= old(clock) && r != Err(RollbackFailed)
      ensures r.Ok? ==> Captures(r.value, keys, NamesOf(p, ""), p.fixBak)
      ensures QuietSince(old(clock)) ==> (r.Ok? <==> if p.fixBak then BakName(p) in keys else p.canonical in keys)
      ensures r.Ok? ==> QuietSince(old(clock))
    {
      NamesDiffer(p, "");
      var paths := [p.canonical];
      if p.fixBak {
        paths := [BakName(p)];
        var canonicalExists := SubkeyExists(p.canonical);
        if canonicalExists.Err? {
          return Err(RegistryError);
        }
        if canonicalExists.value {
          paths := paths + [p.canonical];
        }
      }
      assert forall j :: 0 < j < |paths| ==> paths[j] in keys;
      var snapshots: seq<Snapshot> := [];
      for i := 0 to |paths|
        invariant clock >= old(clock) && QuietSince(old(clock))
        invariant |snapshots| == i
        invariant forall j :: 0 <= j < i ==> paths[j] in keys && snapshots[j] == Snapshot(paths[j], keys[paths[j]])
      {
        var saved := Tick();
        if !saved || paths[i] !in keys {
          return Err(SnapshotError);
        }
        snapshots := snapshots + [Snapshot(paths[i], keys[paths[i]])];
      }
      if |paths| == 2 {
        assert snapshots == [Snapshot(BakName(p), keys[BakName(p)])] + [Snapshot(p.canonical, keys[p.canonical])];
      } else {
        assert snapshots == [Snapshot(paths[0], keys[paths[0]])] + [];
      }
      return Ok(snapshots);
    }

    /** `execute_plan`. `accepted` is the outcome of the checks that only read:
        SID, loaded session, `NTUSER.DAT` locks, profile path. */
    method ExecutePlan(p: Plan, stamp: string, accepted: bool) returns (r: Result<()>)
      requires !bakMoved && canonicalBackup == None && stepError == None
      modifies this
      ensures r.Ok? && p.dryRun ==> keys == old(keys)
      ensures r.Ok? && !p.dryRun ==>
                (p.fixBak ==> BakName(p) in old(keys)) && (!p.fixBak ==> p.canonical in old(keys)) &&
                NamesApart(NamesOf(p, stamp)) &&
                keys == Repaired(old(keys), NamesOf(p, stamp), p.fixBak, p.resetState)
      ensures r.Err? && r.error != RollbackFailed ==> keys == old(keys)
      ensures r.Err? && failedRestores == old(failedRestores) ==>
                RestoredUpTo(old(keys), keys, if p.fixBak then {p.canonical, BackupName(p, stamp)} else {})
      ensures p.fixBak ==> CanonicalKept(old(keys), NamesOf(p, stamp), keys)
      ensures OthersKept(old(keys), NamesOf(p, stamp), keys)
      ensures r.Ok? ==> audit == old(audit) + if p.dryRun then [DryRun] else [Started, Success]
      ensures Success in audit ==> Success in old(audit) || r.Ok?
      ensures !p.dryRun && schedule(old(clock)) != Succeeds ==> r == Err(AuditError)
      // A rollback error means that a rename, a restore or the summary entry failed;
      // without one the caller gets the error of the failed step.
      ensures r == Err(RollbackFailed) <==> rollbackErrors > old(rollbackErrors)
      ensures stepError.Some? && r != Err(RollbackFailed) ==>
                clock > 0 && r == Err(if schedule(clock - 1) == Succeeds then stepError.value else AuditError)
      ensures QuietSince(old(clock)) ==> r == Verdict(old(keys), p, stamp, accepted) && (r.Ok? || keys == old(keys))
      ensures r.Ok? ==> QuietSince(old(clock))
    {
      hide Repaired, RestoredUpTo, CanonicalKept, OthersKept, CanRepair, HasPath;
      NamesDiffer(p, stamp);
      NothingLost(keys, NamesOf(p, stamp), if p.fixBak then {p.canonical, BackupName(p, stamp)} else {});
      if !p.dryRun {
        var guarded := Tick();
        if !guarded {
          return Err(AuditError);
        }
      }
      if p.unlockHive {
        return Err(AutomaticUnlockUnsupported);
      }
      if !p.fixBak && !p.resetState {
        return Err(NoActionSelected);
      }
      var validated := ValidatePlan(p, accepted);
      if validated.Err? {
        return validated;
      }
      if p.dryRun {
        var logged := Log(DryRun);
        return if logged then Ok(()) else Err(AuditError);
      }
      var snapshots := CreateRequiredSnapshots(p);
      if snapshots.Err? {
        return Err(snapshots.error);
      }
      r := Transact(p, stamp, snapshots.value);
    }

    /** The registry part of `validate_plan`. */
    method ValidatePlan(p: Plan, accepted: bool) returns (r: Result<()>)
      modifies this`clock
      ensures clock >= old(clock)
      ensures r.Ok? ==> Valid(keys, p, accepted)
      ensures r != Err(RollbackFailed)
      ensures QuietSince(old(clock)) ==> r == Validation(keys, p, accepted)
      ensures r.Ok? ==> QuietSince(old(clock))
    {
      if !accepted || (p.sid != p.canonical && p.sid != BakName(p)) {
        return Err(Refused);
      }
      var selected := SubkeyExists(p.sid);
      if selected.Err? {
        return Err(RegistryError);
      }
      if !selected.value {
        return Err(MissingRegistryKey);
      }
      if p.fixBak {
        var bak := SubkeyExists(BakName(p));
        if bak.Err? {
          return Err(RegistryError);
        }
        if !bak.value {
          return Err(MissingRegistryKey);
        }
        if !HasPath(keys[BakName(p)]) {
          return Err(TransactionFailed);
        }
      } else if p.resetState {
        var canonical := SubkeyExists(p.canonical);
        if canonical.Err? {
          return Err(RegistryError);
        }
        if !canonical.value {
          return Err(MissingRegistryKey);
        }
      }
      return Ok(());
    }

    /** `execute_plan` once the snapshots exist. */
    method Transact(p: Plan, stamp: string, snapshots: seq<Snapshot>) returns (r: Result<()>)
      requires !bakMoved && canonicalBackup == None && stepError == None
      requires NamesApart(NamesOf(p, stamp)) && Captures(snapshots, keys, NamesOf(p, stamp), p.fixBak)
      modifies this
      ensures clock >= old(clock)
      ensures r.Ok? ==> keys == Repaired(old(keys), NamesOf(p, stamp), p.fixBak, p.resetState)
      ensures r.Err? && r.error != RollbackFailed ==> keys == old(keys)
      ensures r.Err? && failedRestores == old(failedRestores) ==>
                RestoredUpTo(old(keys), keys, if p.fixBak then {p.canonical, BackupName(p, stamp)} else {})
      ensures p.fixBak ==> CanonicalKept(old(keys), NamesOf(p, stamp), keys)
      ensures OthersKept(old(keys), NamesOf(p, stamp), keys)
      ensures r.Ok? ==> audit == old(audit) + [Started, Success]
      ensures Success in audit ==> Success in old(audit) || r.Ok?
      ensures r == Err(RollbackFailed) <==> rollbackErrors > old(rollbackErrors)
      ensures stepError.Some? && r != Err(RollbackFailed) ==>
                clock > 0 && r == Err(if schedule(clock - 1) == Succeeds then stepError.value else AuditError)
      ensures QuietSince(old(clock)) ==>
                r == (if CanRepair(old(keys), p, stamp) then Ok(()) else Err(TransactionFailed)) && (r.Ok? || keys == old(keys))
      ensures r.Ok? ==> QuietSince(old(clock))
    {
      hide Mutated, Repaired, RestoredUpTo, Captures, CanRepair, CanonicalKept, OthersKept, NamesApart, BackupName;
      NothingLost(keys, NamesOf(p, stamp), if p.fixBak then {p.canonical, BackupName(p, stamp)} else {});
      var started := Log(Started);
      if !started {
        return Err(AuditError);
      }
      var parentOpens := Tick();
      if !parentOpens {
        return Err(RegistryError);
      }
      r := Perform(p, stamp, snapshots);
    }

    /** The steps, then the success entry or the failure branch. */
    method Perform(p: Plan, stamp: string, snapshots: seq<Snapshot>) returns (r: Result<()>)
      requires !bakMoved && canonicalBackup == None && stepError == None
      requires NamesApart(NamesOf(p, stamp)) && Captures(snapshots, keys, NamesOf(p, stamp), p.fixBak)
      modifies this
      ensures clock >= old(clock)
      ensures r.Ok? ==> keys == Repaired(old(keys), NamesOf(p, stamp), p.fixBak, p.resetState)
      ensures r.Err? && r.error != RollbackFailed ==> keys == old(keys)
      ensures r.Err? && failedRestores == old(failedRestores) ==>
                RestoredUpTo(old(keys), keys, if p.fixBak then {p.canonical, BackupName(p, stamp)} else {})
      ensures p.fixBak ==> CanonicalKept(old(keys), NamesOf(p, stamp), keys)
      ensures OthersKept(old(keys), NamesOf(p, stamp), keys)
      ensures r.Ok? ==> audit == old(audit) + [Success]
      ensures Success in audit ==> Success in old(audit) || r.Ok?
      ensures r == Err(RollbackFailed) <==> rollbackErrors > old(rollbackErrors)
      ensures stepError.Some? && r != Err(RollbackFailed) ==>
                clock > 0 && r == Err(if schedule(clock - 1) == Succeeds then stepError.value else AuditError)
      ensures QuietSince(old(clock)) ==>
                r == (if CanRepair(old(keys), p, stamp) then Ok(()) else Err(TransactionFailed)) && (r.Ok? || keys == old(keys))
      ensures r.Ok? ==> QuietSince(old(clock))
    {
      hide Mutated, Repaired, RestoredUpTo, Captures, CanRepair, CanonicalKept, OthersKept, NamesApart, BackupName;
      ghost var k0 := keys;
      assert (if p.fixBak then BakName(p) in keys else p.canonical in keys) by { CapturedExist(snapshots, keys, p, stamp); }
      r := ExecuteSteps(p, stamp);
      stepError := if r.Err? then Some(r.error) else None;
      if r.Ok? {
        RepairedKeeps(k0, p, stamp);
        var logged := Log(Success);
        if logged {
          return Ok(());
        }
      }
      r := Abandon(p, stamp, snapshots, k0, r);
    }

    /** The failure branches of `execute_plan`: `outcome` is the failed step, or Ok
        when only the success audit failed. */
    method Abandon(p: Plan, stamp: string, snapshots: seq<Snapshot>, ghost k0: Keys, outcome: Result<()>)
      returns (r: Result<()>)
      requires Mutated(k0, NamesOf(p, stamp), p.fixBak, keys, bakMoved, canonicalBackup.Some?)
      requires canonicalBackup.Some? ==> canonicalBackup.value == BackupName(p, stamp)
      requires if p.fixBak then BakName(p) in k0 else !bakMoved && canonicalBackup == None
      requires Captures(snapshots, k0, NamesOf(p, stamp), p.fixBak) && outcome != Err(RollbackFailed)
      modifies this`keys, this`clock, this`audit, this`failedRestores, this`rollbackErrors
      ensures clock > old(clock) && r.Err? && (Success in audit ==> Success in old(audit))
      ensures r.error == RollbackFailed <==> rollbackErrors > old(rollbackErrors)
      ensures r.error != RollbackFailed ==>
                r == (if outcome.Err? && schedule(clock - 1) == Succeeds then outcome else Err(AuditError)) &&
                audit == old(audit) + [RollbackSummary] +
                         if outcome.Err? && schedule(clock - 1) == Succeeds then [Failed] else []
      ensures QuietSince(old(clock)) ==> r.error != RollbackFailed
      ensures r.error != RollbackFailed ==> keys == k0
      ensures failedRestores == old(failedRestores) ==>
                RestoredUpTo(k0, keys, if p.fixBak then {p.canonical, BackupName(p, stamp)} else {})
      ensures p.fixBak ==> CanonicalKept(k0, NamesOf(p, stamp), keys)
      ensures OthersKept(k0, NamesOf(p, stamp), keys)
      ensures QuietSince(old(clock)) ==> keys == k0
      ensures r.error == RollbackFailed ==>
                var failure := if outcome.Err? && schedule(clock - 1) == Succeeds then [RollbackFailure] else [];
                audit == old(audit) + failure || audit == old(audit) + [RollbackSummary] + failure
    {
      hide Mutated, RestoredUpTo, Captures, CanonicalKept, OthersKept;
      var renameErrors, restoreErrors, summaryLogged := Rollback(NamesOf(p, stamp), snapshots, k0, p.fixBak);
      if renameErrors > 0 || restoreErrors > 0 || !summaryLogged {
        if outcome.Err? {
          var _ := Log(RollbackFailure);
        }
        return Err(RollbackFailed);
      }
      if outcome.Ok? {
        return Err(AuditError);
      }
      var logged := Log(Failed);
      return if logged then outcome else Err(AuditError);
    }

    /** The restore loop of `attempt_all_then_audit`: a failure does not stop it. */
    method RestoreAll(snapshots: seq<Snapshot>) returns (errors: nat)
      modifies this`keys, this`clock
      ensures clock == RestoreStart(old(clock), |snapshots|) && clock >= old(clock)
      ensures Overwritten(old(keys), keys, snapshots)
      ensures OneEach(snapshots) ==>
                forall i :: 0 <= i < |snapshots| && RestoreSucceeds(RestoreStart(old(clock), i)) ==>
                  Has(keys, snapshots[i])
      ensures errors == 0 <==> forall i :: 0 <= i < |snapshots| ==> RestoreSucceeds(RestoreStart(old(clock), i))
      ensures errors == 0 && OneEach(snapshots) ==> forall i :: 0 <= i < |snapshots| ==> Has(keys, snapshots[i])
      ensures QuietSince(old(clock)) ==> errors == 0
    {
      hide RestoreSucceeds, RestoreEnd;
      errors := 0;
      for i := 0 to |snapshots|
        invariant clock == RestoreStart(old(clock), i) && clock >= old(clock)
        invariant QuietSince(old(clock)) ==> errors == 0
        invariant OneEach(snapshots) ==>
                    forall j :: 0 <= j < i && RestoreSucceeds(RestoreStart(old(clock), j)) ==> Has(keys, snapshots[j])
        invariant errors == 0 <==> forall j :: 0 <= j < i ==> RestoreSucceeds(RestoreStart(old(clock), j))
        invariant Overwritten(old(keys), keys, snapshots)
      {
        ghost var before := keys;
        var ok := RestoreSnapshot(snapshots[i]);
        OverwrittenMore(old(keys), before, keys, snapshots, i);
        if !ok {
          errors := errors + 1;
        }
      }
    }
  }

  /** The key of the snapshot is there with the captured content. */
  ghost predicate Has(keys: Keys, s: Snapshot) {
    s.name in keys && keys[s.name] == s.content
  }

  /** The keys, the clock and the verdict after one attempt. */
  datatype Attempt = Attempt(keys: Keys, clock: nat, clean: bool)

  ghost predicate Undone(before: Keys, after: Keys, from: string, to: string, clean: bool) {
    (after == before || (from in before && to !in before && after == Rename(before, from, to))) &&
    (clean ==> from !in before || (to !in before && after == Rename(before, from, to)))
  }

  /** Whatever the two renames of a rollback achieve. */
  lemma UndoneBoth(k0: Keys, t: Trio, fixBak: bool, k1: Keys, k2: Keys, k3: Keys,
                   bakMoved: bool, backedUp: bool, clean: bool)
    requires Mutated(k0, t, fixBak, k1, bakMoved, backedUp)
    requires if fixBak then t.bak in k0 else !bakMoved && !backedUp
    requires if bakMoved then Undone(k1, k2, t.canonical, t.bak, clean) else k2 == k1
    requires if backedUp then Undone(k2, k3, t.backup, t.canonical, clean) else k3 == k2
    ensures RenamedBack(k0, t, k3, fixBak, clean)
  {
    var r1 := if backedUp then Rename(k0, t.canonical, t.backup) else k0;
    if bakMoved {
      assert t.canonical in k1 && t.bak !in k1;
    }
  }

  ghost predicate OneEach(snapshots: seq<Snapshot>) {
    forall i, j :: 0 <= i < j < |snapshots| ==> snapshots[i].name != snapshots[j].name
  }

  ghost predicate Named(snapshots: seq<Snapshot>, n: string) {
    exists j :: 0 <= j < |snapshots| && snapshots[j].name == n
  }

  /** Restoring only overwrites or recreates keys that have a snapshot, and an
      existing key never ends with anything but its own or the captured content. */
  ghost predicate Overwritten(before: Keys, after: Keys, snapshots: seq<Snapshot>) {
    (forall n :: n in before ==> n in after && (after[n] == before[n] || Snapshot(n, after[n]) in snapshots)) &&
    (forall n :: n in after && n !in before ==> Named(snapshots, n))
  }

  lemma OverwrittenMore(first: Keys, before: Keys, after: Keys, snapshots: seq<Snapshot>, i: nat)
    requires Overwritten(first, before, snapshots) && i < |snapshots|
    requires after == before || after == before[snapshots[i].name := snapshots[i].content] ||
             (snapshots[i].name !in before && after == before[snapshots[i].name := EMPTY_KEY])
    ensures Overwritten(first, after, snapshots)
  {
    assert Named(snapshots, snapshots[i].name);
    assert snapshots[i] == Snapshot(snapshots[i].name, snapshots[i].content);
  }

  /** Renaming back and restoring together undo the repair. */
  lemma Combine(k0: Keys, t: Trio, fixBak: bool, snapshots: seq<Snapshot>, renamed: Keys, keys: Keys,
                cleanRenames: bool, cleanRestores: bool)
    requires NamesApart(t) && Captures(snapshots, k0, t, fixBak)
    requires RenamedBack(k0, t, renamed, fixBak, cleanRenames) && Overwritten(renamed, keys, snapshots)
    requires cleanRestores && OneEach(snapshots) ==> forall i :: 0 <= i < |snapshots| ==> Has(keys, snapshots[i])
    ensures cleanRestores ==> RestoredUpTo(k0, keys, if fixBak then {t.canonical, t.backup} else {})
    ensures cleanRenames && cleanRestores ==> keys == k0
    ensures fixBak ==> CanonicalKept(k0, t, keys)
    ensures OthersKept(k0, t, keys)
  {
    assert OneEach(snapshots);
    if cleanRestores {
      assert Has(keys, snapshots[0]) && Has(keys, snapshots[|snapshots| - 1]);
    }
    forall n ensures Named(snapshots, n) <==> (n == t.canonical && t.canonical in k0) || (fixBak && n == t.bak) {
      if fixBak { assert snapshots[0].name == t.bak; }
      if t.canonical in k0 { assert snapshots[|snapshots| - 1].name == t.canonical; }
    }
    forall s ensures s in snapshots <==>
      (fixBak && s == Snapshot(t.bak, k0[t.bak])) || (t.canonical in k0 && s == Snapshot(t.canonical, k0[t.canonical]))
    {
      if fixBak { assert snapshots[0] == Snapshot(t.bak, k0[t.bak]); }
      if t.canonical in k0 { assert snapshots[|snapshots| - 1] == Snapshot(t.canonical, k0[t.canonical]); }
    }
  }

  ghost predicate Verified(keys: Keys, p: Plan) {
    p.canonical in keys && HasPath(keys[p.canonical]) && (p.fixBak ==> BakName(p) !in keys) &&
    (p.resetState ==> keys[p.canonical].state == Some(0) && keys[p.canonical].refCount == Some(0))
  }

  /** The registry conditions of `validate_plan`. */
  ghost predicate Valid(keys: Keys, p: Plan, accepted: bool) {
    accepted && (p.sid == p.canonical || p.sid == BakName(p)) && p.sid in keys &&
    if p.fixBak then BakName(p) in keys && HasPath(keys[BakName(p)]) else p.resetState ==> p.canonical in keys
  }

  /** What the registry part of an undisturbed validation answers. */
  ghost function Validation(keys: Keys, p: Plan, accepted: bool): Result<()> {
    if !accepted || (p.sid != p.canonical && p.sid != p.canonical + ".bak") then Err(Refused)
    else if p.sid !in keys then Err(MissingRegistryKey)
    else if p.fixBak && p.canonical + ".bak" !in keys then Err(MissingRegistryKey)
    else if p.fixBak && !HasPath(keys[p.canonical + ".bak"]) then Err(TransactionFailed)
    else if !p.fixBak && p.resetState && p.canonical !in keys then Err(MissingRegistryKey)
    else Ok(())
  }

  /** What an undisturbed call answers. */
  ghost function Verdict(k0: Keys, p: Plan, stamp: string, accepted: bool): Result<()> {
    if p.unlockHive then Err(AutomaticUnlockUnsupported)
    else if !p.fixBak && !p.resetState then Err(NoActionSelected)
    else if Validation(k0, p, accepted).Err? then Validation(k0, p, accepted)
    else if p.dryRun || CanRepair(k0, p, stamp) then Ok(())
    else Err(TransactionFailed)
  }

  lemma HasPathIs(k: Key)
    ensures HasPath(k) <==>
              k.imagePath.Some? &&
              exists i :: 0 <= i < |k.imagePath.value| &&
                          var c := k.imagePath.value[i]; c != ' ' && c != '\t' && c != '\r' && c != '\n'
  {
    forall c: char ensures c in " \t\r\n" <==> c == ' ' || c == '\t' || c == '\r' || c == '\n' {
      var s := " \t\r\n";
      assert s[0] == ' ' && s[1] == '\t' && s[2] == '\r' && s[3] == '\n';
    }
  }

  /** An undisturbed call succeeds exactly if no unlocking and some action is asked
      for, the other checks passed, the selected key is one of the profile's two, the
      keys the action needs are there, and, unless it is only a dry run, the key that
      becomes canonical has a profile path and no key has the backup's name. */
  lemma VerdictIs(k0: Keys, p: Plan, stamp: string, accepted: bool)
    ensures Verdict(k0, p, stamp, accepted).Ok? <==>
              !p.unlockHive && (p.fixBak || p.resetState) && accepted &&
              (p.sid == p.canonical || p.sid == p.canonical + ".bak") && p.sid in k0 &&
              (p.fixBak ==> p.canonical + ".bak" in k0 && HasPath(k0[p.canonical + ".bak"])) &&
              (!p.fixBak ==> p.canonical in k0 && (p.dryRun || HasPath(k0[p.canonical]))) &&
              (p.fixBak && p.canonical in k0 && !p.dryRun ==> p.canonical + ".pre-repair-" + stamp !in k0)
  {
  }

  lemma CapturedExist(snapshots: seq<Snapshot>, keys: Keys, p: Plan, stamp: string)
    requires Captures(snapshots, keys, NamesOf(p, stamp), p.fixBak)
    ensures if p.fixBak then BakName(p) in keys else p.canonical in keys
  {
  }

  lemma NothingLost(keys: Keys, t: Trio, surplus: set<string>)
    ensures RestoredUpTo(keys, keys, surplus) && CanonicalKept(keys, t, keys) && OthersKept(keys, t, keys)
  {
  }

  /** A repair preserves the old canonical key under its backup name and touches
      nothing else. */
  lemma RepairedKeeps(k0: Keys, p: Plan, stamp: string)
    requires NamesApart(NamesOf(p, stamp)) && (if p.fixBak then BakName(p) in k0 else p.canonical in k0)
    ensures var keys := Repaired(k0, NamesOf(p, stamp), p.fixBak, p.resetState);
            (p.fixBak ==> CanonicalKept(k0, NamesOf(p, stamp), keys)) &&
            OthersKept(k0, NamesOf(p, stamp), keys)
  {
  }

  /** Key by key, with the names written out. */
  lemma RepairedIs(k0: Keys, p: Plan, stamp: string)
    requires NamesApart(NamesOf(p, stamp)) && (if p.fixBak then BakName(p) in k0 else p.canonical in k0)
    ensures var keys, c := Repaired(k0, NamesOf(p, stamp), p.fixBak, p.resetState), p.canonical;
            var source := if p.fixBak then k0[c + ".bak"] else k0[c];
            c in keys && keys[c].imagePath == source.imagePath && keys[c].rest == source.rest &&
            keys[c].state == (if p.resetState then Some(0) else source.state) &&
            keys[c].refCount == (if p.resetState then Some(0) else source.refCount) &&
            (p.fixBak ==> c + ".bak" !in keys) &&
            (p.fixBak && c in k0 ==> c + ".pre-repair-" + stamp in keys && keys[c + ".pre-repair-" + stamp] == k0[c])
  {
  }

  /** Exactly when an undisturbed run of the steps succeeds: the preserved key's
      name is free and the key that becomes canonical names a profile path. */
  ghost predicate CanRepair(k0: Keys, p: Plan, stamp: string) {
    (p.fixBak && p.canonical in k0 ==> BackupName(p, stamp) !in k0) &&
    (if p.fixBak then BakName(p) in k0 && HasPath(k0[BakName(p)]) else p.canonical in k0 && HasPath(k0[p.canonical]))
  }
}
