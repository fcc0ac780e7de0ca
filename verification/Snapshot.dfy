// Registry snapshots: crates/audit-journal/src/snapshot.rs over the created-file
// handles of crates/audit-journal/src/storage.rs.

module Snapshot {
  import opened Faults

  /** SHA-256, taken to be injective. */
  datatype ContentHash = Sha256(content: Content)

  datatype Content = Hive(data: nat) | Json(metadata: Metadata) | Torn

  datatype Stored = Stored(identity: nat, content: Content)

  datatype Metadata = Metadata(snapshotFileName: string, digest: ContentHash, identity: nat)

  type Files = map<string, Stored>

  datatype Error =
    | Collision
    | StorageError
    | RegistryError
    | PrivilegeError
    | StorageCleanupFailed
    | SaveCleanupFailed
    | PostSaveCleanupFailed
    | CleanupFailed
    | PrivilegeRestoreCleanupFailed
    | OperationAndPrivilegeRestoreFailed(operation: Error)
    | InvalidInventory

  datatype Result<+T> = Ok(value: T) | Err(error: Error)

  /** The error says that something may have been left behind. */
  predicate ReportsCleanupFailure(e: Error) {
    match e
    case StorageCleanupFailed => true
    case SaveCleanupFailed => true
    case PostSaveCleanupFailed => true
    case CleanupFailed => true
    case PrivilegeRestoreCleanupFailed => true
    case OperationAndPrivilegeRestoreFailed(operation) => ReportsCleanupFailure(operation)
    case _ => false
  }

  predicate HasSuffix(name: string, suffix: string) {
    |name| >= |suffix| && name[|name| - |suffix|..] == suffix
  }

  function MetadataName(fileName: string): string {
    fileName + ".json"
  }

  /** What inventory validation asks of a metadata file. */
  predicate Accepted(files: Files, metadataFile: string, m: Metadata) {
    HasSuffix(m.snapshotFileName, ".hiv") && metadataFile == MetadataName(m.snapshotFileName) &&
    m.snapshotFileName in files && files[m.snapshotFileName].identity == m.identity &&
    Sha256(files[m.snapshotFileName].content) == m.digest
  }

  /** Every metadata file can be listed. */
  ghost predicate Sound(files: Files) {
    forall n :: n in files && HasSuffix(n, ".json") ==>
      files[n].content.Json? && Accepted(files, n, files[n].content.metadata)
  }

  /** At most the two files of the snapshot were added. */
  ghost predicate AddsAtMost(before: Files, after: Files, fileName: string) {
    (forall n :: n in before ==> n in after && after[n] == before[n]) &&
    forall n :: n in after ==> n in before || n == fileName || n == MetadataName(fileName)
  }

  class SnapshotEngine {
    const schedule: Schedule
    var files: Files
    var clock: nat
    var nextIdentity: nat
    /** Deletions that failed although the file was there. */
    ghost var leaks: nat
    /** Those among them whose failure the code discards. */
    ghost var silent: nat
    /** Cleanup steps that failed: deletions, and looking for the file to delete. */
    ghost var failedCleanups: nat

    /** A file is created, its kind check fails, so does the deletion whose outcome
        is discarded, and the call after that succeeds. */
    ghost predicate SilentFault(at: nat) {
      schedule(at) == Succeeds && schedule(at + 1) != Succeeds && schedule(at + 2) != Succeeds &&
      schedule(at + 3) == Succeeds
    }

    /** `delete_open_file`, `CreatedStorageFile::rollback` */
    method Delete(name: string) returns (ok: bool)
      requires name in files
      modifies this`files, this`clock, this`leaks, this`failedCleanups
      ensures clock == old(clock) + 1 && (ok <==> schedule(old(clock)) == Succeeds)
      ensures files == if ok then old(files) - {name} else old(files)
      ensures leaks == old(leaks) + if ok then 0 else 1
      ensures failedCleanups == old(failedCleanups) + if ok then 0 else 1
    {
      ok := schedule(clock) == Succeeds;
      clock := clock + 1;
      if ok {
        files := files - {name};
      } else {
        leaks, failedCleanups := leaks + 1, failedCleanups + 1;
      }
    }

    /** `remove_file_if_exists` */
    method RemoveIfExists(name: string) returns (ok: bool)
      modifies this`files, this`clock, this`leaks, this`failedCleanups
      ensures clock > old(clock) && leaks >= old(leaks)
      ensures name !in files <==> leaks == old(leaks)
      ensures files == old(files) || files == old(files) - {name}
      ensures name in files ==> !ok
      ensures QuietBetween(schedule, old(clock), clock) ==> ok
      ensures failedCleanups == old(failedCleanups) + if ok then 0 else 1
    {
      ok := schedule(clock) == Succeeds;
      clock := clock + 1;
      if !ok {
        failedCleanups := failedCleanups + 1;
        if name in files {
          leaks := leaks + 1;
        }
        return;
      }
      if name in files {
        ok := Delete(name);
      }
    }

    /** `save_key`: a failed save may leave a partial file. */
    method SaveKey(name: string, data: nat) returns (ok: bool)
      requires name !in files
      modifies this`files, this`clock, this`nextIdentity
      ensures clock == old(clock) + 1 && nextIdentity == old(nextIdentity) + 1
      ensures ok <==> schedule(old(clock)) == Succeeds
      ensures ok ==> files == old(files)[name := Stored(old(nextIdentity), Hive(data))]
      ensures !ok ==> files == old(files) || files == old(files)[name := Stored(old(nextIdentity), Torn)]
    {
      var outcome, identity := schedule(clock), nextIdentity;
      clock, nextIdentity := clock + 1, nextIdentity + 1;
      ok := outcome == Succeeds;
      if ok {
        files := files[name := Stored(identity, Hive(data))];
      } else if outcome == FailsAfter {
        files := files[name := Stored(identity, Torn)];
      }
    }

    /** `create_file`: the deletion after a failed kind check is not looked at, the
        one after a failed handle duplication is. */
    method CreateFile(name: string) returns (r: Result<()>)
      modifies this`files, this`clock, this`nextIdentity, this`leaks, this`silent, this`failedCleanups
      ensures clock > old(clock) && leaks >= old(leaks) && silent >= old(silent) && leaks - old(leaks) >= silent - old(silent)
      ensures r.Ok? ==> name !in old(files) && leaks == old(leaks)
      ensures r.Ok? ==> files == old(files)[name := Stored(old(nextIdentity), Torn)]
      ensures leaks <= old(leaks) + 1 && (silent > old(silent) ==> r.Err? && leaks == old(leaks) + 1)
      ensures r.Err? ==> (files == old(files) <==> leaks == old(leaks))
      ensures r.Err? && files == old(files) ==> silent == old(silent)
      ensures r.Err? ==> files == old(files) || (name !in old(files) && files == old(files)[name := Stored(old(nextIdentity), Torn)])
      ensures r.Err? && files != old(files) ==> (silent > old(silent) <==> !ReportsCleanupFailure(r.error))
      ensures SilentFault(old(clock)) && name !in old(files) ==>
                r == Err(StorageError) && silent > old(silent) && clock == old(clock) + 3
      ensures QuietBetween(schedule, old(clock), clock) ==>
                (r.Ok? <==> name !in old(files)) && (r.Err? ==> r == Err(StorageError))
      ensures r.Ok? ==> QuietBetween(schedule, old(clock), clock)
      ensures failedCleanups - old(failedCleanups) >= silent - old(silent)
      ensures r.Ok? ==> failedCleanups == old(failedCleanups)
      ensures r.Err? ==> (ReportsCleanupFailure(r.error) <==>
                          failedCleanups - old(failedCleanups) > silent - old(silent))
    {
      var opens := schedule(clock) == Succeeds;
      clock := clock + 1;
      if !opens || name in files {
        return Err(StorageError);
      }
      files, nextIdentity := files[name := Stored(nextIdentity, Torn)], nextIdentity + 1;
      assert files - {name} == old(files);
      var valid := schedule(clock) == Succeeds;
      clock := clock + 1;
      if !valid {
        var deleted := Delete(name);
        if !deleted {
          silent := silent + 1;
        }
        return Err(StorageError);
      }
      var duplicated := schedule(clock) == Succeeds;
      clock := clock + 1;
      if !duplicated {
        var deleted := Delete(name);
        return Err(if deleted then StorageError else StorageCleanupFailed);
      }
      return Ok(());
    }

    /** The two files of a transaction being abandoned: `cleanup_transaction_artifacts`. */
    method CleanUp(fileName: string, metadataCreated: bool, ghost before: Files) returns (clean: bool)
      requires fileName in files && (metadataCreated ==> MetadataName(fileName) in files)
      requires AddsAtMost(before, files, fileName) && fileName !in before
      requires metadataCreated ==> MetadataName(fileName) !in before
      modifies this`files, this`clock, this`leaks, this`failedCleanups
      ensures clock > old(clock) && leaks >= old(leaks) && (clean <==> leaks == old(leaks))
      ensures AddsAtMost(before, files, fileName)
      ensures clean ==> fileName !in files && (metadataCreated ==> MetadataName(fileName) !in files)
      ensures clean ==> files == old(files) - {fileName} - (if metadataCreated then {MetadataName(fileName)} else {})
      ensures !clean ==> files != before
      ensures !metadataCreated ==> clock == old(clock) + 1 && (clean <==> schedule(old(clock)) == Succeeds)
      ensures QuietBetween(schedule, old(clock), clock) ==> clean
      ensures failedCleanups >= old(failedCleanups) && (clean <==> failedCleanups == old(failedCleanups))
    {
      clean := true;
      if metadataCreated {
        clean := Delete(MetadataName(fileName));
      }
      var hiveDeleted := Delete(fileName);
      clean := clean && hiveDeleted;
    }
  
    /** The hive half of `create_registry_snapshot`. */
    method SaveHive(fileName: string, data: nat) returns (r: Result<Metadata>)
      modifies this`files, this`clock, this`nextIdentity, this`leaks, this`failedCleanups
      ensures clock > old(clock) && leaks >= old(leaks)
      ensures r.Ok? ==> fileName !in old(files) && leaks == old(leaks)
      ensures r.Ok? ==> files == old(files)[fileName := Stored(old(nextIdentity), Hive(data))] &&
                        r.value == Metadata(fileName, Sha256(Hive(data)), old(nextIdentity))
      ensures r.Err? ==> (files == old(files) <==> leaks == old(leaks)) && AddsAtMost(old(files), files, fileName)
      ensures r.Err? && files != old(files) ==> ReportsCleanupFailure(r.error)
      ensures QuietBetween(schedule, old(clock), old(clock) + 6) && fileName !in old(files) ==> r.Ok? && clock == old(clock) + 6
      ensures QuietBetween(schedule, old(clock), clock) ==>
                (r.Ok? <==> fileName !in old(files)) && (r.Err? ==> r == Err(Collision))
      ensures r.Ok? ==> QuietBetween(schedule, old(clock), clock)
      ensures r.Ok? ==> failedCleanups == old(failedCleanups)
      ensures failedCleanups >= old(failedCleanups)
      ensures r.Err? ==> (ReportsCleanupFailure(r.error) <==> failedCleanups > old(failedCleanups))
    {
      var looked := schedule(clock) == Succeeds;
      clock := clock + 1;
      if !looked {
        return Err(StorageError);
      }
      if fileName in files {
        return Err(Collision);
      }
      var opens := schedule(clock) == Succeeds;
      clock := clock + 1;
      if !opens {
        return Err(RegistryError);
      }
      ghost var before, identity := files, nextIdentity;
      var saved := SaveKey(fileName, data);
      assert files - {fileName} == before;
      if !saved {
        var removed := RemoveIfExists(fileName);
        return Err(if removed then RegistryError else SaveCleanupFailed);
      }
      var reopened, identified, hashed := schedule(clock), schedule(clock + 1), schedule(clock + 2);
      clock := clock + 3;
      if reopened != Succeeds || identified != Succeeds || hashed != Succeeds {
        var removed := RemoveIfExists(fileName);
        return Err(if removed then StorageError else PostSaveCleanupFailed);
      }
      return Ok(Metadata(fileName, Sha256(files[fileName].content), files[fileName].identity));
    }

    /** The metadata half of `create_registry_snapshot`. */
    method WriteMetadata(m: Metadata, ghost before: Files) returns (r: Result<()>)
      requires m.snapshotFileName !in before && m.snapshotFileName in files && files - {m.snapshotFileName} == before
      modifies this`files, this`clock, this`nextIdentity, this`leaks, this`silent, this`failedCleanups
      ensures clock > old(clock) && leaks >= old(leaks) && silent >= old(silent)
      ensures r.Ok? ==> MetadataName(m.snapshotFileName) !in before && leaks == old(leaks) && silent == old(silent)
      ensures r.Ok? ==> MetadataName(m.snapshotFileName) in files &&
                        files[MetadataName(m.snapshotFileName)].content == Json(m) &&
                        files - {MetadataName(m.snapshotFileName)} == old(files)
      ensures r.Err? ==> (files == before <==> leaks == old(leaks)) && AddsAtMost(before, files, m.snapshotFileName)
      ensures r.Err? ==> (files != before && !ReportsCleanupFailure(r.error) <==>
                          silent > old(silent) && leaks == old(leaks) + 1)
      ensures SilentFault(old(clock)) && MetadataName(m.snapshotFileName) !in before ==>
                r == Err(StorageError) && files != before && clock == old(clock) + 4
      ensures QuietBetween(schedule, old(clock), clock) ==>
                (r.Ok? <==> MetadataName(m.snapshotFileName) !in before) && (r.Err? ==> r == Err(StorageError))
      ensures r.Ok? ==> QuietBetween(schedule, old(clock), clock)
      ensures failedCleanups - old(failedCleanups) >= silent - old(silent)
      ensures r.Ok? ==> failedCleanups == old(failedCleanups)
      ensures r.Err? ==> (ReportsCleanupFailure(r.error) <==>
                          failedCleanups - old(failedCleanups) > silent - old(silent))
    {
      hide AddsAtMost;
      var name := MetadataName(m.snapshotFileName);
      var made := CreateFile(name);
      ghost var created := files;
      MetadataAdds(before, old(files), created, m.snapshotFileName);
      if made.Err? {
        var clean := CleanUp(m.snapshotFileName, false, before);
        HiveGone(before, old(files), created, files, m.snapshotFileName);
        return Err(if clean then made.error else CleanupFailed);
      }
      var written := schedule(clock) == Succeeds;
      clock := clock + 1;
      if !written {
        var clean := CleanUp(m.snapshotFileName, true, before);
        BothGone(before, old(files), created, files, m.snapshotFileName);
        return Err(if clean then StorageError else CleanupFailed);
      }
      files := files[name := files[name].(content := Json(m))];
      return Ok(());
    }

    /** The closure of `create_registry_snapshot`. */
    method Operate(fileName: string, data: nat) returns (r: Result<Metadata>)
      modifies this`files, this`clock, this`nextIdentity, this`leaks, this`silent, this`failedCleanups
      ensures clock > old(clock) && leaks >= old(leaks) && silent >= old(silent)
      ensures r.Ok? ==> leaks == old(leaks) && silent == old(silent) && IsPair(old(files), files, fileName, data, r.value)
      ensures r.Err? ==> (files == old(files) <==> leaks == old(leaks)) && AddsAtMost(old(files), files, fileName)
      ensures r.Err? ==> (files != old(files) && !ReportsCleanupFailure(r.error) <==>
                          silent > old(silent) && leaks == old(leaks) + 1)
      ensures QuietBetween(schedule, old(clock), old(clock) + 6) && SilentFault(old(clock) + 6) &&
              fileName !in old(files) && MetadataName(fileName) !in old(files) ==>
                r == Err(StorageError) && files != old(files) && clock == old(clock) + 10
      ensures QuietBetween(schedule, old(clock), clock) ==>
                (r.Ok? <==> fileName !in old(files) && MetadataName(fileName) !in old(files)) &&
                (r.Err? ==> r == Err(if fileName in old(files) then Collision else StorageError))
      ensures r.Ok? ==> QuietBetween(schedule, old(clock), clock)
      ensures failedCleanups - old(failedCleanups) >= silent - old(silent)
      ensures r.Ok? ==> failedCleanups == old(failedCleanups)
      ensures r.Err? ==> (ReportsCleanupFailure(r.error) <==>
                          failedCleanups - old(failedCleanups) > silent - old(silent))
    {
      r := SaveHive(fileName, data);
      if r.Err? {
        return;
      }
      assert files - {fileName} == old(files) && fileName != MetadataName(fileName);
      ghost var saved := files;
      var written := WriteMetadata(r.value, old(files));
      if written.Err? {
        return Err(written.error);
      }
      assert fileName in files && files[fileName] == saved[fileName];
    }

    /** `finish_snapshot_operation` */
    method Finish(operation: Result<Metadata>, restored: bool, fileName: string, data: nat, ghost before: Files)
      returns (r: Result<Metadata>)
      requires operation.Ok? ==> IsPair(before, files, fileName, data, operation.value)
      modifies this`files, this`clock, this`leaks, this`failedCleanups
      ensures clock >= old(clock) && leaks >= old(leaks)
      ensures r.Ok? <==> operation.Ok? && restored
      ensures r.Ok? ==> clock == old(clock)
      ensures r.Ok? || operation.Err? ==> files == old(files) && leaks == old(leaks)
      ensures r.Ok? || (operation.Err? && restored) ==> r == operation
      ensures operation.Err? && !restored ==> r == Err(OperationAndPrivilegeRestoreFailed(operation.error))
      ensures operation.Ok? && !restored ==>
                r == Err(if leaks == old(leaks) then PrivilegeError else PrivilegeRestoreCleanupFailed)
      ensures operation.Err? ==> (ReportsCleanupFailure(r.error) <==> ReportsCleanupFailure(operation.error))
      ensures r.Err? && operation.Ok? ==>
                (files == before <==> leaks == old(leaks)) && (files != before ==> ReportsCleanupFailure(r.error)) &&
                AddsAtMost(before, files, fileName)
      ensures failedCleanups >= old(failedCleanups)
      ensures r.Ok? || operation.Err? ==> failedCleanups == old(failedCleanups)
      ensures operation.Ok? && r.Err? ==> (ReportsCleanupFailure(r.error) <==> failedCleanups > old(failedCleanups))
    {
      match operation
      case Ok(m) =>
        if restored {
          return operation;
        }
        PairAdds(before, files, fileName, data, m);
        var clean := CleanUp(fileName, true, before);
        assert clean ==> files == before;
        return Err(if clean then PrivilegeError else PrivilegeRestoreCleanupFailed);
      case Err(error) =>
        return Err(if restored then error else OperationAndPrivilegeRestoreFailed(error));
    }

    /** `create_registry_snapshot` */
    method CreateRegistrySnapshot(fileName: string, data: nat) returns (r: Result<Metadata>)
      requires HasSuffix(fileName, ".hiv")
      modifies this`files, this`clock, this`nextIdentity, this`leaks, this`silent, this`failedCleanups
      ensures r.Ok? ==> IsPair(old(files), files, fileName, data, r.value)
      ensures r.Ok? ==> Accepted(files, MetadataName(fileName), r.value)
      ensures r.Ok? ==> fileName in files && files[fileName].content == Hive(data) &&
                        fileName + ".json" in files && files[fileName + ".json"].content == Json(r.value)
      ensures AddsAtMost(old(files), files, fileName)
      ensures r.Err? ==> (files == old(files) <==> leaks == old(leaks))
      // A cleanup failure is reported exactly when a cleanup step failed whose outcome is looked at.
      ensures r.Err? ==> (ReportsCleanupFailure(r.error) <==>
                          failedCleanups - old(failedCleanups) > silent - old(silent))
      // Something is left behind without a report exactly when the discarded
      // deletion failed and no other one did.
      ensures r.Err? && files != old(files) && !ReportsCleanupFailure(r.error) <==>
              silent > old(silent) && leaks == old(leaks) + 1
      ensures Sound(old(files)) && leaks == old(leaks) ==> Sound(files)
      // The unreported leak does happen.
      ensures QuietBetween(schedule, old(clock), old(clock) + 8) && SilentFault(old(clock) + 8) &&
              schedule(old(clock) + 12) == Succeeds &&
              fileName !in old(files) && MetadataName(fileName) !in old(files) ==>
                r.Err? && files != old(files) && !ReportsCleanupFailure(r.error)
      ensures QuietBetween(schedule, old(clock), clock) ==>
                (r.Ok? <==> fileName !in old(files) && MetadataName(fileName) !in old(files)) &&
                (r.Err? ==> r == Err(if fileName in old(files) then Collision else StorageError))
      ensures r.Ok? ==> QuietBetween(schedule, old(clock), clock)
    {
      hide Sound, IsPair, Accepted, AddsAtMost, SilentFault, ReportsCleanupFailure, HasSuffix;
      PlainErrors();
      NothingAdded(files, fileName);
      var locked := schedule(clock) == Succeeds;
      clock := clock + 1;
      if !locked {
        return Err(StorageError);
      }
      var privileged := schedule(clock) == Succeeds;
      clock := clock + 1;
      if !privileged {
        return Err(PrivilegeError);
      }
      var operation := Operate(fileName, data);
      var restored := schedule(clock) == Succeeds;
      clock := clock + 1;
      r := Finish(operation, restored, fileName, data, old(files));
      if r.Ok? {
        PairHas(old(files), files, fileName, data, r.value);
        PairAdds(old(files), files, fileName, data, r.value);
        PairIsSound(old(files), files, fileName, data, r.value);
      }
    }

    /** `validate_inventory_entry` */
    method ValidateInventoryEntry(metadataFile: string, m: Metadata) returns (r: Result<()>)
      modifies this`clock
      ensures clock >= old(clock)
      ensures r.Ok? ==> Accepted(files, metadataFile, m)
      ensures QuietBetween(schedule, old(clock), clock) ==> (r.Ok? <==> Accepted(files, metadataFile, m))
      ensures r.Ok? ==> QuietBetween(schedule, old(clock), clock)
    {
      if !HasSuffix(m.snapshotFileName, ".hiv") || metadataFile != MetadataName(m.snapshotFileName) {
        return Err(InvalidInventory);
      }
      var opens, identified := schedule(clock), schedule(clock + 1);
      clock := clock + 2;
      if opens != Succeeds || m.snapshotFileName !in files || identified != Succeeds {
        return Err(InvalidInventory);
      }
      if files[m.snapshotFileName].identity != m.identity {
        return Err(InvalidInventory);
      }
      var hashed := schedule(clock) == Succeeds;
      clock := clock + 1;
      if !hashed || Sha256(files[m.snapshotFileName].content) != m.digest {
        return Err(InvalidInventory);
      }
      return Ok(());
    }
  }

  /** The hive and the metadata describing it were added, and nothing else. */
  ghost predicate IsPair(before: Files, after: Files, fileName: string, data: nat, m: Metadata) {
    fileName !in before && MetadataName(fileName) !in before &&
    fileName in after && MetadataName(fileName) in after &&
    after - {fileName, MetadataName(fileName)} == before &&
    after[fileName].content == Hive(data) && after[MetadataName(fileName)].content == Json(m) &&
    m == Metadata(fileName, Sha256(Hive(data)), after[fileName].identity)
  }

  lemma PairHas(before: Files, after: Files, fileName: string, data: nat, m: Metadata)
    requires IsPair(before, after, fileName, data, m)
    ensures fileName in after && after[fileName].content == Hive(data)
    ensures fileName + ".json" in after && after[fileName + ".json"].content == Json(m)
  {
  }

  lemma PlainErrors()
    ensures !ReportsCleanupFailure(StorageError) && !ReportsCleanupFailure(PrivilegeError)
  {
  }

  lemma MetadataAdds(before: Files, saved: Files, created: Files, fileName: string)
    requires fileName !in before && fileName in saved && saved - {fileName} == before
    requires created == saved ||
             (MetadataName(fileName) !in saved && MetadataName(fileName) in created &&
              created == saved[MetadataName(fileName) := created[MetadataName(fileName)]])
    ensures AddsAtMost(before, created, fileName) && MetadataName(fileName) != fileName
    ensures MetadataName(fileName) in saved <==> MetadataName(fileName) in before
    ensures created - {MetadataName(fileName)} == saved - {MetadataName(fileName)}
    ensures MetadataName(fileName) !in before ==> saved - {MetadataName(fileName)} == saved
    ensures created != saved ==> MetadataName(fileName) in created && MetadataName(fileName) !in before
  {
  }

  lemma HiveGone(before: Files, saved: Files, created: Files, after: Files, fileName: string)
    requires fileName !in before && fileName in saved && saved - {fileName} == before
    requires created == saved ||
             (MetadataName(fileName) !in saved && MetadataName(fileName) in created &&
              created == saved[MetadataName(fileName) := created[MetadataName(fileName)]])
    ensures after == created - {fileName} - {} ==> (after == before <==> created == saved)
  {
    assert created - {fileName} - {} == created - {fileName};
    if created != saved {
      assert MetadataName(fileName) in created - {fileName};
    }
  }

  lemma BothGone(before: Files, saved: Files, created: Files, after: Files, fileName: string)
    requires fileName !in before && fileName in saved && saved - {fileName} == before && MetadataName(fileName) !in saved
    requires created - {MetadataName(fileName)} == saved
    ensures after == created - {fileName} - {MetadataName(fileName)} ==> after == before
  {
    assert created - {fileName} - {MetadataName(fileName)} == created - {MetadataName(fileName)} - {fileName};
  }

  lemma NothingAdded(files: Files, fileName: string)
    ensures AddsAtMost(files, files, fileName)
  {
  }

  lemma PairAdds(before: Files, after: Files, fileName: string, data: nat, m: Metadata)
    requires IsPair(before, after, fileName, data, m)
    ensures AddsAtMost(before, after, fileName) && fileName !in before && MetadataName(fileName) !in before
    ensures fileName in after && MetadataName(fileName) in after
    ensures after - {fileName} - {MetadataName(fileName)} == before
    ensures HasSuffix(fileName, ".hiv") ==> Accepted(after, MetadataName(fileName), m)
  {
    var rest := after - {fileName, MetadataName(fileName)};
    assert forall n :: n in before ==> n in rest;
    assert after - {fileName} - {MetadataName(fileName)} == rest;
  }

  /** A new pair keeps the inventory listable: no older entry refers to its files. */
  lemma PairIsSound(before: Files, after: Files, fileName: string, data: nat, m: Metadata)
    requires IsPair(before, after, fileName, data, m) && HasSuffix(fileName, ".hiv")
    ensures Sound(before) ==> Sound(after)
  {
    PairAdds(before, after, fileName, data, m);
    assert !HasSuffix(fileName, ".json") by { assert fileName[|fileName| - 1] == ".hiv"[3]; }
    if Sound(before) {
      forall n | n in after && HasSuffix(n, ".json")
        ensures after[n].content.Json? && Accepted(after, n, after[n].content.metadata)
      {
        if n != MetadataName(fileName) {
          assert n in before;
        }
      }
    }
  }
}
