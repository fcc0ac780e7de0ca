// The verified copy with its progress figures, cancellation polls and rollback:
// `ProfileMigrationEngine::execute_migration_with_cancel` and `copy_tree_verified`
// of crates/core-profiles/src/migration.rs.

module Migration {
  import opened Words
  import opened Faults
  import opened Names
  import opened FileTree
  import opened Manifest
  import opened CreatedObjects
  import opened MigrationSpec

  datatype Error =
    | InvalidPlan
    | DestinationExists
    | Cancelled
    | VerificationFailed
    | Security
    | SecurityRollback        // a security error that names a failed deletion
    | ReparsePoint
    | IoError
    | AuditError

  datatype Result<+T> = Ok(value: T) | Err(error: Error)

  /** How a whole migration ends. */
  datatype Ending = Completed(receipt: Receipt) | Failed(error: Error) | RollbackFailed(operationError: Error)

  /** The caller is told that something may have been left behind. */
  predicate ReportsLeftover(e: Ending) {
    e.RollbackFailed? || e == Failed(SecurityRollback)
  }

  datatype Event =
    MigrationStarted | MigrationWarning | MigrationSuccess | MigrationRolledBack | MigrationRollbackFailed

  datatype Phase = Enumerating | Copying | Verifying | Finalizing | RollingBack

  datatype Progress = Progress(phase: Phase, path: Option<Path>, files: nat, bytes: nat)

  const COPY_BUFFER_BYTES: nat := 1024 * 1024

  /** How many bytes a read into the copy buffer returns; `wish` is the system's choice. */
  function ReadCount(wish: nat, remaining: nat): (n: nat)
    ensures n <= remaining && n <= 1048576 && (remaining > 0 ==> n > 0)
    ensures wish >= 1048576 ==> n == if remaining < 1048576 then remaining else 1048576
  {
    var most := if remaining < COPY_BUFFER_BYTES then remaining else COPY_BUFFER_BYTES;
    if wish > most then most else if wish == 0 && most > 0 then 1 else wish
  }

  /** Reports never go back, and each shows the saturated number of bytes that had
      been moved, read and written, when it was made (`movedAt`). */
  ghost predicate Honest(progress: seq<Progress>, movedAt: seq<nat>, moved: nat, files: nat) {
    |progress| == |movedAt| &&
    (forall i :: 0 <= i < |progress| ==>
       progress[i].bytes == Sat(movedAt[i]) && movedAt[i] <= moved && progress[i].files <= files) &&
    (forall i, j :: 0 <= i < j < |progress| ==>
       movedAt[i] <= movedAt[j] && progress[i].bytes <= progress[j].bytes && progress[i].files <= progress[j].files)
  }

  lemma HonestLater(progress: seq<Progress>, movedAt: seq<nat>, moved: nat, files: nat, moved': nat, files': nat)
    requires Honest(progress, movedAt, moved, files) && moved <= moved' && files <= files'
    ensures Honest(progress, movedAt, moved', files')
  {
  }

  lemma HonestReport(progress: seq<Progress>, movedAt: seq<nat>, moved: nat, files: nat, p: Progress)
    requires Honest(progress, movedAt, moved, files) && p.bytes == Sat(moved) && p.files == files
    ensures Honest(progress + [p], movedAt + [moved], moved, files)
  {
  }

  /** The byte figures of the transaction. */
  ghost predicate Ledger(observed: nat, manifest: seq<Line>, moved: nat) {
    observed == Sat(moved) && Sum(manifest) <= moved
  }

  ghost predicate Tracking(base: Tree, fs: Tree, target: Path, created: seq<Path>) {
    Tracked(base, fs, target, created) && target !in base && Closed(base)
  }

  ghost predicate Clean(base: Tree, fs: Tree, target: Path, created: seq<Path>) {
    Tracking(base, fs, target, created) && Registered(base, fs, created)
  }

  /** What an interrupted step leaves: every new entry can still be accounted for. */
  ghost predicate Safe(base: Tree, fs: Tree, target: Path, created: seq<Path>) {
    Tracking(base, fs, target, created) && Held(base, fs, target, created)
  }

  /** Where the next object may be created. */
  ghost predicate Placed(target: Path, created: seq<Path>, p: Path) {
    if created == [] then p == target else Inside(p, created) && target <= p
  }

  class MigrationEngine {
    // The environment: the source profile, what the system answers, when the user cancels.
    const source: Tree
    const listing: Listing
    const schedule: Schedule
    const cancelled: nat -> bool
    const wishes: nat -> nat
    const disk: (nat, seq<Byte>) -> seq<Byte>
    const handlesOverlap: bool
    const target: Path

    var fs: Tree
    var audit: seq<Event>
    var clock: nat
    var polls: nat

    // `CopyTransaction`
    var created: seq<Path>
    var manifest: seq<Line>
    var observed: nat
    var lastPath: Option<Path>

    var progress: seq<Progress>
    ghost var movedAt: seq<nat>
    ghost var moved: nat
    ghost var base: Tree
    /** Deletions of a created object that failed. */
    ghost var leaks: nat

    /** What every file system guarantees about the source. */
    ghost predicate Environment() {
      Closed(source) && [] in source && source[[]] == Directory && Lists(listing, source)
    }

    /** No poll numbered `from` up to `upTo` finds the operation cancelled. */
    ghost predicate Uncancelled(from: nat, upTo: nat) {
      forall i: nat :: from <= i < upTo ==> !cancelled(i)
    }

    /** Writes leave what was written. */
    ghost predicate Faithful() {
      forall i, bytes :: disk(i, bytes) == bytes
    }

    ghost predicate Undisturbed(fromClock: nat, upToClock: nat, fromPolls: nat, upToPolls: nat) {
      QuietBetween(schedule, fromClock, upToClock) && Uncancelled(fromPolls, upToPolls) && Faithful()
    }

    /** Why an undisturbed operation may fail, and with which error: the directories
        overlap, a reparse point or a file is in the way, or a file is too long. */
    ghost predicate Explained(error: Error) {
      match error
      case InvalidPlan => handlesOverlap
      case ReparsePoint => exists q :: q in source && source[q] == Reparse
      case Security => exists q :: q in source && source[q].File?
      case VerificationFailed => exists q :: q in source && source[q].File? && |source[q].content| > U64_MAX
      case _ => false
    }

    lemma LinkExplains(q: Path)
      requires q in source
      ensures source[q] == Reparse ==> Explained(ReparsePoint)
      ensures source[q].File? ==> Explained(Security)
      ensures source[q].File? && !CanCopy(source[q]) ==> Explained(VerificationFailed)
    {
    }

    method Log(event: Event) returns (ok: bool)
      modifies this`audit, this`clock
      ensures clock == old(clock) + 1 && (ok <==> schedule(old(clock)) == Succeeds)
      ensures audit == if ok then old(audit) + [event] else old(audit)
      ensures Successes(audit) == Successes(old(audit)) + if ok && event == MigrationSuccess then 1 else 0
    {
      ok, clock := schedule(clock) == Succeeds, clock + 1;
      if ok {
        audit := audit + [event];
      }
    }

    /** `copied_bytes`: the larger of the observed figure and the recorded sum. */
    method CopiedBytes() returns (bytes: nat)
      requires Ledger(observed, manifest, moved)
      ensures bytes == Sat(moved)
    {
      var total := 0;
      for i := 0 to |manifest|
        invariant total == Sat(Sum(manifest[..i]))
      {
        assert manifest[..i + 1][..i] == manifest[..i];
        total := SaturatingAdd(total, manifest[i].size);
      }
      assert manifest[..|manifest|] == manifest;
      bytes := if observed > total then observed else total;
    }

    /** `receipt` */
    method MakeReceipt() returns (receipt: Receipt)
      ensures receipt == ReceiptOf(manifest)
    {
      hide LineTokens;
      var tokens, bytes := [], 0;
      for i := 0 to |manifest|
        invariant tokens == Tokens(manifest[..i]) && bytes == Sat(Sum(manifest[..i]))
      {
        assert manifest[..i + 1][..i] == manifest[..i] && manifest[..i + 1] == manifest[..i] + [manifest[i]];
        TokensAppend(manifest[..i], manifest[i]);
        tokens := tokens + LineTokens(manifest[i]);
        bytes := SaturatingAdd(bytes, manifest[i].size);
      }
      assert manifest[..|manifest|] == manifest;
      receipt := Receipt(|manifest|, bytes, OfManifest(tokens));
    }

    /** `on_progress` */
    method Report(phase: Phase, path: Option<Path>, bytes: nat)
      requires Honest(progress, movedAt, moved, |manifest|) && bytes == Sat(moved)
      modifies this`progress, this`movedAt
      ensures Honest(progress, movedAt, moved, |manifest|) && progress == old(progress) + [Progress(phase, path, |manifest|, bytes)]
      ensures movedAt == old(movedAt) + [moved]
    {
      HonestReport(progress, movedAt, moved, |manifest|, Progress(phase, path, |manifest|, bytes));
      progress := progress + [Progress(phase, path, |manifest|, bytes)];
      movedAt := movedAt + [moved];
    }

    // ----- created objects -----

    /** An object is created, its handle cannot be prepared and its deletion fails. */
    ghost predicate Escapes(at: nat) {
      schedule(at) == FailsAfter && schedule(at + 1) != Succeeds
    }

    /** `create_directory`, `create_file`: an object whose handle cannot be prepared
        is deleted again, and escapes only if that deletion fails. */
    method Create(p: Path, n: Node) returns (r: Result<()>)
      requires Clean(base, fs, target, created) && Placed(target, created, p)
      modifies this`fs, this`created, this`clock, this`leaks
      ensures Safe(base, fs, target, created) && clock > old(clock) && old(created) <= created
      ensures leaks >= old(leaks) && (Clean(base, fs, target, created) <==> leaks == old(leaks))
      ensures r == Err(SecurityRollback) ==> leaks > old(leaks)
      ensures r.Ok? ==> Clean(base, fs, target, created) && created == old(created) + [p]
      ensures r.Ok? ==> p !in old(fs) && fs == old(fs)[p := n]
      ensures r.Err? ==> created == old(created) && (fs == old(fs) || fs == old(fs)[p := n])
      ensures r.Err? && fs != old(fs) <==> p !in old(fs) && Escapes(old(clock))
      ensures r.Err? && fs != old(fs) ==> r.error == SecurityRollback && clock == old(clock) + 2
      ensures r.Err? && fs == old(fs) ==> r.error != SecurityRollback
      ensures QuietBetween(schedule, old(clock), clock) ==> (r.Ok? <==> p !in old(fs)) && (r.Err? ==> fs == old(fs))
      ensures r != Err(Cancelled)
      ensures r.Ok? ==> QuietBetween(schedule, old(clock), clock)
      ensures QuietBetween(schedule, old(clock), clock) ==> leaks == old(leaks)
      ensures r == Err(DestinationExists) <==> schedule(old(clock)) != FailsBefore && p in old(fs)
    {
      hide Clean, Safe, Placed;
      CleanIsSafe(base, fs, target, created);
      var outcome := schedule(clock);
      clock := clock + 1;
      if outcome == FailsBefore {
        return Err(Security);
      }
      if p in fs {
        return Err(DestinationExists);
      }
      PushClean(base, fs, target, created, p, n);
      assert fs[p := n] != fs;
      if outcome == Succeeds {
        fs, created := fs[p := n], created + [p];
        CleanIsSafe(base, fs, target, created);
        return Ok(());
      }
      var cleaned := schedule(clock) == Succeeds;
      clock := clock + 1;
      if !cleaned {
        fs, leaks := fs[p := n], leaks + 1;
        return Err(SecurityRollback);
      }
      return Err(Security);
    }

    /** `open_or_create_directory` */
    method OpenOrCreateDirectory(p: Path) returns (r: Result<()>)
      requires Clean(base, fs, target, created) && Placed(target, created, p) && target < p
      modifies this`fs, this`created, this`clock, this`leaks
      ensures Safe(base, fs, target, created) && clock > old(clock) && old(created) <= created
      ensures leaks >= old(leaks) && (Clean(base, fs, target, created) <==> leaks == old(leaks))
      ensures r == Err(SecurityRollback) ==> leaks > old(leaks)
      ensures r.Ok? ==> Clean(base, fs, target, created) && p in created
      ensures r.Ok? ==> p in fs && fs[p] == Directory && fs == old(fs)[p := Directory]
      ensures QuietBetween(schedule, old(clock), clock) && p !in old(fs) ==> r.Ok?
      ensures r != Err(Cancelled)
      ensures r.Ok? ==> QuietBetween(schedule, old(clock), clock)
      ensures QuietBetween(schedule, old(clock), clock) ==> leaks == old(leaks)
    {
      hide Clean, Safe, Placed;
      CleanIsSafe(base, fs, target, created);
      var found := schedule(clock) == Succeeds;
      clock := clock + 1;
      if !found {
        return Err(Security);
      }
      if p in fs {
        if fs[p] != Directory {
          return Err(if fs[p] == Reparse then ReparsePoint else Security);
        }
        BelowTarget(base, fs, target, created, p);
        return Ok(());
      }
      r := Create(p, Directory);
    }

    // ----- one file -----

    /** One round of the copy loop after its read: what reaches the disk is up to the disk. */
    method WriteChunk(q: Path, d: Path, chunk: seq<Byte>, figure: nat) returns (ok: bool)
      requires Clean(base, fs, target, created) && d in created && d in fs && fs[d].File?
      requires Ledger(observed, manifest, moved) && Honest(progress, movedAt, moved, |manifest|)
      requires figure == Sat(moved + |chunk|)
      modifies this`fs, this`observed, this`lastPath, this`progress, this`movedAt, this`moved, this`clock
      ensures Clean(base, fs, target, created) && clock > old(clock) && d in fs && fs[d].File?
      ensures Ledger(observed, manifest, moved) && Honest(progress, movedAt, moved, |manifest|)
      ensures moved == old(moved) + (if ok then |chunk| else 0) && OnlyAt(old(fs), fs, d)
      ensures Faithful() ==> fs[d].content == old(fs)[d].content + chunk
      ensures QuietBetween(schedule, old(clock), clock) ==> ok
      ensures ok ==> QuietBetween(schedule, old(clock), clock)
      ensures progress == if ok then old(progress) + [Progress(Copying, Some(q), |manifest|, figure)] else old(progress)
      ensures lastPath == if ok then Some(q) else old(lastPath)
    {
      hide Clean, Honest, Sat;
      var content := fs[d].content + disk(clock, chunk);
      RewriteClean(base, fs, target, created, d, File(content));
      HonestLater(progress, movedAt, moved, |manifest|, moved + |chunk|, |manifest|);
      fs := fs[d := File(content)];
      ok := schedule(clock) == Succeeds;
      clock := clock + 1;
      if ok {
        moved, observed, lastPath := moved + |chunk|, figure, Some(q);
        Report(Copying, Some(q), figure);
      }
    }

    /** The poll and the read at the head of both copy loops. */
    method NextRead(remaining: nat) returns (count: Result<nat>)
      modifies this`polls, this`clock
      ensures polls == old(polls) + 1 && (count == Err(Cancelled) <==> cancelled(old(polls)))
      ensures clock == if cancelled(old(polls)) then old(clock) else old(clock) + 1
      ensures count.Ok? <==> !cancelled(old(polls)) && schedule(old(clock)) == Succeeds
      ensures count.Err? ==> count.error in {Cancelled, IoError}
      ensures count.Ok? ==> count.value <= remaining && (count.value == 0 <==> remaining == 0)
    {
      var stop := cancelled(polls);
      polls := polls + 1;
      if stop {
        return Err(Cancelled);
      }
      var ok := schedule(clock) == Succeeds;
      clock := clock + 1;
      return if ok then Ok(ReadCount(wishes(clock), remaining)) else Err(IoError);
    }

    /** The copy loop of `copy_file_verified`: what is hashed is what was read. */
    method CopyChunks(q: Path, d: Path) returns (r: Result<Streamed>)
      requires q in source && source[q].File? && d in created && d in fs && fs[d] == File([])
      requires Clean(base, fs, target, created)
      requires Ledger(observed, manifest, moved) && Honest(progress, movedAt, moved, |manifest|)
      modifies this`fs, this`observed, this`lastPath, this`progress, this`movedAt, this`moved, this`polls, this`clock
      ensures Clean(base, fs, target, created) && clock >= old(clock) && polls >= old(polls)
      ensures Ledger(observed, manifest, moved) && Honest(progress, movedAt, moved, |manifest|)
      ensures r != Err(SecurityRollback)
      ensures d in fs && fs[d].File? && OnlyAt(old(fs), fs, d)
      ensures r.Ok? ==> moved == old(moved) + |source[q].content| && Uncancelled(old(polls), polls)
      ensures r.Ok? ==> r.value == Streamed(Sat(|source[q].content|), OfFile(source[q].content))
      ensures Undisturbed(old(clock), clock, old(polls), polls) ==> r.Ok? && fs[d] == source[q]
      ensures r == Err(Cancelled) <==> !Uncancelled(old(polls), polls)
      ensures r.Ok? ==> QuietBetween(schedule, old(clock), clock)
      ensures OnlyCopying(old(progress), progress, q)
    {
      hide Clean, Honest, Ledger, Faithful, Sat, SaturatingAdd, OnlyAt, ReadSoFar, ReadCount, Sum, OnlyCopying;
      SameAt(fs, d);
      NotCopying(progress, q);
      var content := source[q].content;
      var hashed, copied: nat := [], 0;
      var completed := CopiedBytes();
      NoneCopied(content);
      while true
        invariant Clean(base, fs, target, created) && clock >= old(clock) && polls >= old(polls)
        invariant Ledger(observed, manifest, moved) && Honest(progress, movedAt, moved, |manifest|)
        invariant |hashed| <= |content| && ReadSoFar(content, hashed, copied) && moved == old(moved) + |hashed|
        invariant d in fs && fs[d].File? && OnlyAt(old(fs), fs, d)
        invariant Uncancelled(old(polls), polls) && QuietBetween(schedule, old(clock), clock)
        invariant Faithful() ==> fs[d].content == hashed
        invariant OnlyCopying(old(progress), progress, q)
        decreases |content| - |hashed|
      {
        var count := NextRead(|content| - |hashed|);
        if count.Err? {
          return Err(count.error);
        }
        if count.value == 0 {
          break;
        }
        var chunk := content[|hashed|..|hashed| + count.value];
        ReadMore(content, hashed, copied, old(moved), chunk);
        ghost var before := fs;
        var figure := SaturatingAdd(completed, SaturatingAdd(copied, count.value));
        CopyingMore(old(progress), progress, q, Progress(Copying, Some(q), |manifest|, figure));
        var ok := WriteChunk(q, d, chunk, figure);
        WrittenAgain(old(fs), before, fs, d);
        if !ok {
          return Err(IoError);
        }
        hashed := hashed + chunk;
        copied := SaturatingAdd(copied, count.value);
      }
      AllRead(content, hashed, copied);
      r := Ok(Streamed(copied, OfFile(hashed)));
    }

    /** `sha256_file` */
    method HashFile(d: Path) returns (r: Result<Digest>)
      requires d in fs && fs[d].File?
      modifies this`polls, this`clock
      ensures clock >= old(clock) && polls >= old(polls)
      ensures r != Err(SecurityRollback)
      ensures r.Ok? ==> r.value == OfFile(fs[d].content) && Uncancelled(old(polls), polls)
      ensures Undisturbed(old(clock), clock, old(polls), polls) ==> r.Ok?
      ensures r == Err(Cancelled) <==> !Uncancelled(old(polls), polls)
      ensures r.Ok? ==> QuietBetween(schedule, old(clock), clock)
      ensures r != Err(VerificationFailed)
    {
      hide Faithful;
      var content, hashed := fs[d].content, [];
      while true
        invariant clock >= old(clock) && polls >= old(polls) && Uncancelled(old(polls), polls)
        invariant QuietBetween(schedule, old(clock), clock)
        invariant |hashed| <= |content| && hashed == content[..|hashed|]
        decreases |content| - |hashed|
      {
        var count := NextRead(|content| - |hashed|);
        if count.Err? {
          return Err(count.error);
        }
        if count.value == 0 {
          break;
        }
        hashed := hashed + content[|hashed|..|hashed| + count.value];
      }
      r := Ok(OfFile(hashed));
    }

    /** The verification at the end of `copy_file_verified`. */
    method VerifyCopy(q: Path, d: Path, streamed: Streamed) returns (r: Result<()>)
      requires d in fs && fs[d].File?
      requires Ledger(observed, manifest, moved) && Honest(progress, movedAt, moved, |manifest|)
      modifies this`progress, this`movedAt, this`polls, this`clock
      ensures Honest(progress, movedAt, moved, |manifest|) && clock >= old(clock) && polls >= old(polls)
      ensures r != Err(SecurityRollback)
      ensures r.Ok? ==> streamed == Streamed(|fs[d].content|, OfFile(fs[d].content)) && Uncancelled(old(polls), polls)
      ensures Undisturbed(old(clock), clock, old(polls), polls) ==>
                (r.Ok? <==> streamed == Streamed(|fs[d].content|, OfFile(fs[d].content)))
      ensures r == Err(Cancelled) <==> !Uncancelled(old(polls), polls)
      ensures r.Ok? ==> QuietBetween(schedule, old(clock), clock)
      ensures r.Ok? ==> progress == old(progress) + [Progress(Verifying, Some(q), |manifest|, Sat(moved))]
      ensures r == Err(VerificationFailed) ==> streamed != Streamed(|fs[d].content|, OfFile(fs[d].content))
      ensures Undisturbed(old(clock), clock, old(polls), polls) && r.Err? ==> r.error == VerificationFailed
    {
      hide Honest, Faithful, Ledger, Sat;
      var stop := cancelled(polls);
      polls := polls + 1;
      if stop {
        return Err(Cancelled);
      }
      var flushed, synchronized, sought := schedule(clock), schedule(clock + 1), schedule(clock + 2);
      clock := clock + 3;
      if flushed != Succeeds || synchronized != Succeeds || sought != Succeeds {
        return Err(IoError);
      }
      var bytes := CopiedBytes();
      Report(Verifying, Some(q), bytes);
      var digest := HashFile(d);
      if digest.Err? {
        return Err(digest.error);
      }
      var measured := schedule(clock) == Succeeds;
      clock := clock + 1;
      if !measured {
        return Err(IoError);
      }
      if streamed.digest != digest.value || streamed.copied != |fs[d].content| {
        return Err(VerificationFailed);
      }
      return Ok(());
    }

    /** The end of `copy_file_verified`: a verified copy gets its manifest line. */
    method VerifyAndRecord(q: Path, streamed: Streamed) returns (r: Result<()>)
      requires q in source && source[q].File? && target + q in fs && fs[target + q].File?
      requires streamed == Streamed(Sat(|source[q].content|), OfFile(source[q].content))
      requires Ledger(observed, manifest, moved) && Honest(progress, movedAt, moved, |manifest|)
      requires Sum(manifest) + |source[q].content| == moved
      modifies this`manifest, this`progress, this`movedAt, this`polls, this`clock
      ensures clock >= old(clock) && polls >= old(polls) && r != Err(SecurityRollback)
      ensures Ledger(observed, manifest, moved) && Honest(progress, movedAt, moved, |manifest|)
      ensures r.Ok? ==> fs[target + q] == source[q] && CanCopy(source[q]) && Sum(manifest) == moved
      ensures r.Ok? ==> manifest == old(manifest) + [FileLine(q, source[q].content)] && Uncancelled(old(polls), polls)
      ensures Undisturbed(old(clock), clock, old(polls), polls) ==>
                (r.Ok? <==> fs[target + q] == source[q] && CanCopy(source[q]))
      ensures r == Err(Cancelled) <==> !Uncancelled(old(polls), polls)
      ensures r.Ok? ==> QuietBetween(schedule, old(clock), clock)
      ensures r.Ok? ==> progress == old(progress) + [Progress(Verifying, Some(q), |old(manifest)|, Sat(moved))]
      ensures r == Err(VerificationFailed) ==> fs[target + q] != source[q] || !CanCopy(source[q])
      ensures Undisturbed(old(clock), clock, old(polls), polls) && r.Err? ==> r.error == VerificationFailed
    {
      hide Honest, Ledger, Faithful, Sum;
      r := VerifyCopy(q, target + q, streamed);
      if r.Ok? {
        RecordLine(observed, manifest, moved, |source[q].content|, FileLine(q, source[q].content), progress, movedAt);
        manifest := manifest + [Line(q, streamed.copied, streamed.digest)];
      }
    }

    /** The part of `copy_file_verified` after the creation of the copy. */
    method FillCopy(q: Path) returns (r: Result<()>)
      requires q in source && source[q].File? && target + q in created && target + q in fs && fs[target + q] == File([])
      requires Clean(base, fs, target, created)
      requires Ledger(observed, manifest, moved) && Honest(progress, movedAt, moved, |manifest|)
      requires Sum(manifest) == moved
      modifies this`fs, this`manifest, this`observed, this`lastPath
      modifies this`progress, this`movedAt, this`moved, this`polls, this`clock
      ensures Clean(base, fs, target, created) && clock >= old(clock) && polls >= old(polls) && r != Err(SecurityRollback)
      ensures Ledger(observed, manifest, moved) && Honest(progress, movedAt, moved, |manifest|)
      ensures OnlyAt(old(fs), fs, target + q)
      ensures r.Ok? ==> Sum(manifest) == moved && Uncancelled(old(polls), polls) && QuietBetween(schedule, old(clock), clock)
      ensures r.Ok? ==> CanCopy(source[q]) && fs[target + q] == source[q]
      ensures r.Ok? ==> manifest == old(manifest) + [FileLine(q, source[q].content)]
      ensures Undisturbed(old(clock), clock, old(polls), polls) ==> (r.Ok? <==> CanCopy(source[q]))
      ensures Undisturbed(old(clock), clock, old(polls), polls) && r.Err? ==> r.error == VerificationFailed
      ensures r == Err(Cancelled) <==> !Uncancelled(old(polls), polls)
      ensures r.Ok? ==> old(progress) <= progress && Verified(progress) == Verified(old(progress)) + [Some(q)]
    {
      hide Clean, Honest, Ledger, Faithful, Sum, Sat, Verified, OnlyAt;
      var streamed := CopyChunks(q, target + q);
      NothingVerified(old(progress), progress, q);
      OnlyThere(old(fs), fs, target + q);
      if streamed.Err? {
        return Err(streamed.error);
      }
      VerifiedNext(progress, Progress(Verifying, Some(q), |manifest|, Sat(moved)));
      r := VerifyAndRecord(q, streamed.value);
    }

    /** `copy_file_verified` */
    method CopyFile(q: Path) returns (r: Result<()>)
      requires Clean(base, fs, target, created) && Placed(target, created, target + q)
      requires Ledger(observed, manifest, moved) && Honest(progress, movedAt, moved, |manifest|)
      requires Sum(manifest) == moved
      requires q in source && source[q].File?
      modifies this`fs, this`created, this`manifest, this`observed, this`lastPath
      modifies this`progress, this`movedAt, this`moved, this`polls, this`clock, this`leaks
      ensures Safe(base, fs, target, created) && clock >= old(clock) && polls >= old(polls) && old(created) <= created
      ensures leaks >= old(leaks) && (Clean(base, fs, target, created) <==> leaks == old(leaks))
      ensures r == Err(SecurityRollback) ==> leaks > old(leaks)
      ensures Ledger(observed, manifest, moved) && Honest(progress, movedAt, moved, |manifest|)
      ensures r.Ok? ==> Clean(base, fs, target, created) && Sum(manifest) == moved && Uncancelled(old(polls), polls)
      ensures r.Ok? ==> CanCopy(source[q]) && target + q !in old(fs) && fs == old(fs)[target + q := source[q]]
      ensures r.Ok? ==> manifest == old(manifest) + [FileLine(q, source[q].content)]
      ensures Undisturbed(old(clock), clock, old(polls), polls) && target + q !in old(fs) ==>
                (r.Ok? <==> CanCopy(source[q]))
      ensures r == Err(Cancelled) <==> !Uncancelled(old(polls), polls)
      ensures r.Ok? ==> QuietBetween(schedule, old(clock), clock)
      ensures r.Ok? ==> old(progress) <= progress && Verified(progress) == Verified(old(progress)) + [Some(q)]
      ensures Undisturbed(old(clock), clock, old(polls), polls) && target + q !in old(fs) && r.Err? ==>
                r.error == VerificationFailed
      ensures QuietBetween(schedule, old(clock), clock) ==> leaks == old(leaks)
    {
      hide Clean, Safe, Placed, Honest, Ledger, Faithful, Sum, Verified;
      CleanIsSafe(base, fs, target, created);
      var opens := schedule(clock) == Succeeds;
      clock := clock + 1;
      if !opens {
        return Err(Security);
      }
      r := Create(target + q, File([]));
      if r.Err? {
        return;
      }
      ghost var made := fs;
      r := FillCopy(q);
      CleanIsSafe(base, fs, target, created);
      WrittenAgain(old(fs), made, fs, target + q);
    }

    // ----- trees -----

    /** `sort_by_key` */
    method SortByKey(names: seq<Name>) returns (sorted: seq<Name>)
      ensures sorted == Sorted(names)
    {
      sorted := [];
      for i := 0 to |names|
        invariant sorted == Sorted(names[..i])
      {
        assert names[..i + 1][..i] == names[..i];
        sorted := Inserted(sorted, names[i]);
      }
      assert names[..|names|] == names;
    }

    /** `entries`: names in the system's order, sorted; a reparse point is refused. */
    method Entries(p: Path) returns (r: Result<seq<Name>>)
      requires Environment() && p in source && source[p] == Directory
      modifies this`clock
      ensures clock >= old(clock)
      ensures r != Err(SecurityRollback)
      ensures r.Ok? ==> r.value == Sorted(listing(p)) && NoLinks(source, p)
      ensures QuietBetween(schedule, old(clock), clock) && NoLinks(source, p) ==> r.Ok?
      ensures r != Err(Cancelled)
      ensures r.Ok? ==> QuietBetween(schedule, old(clock), clock)
      ensures QuietBetween(schedule, old(clock), clock) && r.Err? ==> Explained(r.error)
    {
      hide Explained, Environment, NoLinks, Sorted, Enumerates, Distinct, Children;
      ListingIsComplete(p);
      var listed := schedule(clock) == Succeeds;
      clock := clock + 1;
      if !listed {
        return Err(Security);
      }
      var linked := AnyLink(p, listing(p));
      if linked {
        return Err(ReparsePoint);
      }
      var sorted := SortByKey(listing(p));
      return Ok(sorted);
    }

    /** The attribute check `parse_directory_buffer` makes of every entry. */
    method AnyLink(p: Path, names: seq<Name>) returns (linked: bool)
      requires Enumerates(names, Children(source, p))
      ensures linked <==> !NoLinks(source, p)
      ensures linked ==> Explained(ReparsePoint)
    {
      for i := 0 to |names|
        invariant forall j :: 0 <= j < i ==> p + [names[j]] in source && source[p + [names[j]]] != Reparse
      {
        assert names[i] in names;
        ChildrenAre(source, p, names[i]);
        if source[p + [names[i]]] == Reparse {
          LinkExplains(p + [names[i]]);
          LinkFound(source, p, names[i]);
          return true;
        }
      }
      return false;
    }

    lemma ListingIsComplete(p: Path)
      requires Environment() && p in source
      ensures Enumerates(listing(p), Children(source, p)) && Distinct(listing(p))
    {
    }

    /** One entry of `copy_tree_verified`. */
    method CopyEntry(q: Path) returns (r: Result<()>)
      requires Environment() && q in source && q != [] && source[q] != Reparse
      requires Clean(base, fs, target, created) && Placed(target, created, target + q)
      requires Books(observed, manifest, moved, progress, movedAt) && Balanced(manifest, moved, progress)
      requires Vacant(fs, target, Under(source, q) + {q})
      modifies this`fs, this`created, this`manifest, this`observed, this`lastPath
      modifies this`progress, this`movedAt, this`moved, this`polls, this`clock, this`leaks
      ensures Safe(base, fs, target, created) && clock >= old(clock) && polls >= old(polls) && old(created) <= created
      ensures leaks >= old(leaks) && (Clean(base, fs, target, created) <==> leaks == old(leaks))
      ensures r == Err(SecurityRollback) ==> leaks > old(leaks)
      ensures Books(observed, manifest, moved, progress, movedAt)
      ensures r.Ok? ==> Clean(base, fs, target, created) && Balanced(manifest, moved, progress) && Uncancelled(old(polls), polls)
      ensures r.Ok? ==> CopyableAt(source, q) && Copied(old(fs), fs, target, source, Under(source, q) + {q})
      ensures r.Ok? ==> manifest == old(manifest) + EntryManifest(listing, source, q)
      ensures Undisturbed(old(clock), clock, old(polls), polls) && CopyableAt(source, q) ==> r.Ok?
      ensures r == Err(Cancelled) <==> !Uncancelled(old(polls), polls)
      ensures r.Ok? ==> QuietBetween(schedule, old(clock), clock)
      ensures Undisturbed(old(clock), clock, old(polls), polls) && r.Err? ==> Explained(r.error)
      ensures QuietBetween(schedule, old(clock), clock) ==> leaks == old(leaks)
      decreases Height(source) - |q|, 3
    {
      hide Explained, Environment, Clean, Safe, Placed, Books, Balanced, Narrated, Verified, Copied, CopyableAt;
      hide Faithful, TreeManifest, Closed;
      EnvironmentIsClosed();
      assert CopyableAt(source, q) <==> CanCopy(source[q]) && Copyable(source, q) by { CopyableSplits(source, q); }
      match source[q]
      case File(content) =>
        BooksOpen(observed, manifest, moved, progress, movedAt);
        LinkExplains(q);
        assert target + q !in fs;
        r := CopyFile(q);
        if r.Ok? {
          NarratedFile(old(manifest), old(progress), progress, FileLine(q, content));
        }
        BooksClose(observed, manifest, moved, progress, movedAt);
        if r.Ok? {
          FileCopied(old(fs), fs, target, source, q);
        }
      case Directory =>
        r := CopyDirectory(q);
    }

    /** An entry of `copy_tree_verified` that is a directory. */
    method CopyDirectory(q: Path) returns (r: Result<()>)
      requires Environment() && q in source && q != [] && source[q] == Directory
      requires Clean(base, fs, target, created) && Placed(target, created, target + q)
      requires Books(observed, manifest, moved, progress, movedAt) && Balanced(manifest, moved, progress)
      requires Vacant(fs, target, Under(source, q) + {q})
      modifies this`fs, this`created, this`manifest, this`observed, this`lastPath
      modifies this`progress, this`movedAt, this`moved, this`polls, this`clock, this`leaks
      ensures Safe(base, fs, target, created) && clock >= old(clock) && polls >= old(polls) && old(created) <= created
      ensures leaks >= old(leaks) && (Clean(base, fs, target, created) <==> leaks == old(leaks))
      ensures r == Err(SecurityRollback) ==> leaks > old(leaks)
      ensures Books(observed, manifest, moved, progress, movedAt)
      ensures r.Ok? ==> Clean(base, fs, target, created) && Balanced(manifest, moved, progress) && Uncancelled(old(polls), polls)
      ensures r.Ok? ==> Copyable(source, q) && Copied(old(fs), fs, target, source, Under(source, q) + {q})
      ensures r.Ok? ==> manifest == old(manifest) + TreeManifest(listing, source, q)
      ensures Undisturbed(old(clock), clock, old(polls), polls) && Copyable(source, q) ==> r.Ok?
      ensures r == Err(Cancelled) <==> !Uncancelled(old(polls), polls)
      ensures r.Ok? ==> QuietBetween(schedule, old(clock), clock)
      ensures Undisturbed(old(clock), clock, old(polls), polls) && r.Err? ==> Explained(r.error)
      ensures QuietBetween(schedule, old(clock), clock) ==> leaks == old(leaks)
      decreases Height(source) - |q|, 2
    {
      hide Explained, Environment, Clean, Safe, Placed, Books, Balanced, Copied, Copyable, Faithful, TreeManifest, Closed;
      CleanIsSafe(base, fs, target, created);
      var opens := schedule(clock) == Succeeds;
      clock := clock + 1;
      if !opens {
        return Err(Security);
      }
      assert target + q !in fs;
      r := OpenOrCreateDirectory(target + q);
      if r.Err? {
        return;
      }
      ghost var made := fs;
      DirectoryCopied(old(fs), made, target, source, q);
      r := CopyTree(q);
      if r.Ok? {
        CopiedTwice(old(fs), made, fs, target, source, {q}, Under(source, q));
        assert {q} + Under(source, q) == Under(source, q) + {q};
      }
    }

    /** `copy_tree_verified` */
    method CopyTree(p: Path) returns (r: Result<()>)
      requires Environment() && p in source && source[p] == Directory
      requires Clean(base, fs, target, created) && target + p in created
      requires Books(observed, manifest, moved, progress, movedAt) && Balanced(manifest, moved, progress)
      requires Vacant(fs, target, Under(source, p))
      modifies this`fs, this`created, this`manifest, this`observed, this`lastPath
      modifies this`progress, this`movedAt, this`moved, this`polls, this`clock, this`leaks
      ensures Safe(base, fs, target, created) && clock >= old(clock) && polls >= old(polls) && old(created) <= created
      ensures leaks >= old(leaks) && (Clean(base, fs, target, created) <==> leaks == old(leaks))
      ensures r == Err(SecurityRollback) ==> leaks > old(leaks)
      ensures Books(observed, manifest, moved, progress, movedAt)
      ensures r.Ok? ==> Clean(base, fs, target, created) && Balanced(manifest, moved, progress) && Uncancelled(old(polls), polls)
      ensures r.Ok? ==> Copyable(source, p) && Copied(old(fs), fs, target, source, Under(source, p))
      ensures r.Ok? ==> manifest == old(manifest) + TreeManifest(listing, source, p)
      ensures Undisturbed(old(clock), clock, old(polls), polls) && Copyable(source, p) ==> r.Ok?
      ensures r == Err(Cancelled) <==> !Uncancelled(old(polls), polls)
      ensures r.Ok? ==> QuietBetween(schedule, old(clock), clock)
      ensures Undisturbed(old(clock), clock, old(polls), polls) && r.Err? ==> Explained(r.error)
      ensures QuietBetween(schedule, old(clock), clock) ==> leaks == old(leaks)
      decreases Height(source) - |p|, 1
    {
      hide Explained, Environment, Clean, Safe, Placed, Books, Balanced, Copied, CopyableAt, Copyable, Faithful;
      hide Vacant, Done, NoLinks, Closed, NamesManifest, TreeManifest, EntryManifest, Under, Sorted, Enumerates, Distinct;
      CleanIsSafe(base, fs, target, created);
      var listed := Entries(p);
      if listed.Err? {
        CopyableHasNoLinks(source, p);
        return Err(listed.error);
      }
      EnvironmentIsClosed();
      var names := listed.value;
      SortedEnumerates(listing(p), Children(source, p)) by { ListingIsComplete(p); }
      NoneDone(listing, fs, target, source, p, names);
      for i := 0 to |names|
        invariant Clean(base, fs, target, created) && clock >= old(clock) && polls >= old(polls)
        invariant old(created) <= created && leaks == old(leaks)
        invariant Uncancelled(old(polls), polls) && QuietBetween(schedule, old(clock), clock)
        invariant Books(observed, manifest, moved, progress, movedAt) && Balanced(manifest, moved, progress)
        invariant Done(old(fs), fs, target, source, p, names[..i])
        invariant manifest == old(manifest) + NamesManifest(listing, source, p, names[..i])
      {
        r := CopyNext(p, names, i, old(fs), old(manifest));
        if r.Err? {
          return;
        }
      }
      AllDone(listing, old(fs), fs, target, source, p, names);
      CleanIsSafe(base, fs, target, created);
      return Ok(());
    }

    /** One round of the loop of `copy_tree_verified`. */
    method CopyNext(p: Path, names: seq<Name>, i: nat, ghost first: Tree, ghost lines: seq<Line>) returns (r: Result<()>)
      requires Environment() && p in source && NoLinks(source, p)
      requires Enumerates(names, Children(source, p)) && Distinct(names) && i < |names|
      requires Clean(base, fs, target, created) && target + p in created
      requires Books(observed, manifest, moved, progress, movedAt) && Balanced(manifest, moved, progress)
      requires Vacant(first, target, Under(source, p)) && Done(first, fs, target, source, p, names[..i])
      requires manifest == lines + NamesManifest(listing, source, p, names[..i])
      modifies this`fs, this`created, this`manifest, this`observed, this`lastPath
      modifies this`progress, this`movedAt, this`moved, this`polls, this`clock, this`leaks
      ensures Safe(base, fs, target, created) && clock >= old(clock) && polls >= old(polls) && old(created) <= created
      ensures leaks >= old(leaks) && (Clean(base, fs, target, created) <==> leaks == old(leaks))
      ensures r == Err(SecurityRollback) ==> leaks > old(leaks)
      ensures Books(observed, manifest, moved, progress, movedAt)
      ensures r.Ok? ==> Clean(base, fs, target, created) && Balanced(manifest, moved, progress) && Uncancelled(old(polls), polls)
      ensures r.Ok? ==> Done(first, fs, target, source, p, names[..i + 1])
      ensures r.Ok? ==> manifest == lines + NamesManifest(listing, source, p, names[..i + 1])
      ensures Undisturbed(old(clock), clock, old(polls), polls) && Copyable(source, p) ==> r.Ok?
      ensures r == Err(Cancelled) <==> !Uncancelled(old(polls), polls)
      ensures r.Ok? ==> QuietBetween(schedule, old(clock), clock)
      ensures Undisturbed(old(clock), clock, old(polls), polls) && r.Err? ==> Explained(r.error)
      ensures QuietBetween(schedule, old(clock), clock) ==> leaks == old(leaks)
      decreases Height(source) - |p|, 0
    {
      hide Explained, Environment, Clean, Safe, Placed, Books, Balanced, Copied, CopyableAt, Copyable, Faithful;
      hide Vacant, Done, NoLinks, Closed, NamesManifest, TreeManifest, EntryManifest, Under, Enumerates, Distinct;
      hide Children, Parent;
      CleanIsSafe(base, fs, target, created);
      EnvironmentIsClosed();
      var stop := cancelled(polls);
      polls := polls + 1;
      if stop {
        return Err(Cancelled);
      }
      NextEntry(first, fs, target, source, created, p, names, i);
      ghost var before := fs;
      var q := p + [names[i]];
      r := CopyEntry(q);
      if r.Ok? {
        EntryDone(listing, first, before, fs, target, source, p, names, i);
        Regroup(lines, NamesManifest(listing, source, p, names[..i]), EntryManifest(listing, source, q));
      }
    }

    // ----- the selected roots -----

    /** `open_relative_directory_if_present` */
    method OpenIfPresent(root: Path) returns (r: Result<bool>)
      requires Environment()
      modifies this`clock
      ensures clock >= old(clock)
      ensures r != Err(SecurityRollback)
      ensures r.Ok? ==> !Blocked(source, root) && (r.value <==> Present(source, root))
      ensures QuietBetween(schedule, old(clock), clock) && !Blocked(source, root) ==> r.Ok?
      ensures r != Err(Cancelled)
      ensures r.Ok? ==> QuietBetween(schedule, old(clock), clock)
      ensures QuietBetween(schedule, old(clock), clock) && r.Err? ==> Explained(r.error)
    {
      hide Explained, Environment, Closed;
      EnvironmentIsClosed();
      for k := 0 to |root|
        invariant clock >= old(clock) && QuietBetween(schedule, old(clock), clock)
        invariant forall j :: 1 <= j <= k ==> root[..j] in source && source[root[..j]] == Directory
      {
        var opens := schedule(clock) == Succeeds;
        clock := clock + 1;
        if !opens {
          return Err(Security);
        }
        if root[..k + 1] !in source {
          MissingComponent(source, root, k + 1);
          return Ok(false);
        }
        if source[root[..k + 1]] != Directory {
          LinkExplains(root[..k + 1]);
          return Err(if source[root[..k + 1]] == Reparse then ReparsePoint else Security);
        }
      }
      return Ok(true);
    }

    /** `ensure_relative_directory` */
    method EnsureRelative(root: Path) returns (r: Result<()>)
      requires Clean(base, fs, target, created) && target in created
      requires Present(source, root) && Vacant(fs, target, Components(root))
      modifies this`fs, this`created, this`clock, this`leaks
      ensures Safe(base, fs, target, created) && clock >= old(clock) && old(created) <= created
      ensures leaks >= old(leaks) && (Clean(base, fs, target, created) <==> leaks == old(leaks))
      ensures r == Err(SecurityRollback) ==> leaks > old(leaks)
      ensures r.Ok? ==> Clean(base, fs, target, created) && target + root in created
      ensures r.Ok? ==> Copied(old(fs), fs, target, source, Components(root))
      ensures QuietBetween(schedule, old(clock), clock) ==> r.Ok?
      ensures r != Err(Cancelled)
      ensures r.Ok? ==> QuietBetween(schedule, old(clock), clock)
      ensures QuietBetween(schedule, old(clock), clock) ==> leaks == old(leaks)
    {
      hide Clean, Safe, Placed, Copied, Components, Vacant, Present;
      CleanIsSafe(base, fs, target, created);
      NoComponents(fs, target, source, root);
      assert target + root[..0] == target;
      for k := 0 to |root|
        invariant Clean(base, fs, target, created) && clock >= old(clock) && old(created) <= created
        invariant QuietBetween(schedule, old(clock), clock)
        invariant leaks == old(leaks) && target + root[..k] in created
        invariant Copied(old(fs), fs, target, source, Components(root[..k]))
      {
        NextComponent(old(fs), fs, target, source, created, root, k);
        ghost var before := fs;
        r := OpenOrCreateDirectory(target + root[..k + 1]);
        if r.Err? {
          return;
        }
        ComponentDone(old(fs), before, fs, target, source, root, k);
      }
      assert root[..|root|] == root;
      CleanIsSafe(base, fs, target, created);
      return Ok(());
    }

    /** A selected root that exists. */
    method CopyPresentRoot(root: Path) returns (r: Result<()>)
      requires Environment() && root in source && source[root] == Directory && Present(source, root)
      requires Clean(base, fs, target, created) && target in created
      requires Books(observed, manifest, moved, progress, movedAt) && Balanced(manifest, moved, progress)
      requires Vacant(fs, target, Components(root)) && Vacant(fs, target, Under(source, root))
      modifies this`fs, this`created, this`manifest, this`observed, this`lastPath
      modifies this`progress, this`movedAt, this`moved, this`polls, this`clock, this`leaks
      ensures Safe(base, fs, target, created) && clock >= old(clock) && polls >= old(polls) && old(created) <= created
      ensures leaks >= old(leaks) && (Clean(base, fs, target, created) <==> leaks == old(leaks))
      ensures r == Err(SecurityRollback) ==> leaks > old(leaks)
      ensures Books(observed, manifest, moved, progress, movedAt)
      ensures r.Ok? ==> Clean(base, fs, target, created) && Balanced(manifest, moved, progress) && Uncancelled(old(polls), polls)
      ensures r.Ok? ==> Copyable(source, root)
      ensures r.Ok? ==> Copied(old(fs), fs, target, source, Components(root) + Under(source, root))
      ensures r.Ok? ==> manifest == old(manifest) + TreeManifest(listing, source, root)
      ensures Undisturbed(old(clock), clock, old(polls), polls) && Copyable(source, root) ==> r.Ok?
      ensures r == Err(Cancelled) <==> !Uncancelled(old(polls), polls)
      ensures r.Ok? ==> QuietBetween(schedule, old(clock), clock)
      ensures Undisturbed(old(clock), clock, old(polls), polls) && r.Err? ==> Explained(r.error)
      ensures QuietBetween(schedule, old(clock), clock) ==> leaks == old(leaks)
    {
      hide Explained, Environment, Clean, Safe, Books, Balanced, Copied, Copyable, Faithful, Components, Vacant;
      hide Present, TreeManifest, Under;
      r := EnsureRelative(root);
      if r.Err? {
        return;
      }
      ghost var made := fs;
      StillVacantBelow(old(fs), fs, target, source, root);
      r := CopyTree(root);
      if r.Ok? {
        CopiedTwice(old(fs), made, fs, target, source, Components(root), Under(source, root));
      }
    }

    /** One round of the loop over the selected roots. */
    method CopyRoot(root: Path) returns (r: Result<()>)
      requires Environment() && root != []
      requires Clean(base, fs, target, created) && target in created
      requires Books(observed, manifest, moved, progress, movedAt) && Balanced(manifest, moved, progress)
      requires Vacant(fs, target, RootPaths(source, root))
      modifies this`fs, this`created, this`manifest, this`observed, this`lastPath
      modifies this`progress, this`movedAt, this`moved, this`polls, this`clock, this`leaks
      ensures Safe(base, fs, target, created) && clock >= old(clock) && polls >= old(polls) && old(created) <= created
      ensures leaks >= old(leaks) && (Clean(base, fs, target, created) <==> leaks == old(leaks))
      ensures r == Err(SecurityRollback) ==> leaks > old(leaks)
      ensures Books(observed, manifest, moved, progress, movedAt)
      ensures r.Ok? ==> Clean(base, fs, target, created) && Balanced(manifest, moved, progress) && Uncancelled(old(polls), polls)
      ensures r.Ok? ==> CopyableRoot(source, root) && Copied(old(fs), fs, target, source, RootPaths(source, root))
      ensures r.Ok? ==> manifest == old(manifest) + RootManifest(listing, source, root)
      ensures Undisturbed(old(clock), clock, old(polls), polls) && CopyableRoot(source, root) ==> r.Ok?
      ensures r == Err(Cancelled) <==> !Uncancelled(old(polls), polls)
      ensures r.Ok? ==> QuietBetween(schedule, old(clock), clock)
      ensures Undisturbed(old(clock), clock, old(polls), polls) && r.Err? ==> Explained(r.error)
      ensures QuietBetween(schedule, old(clock), clock) ==> leaks == old(leaks)
    {
      hide Explained, Environment, Clean, Safe, Placed, Books, Balanced, Copied, Copyable, Faithful, Components, Vacant;
      hide Present, Blocked, TreeManifest, Under, RootPaths, RootManifest, CopyableRoot;
      CleanIsSafe(base, fs, target, created);
      var stop := cancelled(polls);
      polls := polls + 1;
      if stop {
        return Err(Cancelled);
      }
      var present := OpenIfPresent(root);
      CopyableRootOpens(source, root);
      if present.Err? {
        return Err(present.error);
      }
      if !present.value {
        RootAbsent(listing, fs, target, source, root);
        return Ok(());
      }
      RootPresent(listing, source, root);
      RootVacant(fs, target, source, root);
      r := CopyPresentRoot(root);
    }

    /** The loop over the selected roots. */
    method CopyRoots(roots: seq<Path>) returns (r: Result<()>)
      requires Environment() && Apart(roots) && Bare(fs, target)
      requires Clean(base, fs, target, created) && target in created && manifest == []
      requires Books(observed, manifest, moved, progress, movedAt) && Balanced(manifest, moved, progress)
      modifies this`fs, this`created, this`manifest, this`observed, this`lastPath
      modifies this`progress, this`movedAt, this`moved, this`polls, this`clock, this`leaks
      ensures Safe(base, fs, target, created) && clock >= old(clock) && polls >= old(polls) && old(created) <= created
      ensures leaks >= old(leaks) && (Clean(base, fs, target, created) <==> leaks == old(leaks))
      ensures r == Err(SecurityRollback) ==> leaks > old(leaks)
      ensures Books(observed, manifest, moved, progress, movedAt)
      ensures r.Ok? ==> Clean(base, fs, target, created) && Balanced(manifest, moved, progress) && Uncancelled(old(polls), polls)
      ensures r.Ok? ==> Copied(old(fs), fs, target, source, WantedPaths(source, roots))
      ensures r.Ok? ==> manifest == PlanManifest(listing, source, roots) && AllCopyable(source, roots)
      ensures Undisturbed(old(clock), clock, old(polls), polls) && AllCopyable(source, roots) ==> r.Ok?
      ensures r == Err(Cancelled) <==> !Uncancelled(old(polls), polls)
      ensures r.Ok? ==> QuietBetween(schedule, old(clock), clock)
      ensures Undisturbed(old(clock), clock, old(polls), polls) && r.Err? ==> Explained(r.error)
      ensures QuietBetween(schedule, old(clock), clock) ==> leaks == old(leaks)
    {
      hide Explained, Environment, Clean, Safe, Placed, Books, Balanced, Copied, CopyableRoot, Faithful, RootManifest, Vacant;
      hide PlanManifest, Apart, Bare, RootPaths;
      CleanIsSafe(base, fs, target, created);
      NoRoots(listing, fs, target, source, roots);
      for i := 0 to |roots|
        invariant Clean(base, fs, target, created) && clock >= old(clock) && polls >= old(polls)
        invariant old(created) <= created && leaks == old(leaks)
        invariant Uncancelled(old(polls), polls) && QuietBetween(schedule, old(clock), clock)
        invariant Books(observed, manifest, moved, progress, movedAt) && Balanced(manifest, moved, progress)
        invariant Copied(old(fs), fs, target, source, WantedPaths(source, roots[..i]))
        invariant manifest == PlanManifest(listing, source, roots[..i]) && AllCopyable(source, roots[..i])
      {
        assert roots[i] in roots;
        NextRoot(old(fs), fs, target, source, roots, i);
        ghost var before := fs;
        r := CopyRoot(roots[i]);
        if r.Err? {
          return;
        }
        RootDone(listing, old(fs), before, fs, target, source, roots, i);
      }
      assert roots[..|roots|] == roots;
      CleanIsSafe(base, fs, target, created);
      return Ok(());
    }

    /** The end of a successful copy. */
    method Finish() returns (r: Result<Receipt>)
      requires Books(observed, manifest, moved, progress, movedAt) && Balanced(manifest, moved, progress)
      modifies this`progress, this`movedAt, this`polls, this`clock, this`audit
      ensures Books(observed, manifest, moved, progress, movedAt) && clock >= old(clock) && polls >= old(polls)
      ensures r != Err(SecurityRollback)
      ensures r.Ok? ==> r.value == ReceiptOf(manifest) && Uncancelled(old(polls), polls)
      ensures r.Ok? ==> progress == old(progress) +
                          [Progress(Finalizing, None, r.value.copiedFiles, r.value.copiedBytes)]
      ensures Successes(audit) == Successes(old(audit)) + if r.Ok? then 1 else 0
      ensures Undisturbed(old(clock), clock, old(polls), polls) ==> r.Ok?
      ensures r == Err(Cancelled) <==> !Uncancelled(old(polls), polls)
      ensures audit == old(audit) + if r.Ok? then [MigrationSuccess] else []
      ensures r.Ok? ==> QuietBetween(schedule, old(clock), clock)
      ensures r.Ok? ==> Narrated(manifest, progress)
    {
      hide Faithful, Ledger, Honest, Tokens, Successes, Narrated, Sum;
      NarratedEnd(manifest, progress, Progress(Finalizing, None, |manifest|, Sat(Sum(manifest))));
      var stop := cancelled(polls);
      polls := polls + 1;
      if stop {
        return Err(Cancelled);
      }
      var receipt := MakeReceipt();
      stop := cancelled(polls);
      polls := polls + 1;
      if stop {
        return Err(Cancelled);
      }
      Report(Finalizing, None, receipt.copiedBytes);
      stop := cancelled(polls);
      polls := polls + 1;
      if stop {
        return Err(Cancelled);
      }
      var logged := Log(MigrationSuccess);
      return if logged then Ok(receipt) else Err(AuditError);
    }

    // ----- the whole operation -----

    /** The target, the overlap check, the DPAPI warning and the first report. */
    method Begin() returns (r: Result<()>)
      requires Environment() && Clean(base, fs, target, created) && fs == base && created == [] && Bare(base, target)
      requires manifest == [] && moved == 0 && progress == [] && Books(observed, manifest, moved, progress, movedAt)
      modifies this`fs, this`created, this`audit, this`progress, this`movedAt, this`clock, this`leaks
      ensures Safe(base, fs, target, created) && clock >= old(clock) && Books(observed, manifest, moved, progress, movedAt)
      ensures leaks >= old(leaks) && (Clean(base, fs, target, created) <==> leaks == old(leaks))
      ensures r == Err(SecurityRollback) ==> leaks > old(leaks)
      ensures Successes(audit) == Successes(old(audit))
      ensures r.Ok? ==> Clean(base, fs, target, created) && !handlesOverlap && !Blocked(source, PROTECT)
      ensures created == [] ==> r.Err? && (fs == base || fs == base[target := Directory])
      ensures created == [] && fs != base <==> target !in base && Escapes(old(clock))
      ensures created == [] && fs != base ==> r == Err(SecurityRollback) && clock == old(clock) + 2
      ensures created != [] ==> created == [target] && fs == base[target := Directory] && Bare(fs, target)
      ensures QuietBetween(schedule, old(clock), clock) && !handlesOverlap && !Blocked(source, PROTECT) && target !in base ==> r.Ok?
      ensures r != Err(Cancelled)
      ensures r.Ok? ==> audit == old(audit) + if Present(source, PROTECT) then [MigrationWarning] else []
      ensures r.Err? ==> audit == old(audit) || audit == old(audit) + [MigrationWarning]
      ensures r.Ok? ==> QuietBetween(schedule, old(clock), clock)
      ensures r.Ok? ==> progress == old(progress) + [Progress(Enumerating, None, 0, 0)]
      ensures QuietBetween(schedule, old(clock), clock) && target !in base && r.Err? ==> Explained(r.error)
      ensures QuietBetween(schedule, old(clock), clock) ==> leaks == old(leaks)
    {
      hide Environment, Clean, Safe, Placed, Blocked, Bare, Successes, Ledger;
      StartsAtTarget(target, base);
      r := Create(target, Directory);
      if r.Err? {
        return;
      }
      CleanIsSafe(base, fs, target, created);
      if handlesOverlap {
        return Err(InvalidPlan);
      }
      var protected := OpenIfPresent(PROTECT);
      if protected.Err? {
        return Err(protected.error);
      }
      if protected.value {
        var logged := Log(MigrationWarning);
        if !logged {
          return Err(AuditError);
        }
      }
      Report(Enumerating, None, 0);
      return Ok(());
    }

    /** Exactly when an undisturbed operation on a free target succeeds. */
    ghost predicate Doable(plan: Plan) {
      !handlesOverlap && !Blocked(source, [Wide("appdata"), Wide("roaming"), Wide("microsoft"), Wide("protect")]) &&
      forall root :: Selects(plan, root) ==> CopyableRoot(source, root)
    }

    lemma DoableIs(plan: Plan)
      ensures Doable(plan) <==> !handlesOverlap && !Blocked(source, PROTECT) && AllCopyable(source, Roots(plan))
    {
      RootsAreSelected(plan);
      hide Wide, Selects, Roots, Blocked, CopyableRoot;
      assert PROTECT == [Wide("appdata"), Wide("roaming"), Wide("microsoft"), Wide("protect")];
    }

    /** The fallible part of `execute_migration_with_cancel`. */
    method Operate(plan: Plan) returns (r: Result<Receipt>)
      requires Environment() && Clean(base, fs, target, created) && fs == base && created == [] && Bare(base, target)
      requires manifest == [] && moved == 0 && progress == [] && Books(observed, manifest, moved, progress, movedAt)
      modifies this`fs, this`created, this`manifest, this`observed, this`lastPath, this`audit
      modifies this`progress, this`movedAt, this`moved, this`polls, this`clock, this`leaks
      ensures Safe(base, fs, target, created) && clock >= old(clock) && polls >= old(polls)
      ensures leaks >= old(leaks) && (Clean(base, fs, target, created) <==> leaks == old(leaks))
      ensures r == Err(SecurityRollback) ==> leaks > old(leaks)
      ensures Books(observed, manifest, moved, progress, movedAt)
      ensures r.Ok? ==> Copied(base[target := Directory], fs, target, source, WantedPaths(source, Roots(plan)))
      ensures r.Ok? ==> r.value == ReceiptOf(PlanManifest(listing, source, Roots(plan))) && Uncancelled(old(polls), polls)
      ensures r.Ok? ==> Finished(progress, r.value) && Doable(plan)
      ensures Successes(audit) == Successes(old(audit)) + if r.Ok? then 1 else 0
      ensures created == [] ==> r.Err? && (fs == base || fs == base[target := Directory])
      ensures created == [] && fs != base <==> target !in base && Escapes(old(clock))
      ensures created == [] && fs != base ==> r == Err(SecurityRollback) && clock == old(clock) + 2
      ensures Undisturbed(old(clock), clock, old(polls), polls) && Doable(plan) && target !in base ==> r.Ok?
      ensures r == Err(Cancelled) <==> !Uncancelled(old(polls), polls)
      ensures r.Ok? ==> audit == old(audit) + (if Present(source, PROTECT) then [MigrationWarning] else []) + [MigrationSuccess]
      ensures r.Err? ==> audit == old(audit) || audit == old(audit) + [MigrationWarning]
      ensures r.Ok? ==> QuietBetween(schedule, old(clock), clock)
      ensures r.Ok? ==> Narrated(PlanManifest(listing, source, Roots(plan)), progress)
      ensures Undisturbed(old(clock), clock, old(polls), polls) && target !in base && r.Err? ==> Explained(r.error)
      ensures QuietBetween(schedule, old(clock), clock) ==> leaks == old(leaks)
    {
      DoableIs(plan);
      hide Explained, Environment, Clean, Safe, Placed, Books, Balanced, Copied, Faithful, PlanManifest, Roots;
      hide Narrated, Bare, Successes, Finished, AllCopyable, ReceiptOf, Blocked, Doable, Wide;
      var begun := Begin();
      if begun.Err? {
        return Err(begun.error);
      }
      RootsApart(plan);
      NothingRecorded(manifest, moved, progress);
      var copied := CopyRoots(Roots(plan));
      if copied.Err? {
        return Err(copied.error);
      }
      ghost var reports := progress;
      r := Finish();
      if r.Ok? {
        LastReport(reports, progress, r.value);
      }
    }

    /** `CopyTransaction::rollback`: last in, first out, every removal attempted. */
    method RollBack() returns (clean: bool)
      requires Safe(base, fs, target, created)
      modifies this`fs, this`created, this`clock, this`leaks
      ensures clock >= old(clock) && created == [] && leaks >= old(leaks)
      ensures forall x :: x in base ==> x in fs && fs[x] == base[x]
      ensures old(created) == [] ==> clean && fs == old(fs) && leaks == old(leaks) && clock == old(clock)
      ensures old(created) != [] && clean ==> fs == base && leaks == old(leaks) && Clean(base, old(fs), target, old(created))
      ensures !clean ==> target in fs && target !in base
      ensures Clean(base, old(fs), target, old(created)) && leaks == old(leaks) ==> clean
      ensures QuietBetween(schedule, old(clock), clock) ==> leaks == old(leaks)
    {
      hide Held, Accounted, Registered;
      var failed := false;
      ghost var strays := Strays(base, fs, created);
      SafeStart(base, fs, target, created);
      while created != []
        invariant clock >= old(clock) && leaks >= old(leaks)
        invariant Tracked(base, fs, target, created) && strays <= Strays(base, fs, created)
        invariant old(created) != [] ==> Accounted(base, fs, target, created, failed)
        invariant old(created) == [] ==> created == [] && fs == old(fs) && leaks == old(leaks) && !failed && clock == old(clock)
        invariant strays == {} && leaks == old(leaks) ==> !failed && Strays(base, fs, created) == {}
        invariant leaks > old(leaks) ==> failed
        invariant QuietBetween(schedule, old(clock), clock) ==> leaks == old(leaks)
        decreases |created|
      {
        hide Tracked, Strays, Closed, HasChild;
        ghost var before := created;
        var top, rest := created[|created| - 1], created[..|created| - 1];
        assert created == rest + [top];
        if strays == {} && leaks == old(leaks) {
          TopIsEmpty(base, fs, target, created) by { AllRegistered(base, fs, created); }
        }
        created := rest;
        var deleted := schedule(clock) == Succeeds;
        clock := clock + 1;
        if !deleted {
          leaks := leaks + 1;
        }
        if deleted && !HasChild(fs, top) {
          Removed(base, fs, target, rest, top, failed);
          fs := fs - {top};
        } else {
          Stuck(base, fs, target, rest, top, failed);
          failed := true;
        }
      }
      if old(created) != [] {
        NothingLeft(base, fs, target, failed);
        NoStrays(base, fs, failed);
      }
      CleanStart(base, old(fs), target, old(created), strays);
      clean := !failed;
    }

    /** The file-system part of `validate_for_execution`. `accepted` is the outcome
        of its other checks: SID, path syntax, textual overlap, loaded profile. */
    method Validate(plan: Plan, accepted: bool) returns (r: Result<()>)
      requires target != []
      modifies this`clock
      ensures clock >= old(clock) && (r.Ok? ==> clock == old(clock) + 3)
      ensures r != Err(SecurityRollback)
      ensures r.Ok? <==> Admissible(plan, accepted, fs) && QuietBetween(schedule, old(clock), old(clock) + 3)
      ensures QuietBetween(schedule, old(clock), clock) && Admissible(plan, accepted, fs) ==> r.Ok?
      ensures r != Err(Cancelled)
      ensures QuietBetween(schedule, old(clock), clock) && r.Err? ==> r.error == Refusal(plan, accepted, fs)
      ensures r.Ok? ==> QuietBetween(schedule, old(clock), clock)
    {
      if !accepted || (!plan.roaming && !plan.personal) {
        return Err(InvalidPlan);
      }
      var sourceOpens, parentOpens, inspected := schedule(clock), schedule(clock + 1), schedule(clock + 2);
      clock := clock + 3;
      if sourceOpens != Succeeds || parentOpens != Succeeds {
        return Err(Security);
      }
      if Parent(target) !in fs {
        return Err(InvalidPlan);
      }
      if fs[Parent(target)] != Directory {
        return Err(if fs[Parent(target)] == Reparse then ReparsePoint else Security);
      }
      if inspected != Succeeds {
        return Err(Security);
      }
      if target in fs {
        return Err(if fs[target] == Reparse then ReparsePoint else DestinationExists);
      }
      return Ok(());
    }

    /** What an undisturbed validation answers when it refuses. */
    ghost function Refusal(plan: Plan, accepted: bool, fs: Tree): Error
      requires target != []
    {
      if !accepted || (!plan.roaming && !plan.personal) || Parent(target) !in fs then InvalidPlan
      else if fs[Parent(target)] == Reparse then ReparsePoint
      else if fs[Parent(target)].File? then Security
      else if target in fs && fs[target] == Reparse then ReparsePoint
      else DestinationExists
    }

    ghost predicate Admissible(plan: Plan, accepted: bool, fs: Tree)
      requires target != []
    {
      accepted && (plan.roaming || plan.personal) &&
      Parent(target) in fs && fs[Parent(target)] == Directory && target !in fs
    }

    /** The failure branch of `execute_migration_with_cancel`. */
    method Undo(error: Error) returns (r: Ending)
      requires Safe(base, fs, target, created) && Books(observed, manifest, moved, progress, movedAt)
      requires created == [] ==> fs == base || fs == base[target := Directory]
      requires target !in base
      requires error == SecurityRollback ==> !Clean(base, fs, target, created)
      modifies this`fs, this`created, this`progress, this`movedAt, this`clock, this`leaks, this`audit
      ensures clock >= old(clock) && Books(observed, manifest, moved, progress, movedAt)
      ensures Successes(audit) == Successes(old(audit)) && !r.Completed? && leaks >= old(leaks)
      ensures forall x :: x in base ==> x in fs && fs[x] == base[x]
      ensures fs == base <==> leaks == old(leaks) && Clean(base, old(fs), target, old(created))
      ensures r.RollbackFailed? ==> fs != base
      ensures r.Failed? ==> fs == base || fs == base[target := Directory]
      ensures r.Failed? && fs != base <==> old(created) == [] && old(fs) != base
      ensures old(created) == [] ==> r == Failed(if schedule(old(clock)) == Succeeds then error else AuditError)
      ensures r == Failed(SecurityRollback) ==> fs != base
      ensures QuietBetween(schedule, old(clock), clock) ==> leaks == old(leaks)
      ensures clock > old(clock) && !r.Completed?
      ensures r.RollbackFailed? ==>
                r.operationError == error &&
                audit == old(audit) + if schedule(clock - 1) == Succeeds then [MigrationRollbackFailed] else []
      ensures r.Failed? ==>
                r.error == (if schedule(clock - 1) == Succeeds then error else AuditError) &&
                audit == old(audit) + if schedule(clock - 1) == Succeeds then [MigrationRolledBack] else []
      ensures progress == old(progress) + [Progress(RollingBack, old(lastPath), |manifest|, Sat(moved))]
    {
      hide Clean, Safe, Ledger, Honest, Successes;
      if created == [] {
        OnlyTheTarget(base, fs, target, created);
      }
      var bytes := CopiedBytes();
      Report(RollingBack, lastPath, bytes);
      var clean := RollBack();
      if !clean {
        var _ := Log(MigrationRollbackFailed);
        return RollbackFailed(error);
      }
      var logged := Log(MigrationRolledBack);
      return Failed(if logged then error else AuditError);
    }

    /** The operation guard, the validation and the first log entry. */
    method Admit(plan: Plan, accepted: bool) returns (r: Result<()>)
      requires target != []
      modifies this`clock, this`audit
      ensures clock >= old(clock) && Successes(audit) == Successes(old(audit))
      ensures r != Err(SecurityRollback)
      ensures r.Ok? <==> Admissible(plan, accepted, fs) && QuietBetween(schedule, old(clock), old(clock) + 5)
      ensures r.Ok? ==> clock == old(clock) + 5
      ensures QuietBetween(schedule, old(clock), clock) && Admissible(plan, accepted, fs) ==> r.Ok?
      ensures r != Err(Cancelled)
      ensures r.Ok? ==> audit == old(audit) + [MigrationStarted]
      ensures QuietBetween(schedule, old(clock), clock) && r.Err? ==> r.error == Refusal(plan, accepted, fs)
      ensures r.Ok? ==> QuietBetween(schedule, old(clock), clock)
    {
      hide Admissible, Successes, Refusal;
      var guarded := schedule(clock) == Succeeds;
      clock := clock + 1;
      if !guarded {
        return Err(AuditError);
      }
      r := Validate(plan, accepted);
      if r.Ok? {
        var started := Log(MigrationStarted);
        if !started {
          return Err(AuditError);
        }
      }
    }

    /** The operation on an admitted plan, and its failure branch. */
    method Transact(plan: Plan) returns (r: Ending)
      requires Environment() && Closed(fs) && target !in fs && Bare(fs, target)
      requires created == [] && manifest == [] && moved == 0 && observed == 0 && progress == [] && movedAt == []
      modifies this
      ensures clock >= old(clock) && polls >= old(polls)
      ensures r.Completed? ==> SelectionCopied(old(fs), fs, target, source, plan)
      ensures r.Completed? ==> r.receipt == ReceiptOf(PlanManifest(listing, source, Roots(plan)))
      ensures r.Completed? ==> Finished(progress, r.receipt) && leaks >= old(leaks)
      ensures forall x :: x in old(fs) ==> x in fs && fs[x] == old(fs)[x]
      ensures !r.Completed? ==> (fs == old(fs) <==> leaks == old(leaks))
      ensures r.RollbackFailed? ==> fs != old(fs)
      ensures r.Failed? ==> fs == old(fs) || fs == old(fs)[target := Directory]
      ensures r.Failed? && fs != old(fs) <==> Escapes(old(clock))
      ensures ReportsLeftover(r) ==> fs != old(fs)
      ensures !r.Completed? && fs != old(fs) && !ReportsLeftover(r) <==>
              Escapes(old(clock)) && schedule(old(clock) + 2) != Succeeds
      ensures Honest(progress, movedAt, moved, |manifest|)
      ensures Successes(audit) == Successes(old(audit)) + if r.Completed? then 1 else 0
      ensures r.Completed? ==>
                audit == old(audit) + (if HasProtectedKeys(source) then [MigrationWarning] else []) + [MigrationSuccess]
      ensures r == Failed(Cancelled) || r == RollbackFailed(Cancelled) ==> !Uncancelled(old(polls), polls)
      ensures !Uncancelled(old(polls), polls) ==> r in {Failed(Cancelled), RollbackFailed(Cancelled), Failed(AuditError)}
      ensures r.Completed? ==> Doable(plan)
      ensures Undisturbed(old(clock), clock, old(polls), polls) && Doable(plan) ==> r.Completed?
      ensures r.Completed? ==> QuietBetween(schedule, old(clock), clock)
      ensures r.Completed? ==> Narrated(PlanManifest(listing, source, Roots(plan)), progress)
      ensures !r.Completed? ==> progress != [] && progress[|progress| - 1].phase == RollingBack
      ensures Undisturbed(old(clock), clock, old(polls), polls) && !r.Completed? ==> r.Failed? && Explained(r.error)
    {
      hide Explained, Environment, Clean, Safe, Books, Copied, Faithful, PlanManifest, Roots, Doable, Closed;
      hide Narrated, Successes, Finished, ReceiptOf, Bare, Honest, Ledger, WantedPaths;
      hide SelectionCopied, Wide, Present, Escapes, Parent;
      NoReports();
      base := fs;
      EmptyTransaction(base, target);
      var operation := Operate(plan);
      if operation.Ok? {
        OkIsKept(base, fs, target, source, WantedPaths(source, Roots(plan)));
        SelectionIsCopied(base, fs, target, source, plan) by { BareIs(base, target); }
        ProtectedKeys(source);
        r := Completed(operation.value);
      } else {
        r := Undo(operation.error);
      }
      BooksOpen(observed, manifest, moved, progress, movedAt);
    }

    /** `execute_migration_with_cancel` */
    method Execute(plan: Plan, accepted: bool) returns (r: Ending)
      requires Environment() && Closed(fs) && target != []
      requires created == [] && manifest == [] && moved == 0 && observed == 0 && progress == [] && movedAt == []
      modifies this
      // Success: exact copies of the selected roots and nothing else, a truthful
      // receipt, and a cancellation flag that was never seen raised.
      ensures r.Completed? ==> target !in old(fs)
      ensures r.Completed? ==> SelectionCopied(old(fs), fs, target, source, plan)
      ensures r.Completed? ==> r.receipt == ReceiptOf(PlanManifest(listing, source, Roots(plan)))
      ensures r.Completed? ==> Uncancelled(old(polls), polls) && QuietBetween(schedule, old(clock), clock)
      ensures r.Completed? ==> Finished(progress, r.receipt)
      // Failure: the destination is exactly restored unless a deletion failed, and what
      // is left is reported by a rollback failure or, for an empty target that escaped
      // its own creation, by the security error, unless the closing audit entry fails too.
      ensures forall x :: x in old(fs) ==> x in fs && fs[x] == old(fs)[x]
      ensures !r.Completed? ==> (fs == old(fs) <==> leaks == old(leaks))
      ensures r.RollbackFailed? ==> fs != old(fs)
      ensures r.Failed? ==> fs == old(fs) || fs == old(fs)[target := Directory]
      ensures r.Failed? && fs != old(fs) <==>
              Admissible(plan, accepted, old(fs)) && QuietBetween(schedule, old(clock), old(clock) + 5) && Escapes(old(clock) + 5)
      ensures ReportsLeftover(r) ==> fs != old(fs)
      ensures !r.Completed? && fs != old(fs) && !ReportsLeftover(r) <==>
              Admissible(plan, accepted, old(fs)) && QuietBetween(schedule, old(clock), old(clock) + 5) &&
              Escapes(old(clock) + 5) &&
              schedule(old(clock) + 7) != Succeeds
      // Every report is honest, and success is logged exactly when it is returned.
      ensures Honest(progress, movedAt, moved, |manifest|)
      ensures Successes(audit) == Successes(old(audit)) + if r.Completed? then 1 else 0
      ensures r.Completed? ==>
                audit == old(audit) + [MigrationStarted] +
                         (if HasProtectedKeys(source) then [MigrationWarning] else []) + [MigrationSuccess]
      // A cancellation is the answer exactly if a poll saw it, unless the closing entry fails.
      ensures r == Failed(Cancelled) || r == RollbackFailed(Cancelled) ==> !Uncancelled(old(polls), polls)
      ensures !Uncancelled(old(polls), polls) ==> r in {Failed(Cancelled), RollbackFailed(Cancelled), Failed(AuditError)}
      ensures Undisturbed(old(clock), clock, old(polls), polls) ==>
                (r.Completed? <==> Admissible(plan, accepted, old(fs)) && Doable(plan)) &&
                (!Admissible(plan, accepted, old(fs)) ==> r == Failed(Refusal(plan, accepted, old(fs)))) &&
                (Admissible(plan, accepted, old(fs)) && !r.Completed? ==> r.Failed? && Explained(r.error))
      ensures r.Completed? ==> Narrated(PlanManifest(listing, source, Roots(plan)), progress)
      ensures !r.Completed? && progress != [] ==> progress[|progress| - 1].phase == RollingBack
      ensures !r.Completed? && progress == [] ==>
                !(Admissible(plan, accepted, old(fs)) && QuietBetween(schedule, old(clock), old(clock) + 5))
    {
      hide Explained, Environment, Faithful, PlanManifest, Roots, Doable, Closed;
      hide Admissible, Refusal, HasProtectedKeys, ReceiptOf;
      hide Narrated, Successes, Finished, Bare, Honest, SelectionCopied, Escapes, Parent;
      NoReports();
      var admitted := Admit(plan, accepted);
      if admitted.Err? {
        return Failed(admitted.error);
      }
      TargetIsFree(plan, accepted, fs);
      r := Transact(plan);
    }

    lemma NoReports()
      requires progress == [] && movedAt == [] && manifest == [] && moved == 0
      ensures Honest(progress, movedAt, moved, |manifest|)
    {
    }

    lemma TargetIsFree(plan: Plan, accepted: bool, fs: Tree)
      requires target != [] && Admissible(plan, accepted, fs) && Closed(fs)
      ensures target !in fs && Bare(fs, target)
    {
      forall x | x in fs ensures !(target < x) {
        if target < x {
          ClosedUp(fs, target, x);
        }
      }
    }

    lemma EnvironmentIsClosed()
      requires Environment()
      ensures Closed(source)
    {
    }
  }

  lemma Regroup(a: seq<Line>, b: seq<Line>, c: seq<Line>)
    ensures (a + b) + c == a + (b + c)
  {
  }

  /** The figures of the transaction and of every report so far. */
  ghost predicate Books(observed: nat, manifest: seq<Line>, moved: nat, progress: seq<Progress>, movedAt: seq<nat>) {
    Ledger(observed, manifest, moved) && Honest(progress, movedAt, moved, |manifest|)
  }

  /** Between two files every byte moved belongs to a recorded file. */
  ghost predicate Balanced(manifest: seq<Line>, moved: nat, progress: seq<Progress>) {
    Sum(manifest) == moved && Narrated(manifest, progress)
  }

  /** The paths the user is told are being verified, in order. */
  ghost function Verified(progress: seq<Progress>): seq<Option<Path>> {
    if progress == [] then []
    else
      Verified(progress[..|progress| - 1]) +
      var last := progress[|progress| - 1];
      if last.phase == Verifying then [last.path] else []
  }

  ghost function PathsOf(manifest: seq<Line>): seq<Option<Path>> {
    seq(|manifest|, i requires 0 <= i < |manifest| => Some(manifest[i].path))
  }

  /** The reports start with the enumeration, and the files reported as being verified
      are those of the manifest, in its order. */
  ghost predicate Narrated(manifest: seq<Line>, progress: seq<Progress>) {
    progress != [] && progress[0] == Progress(Enumerating, None, 0, 0) && Verified(progress) == PathsOf(manifest)
  }

  /** Only reports of bytes copied for `q` were added. */
  ghost predicate OnlyCopying(before: seq<Progress>, after: seq<Progress>, q: Path) {
    before <= after && forall i :: |before| <= i < |after| ==> after[i].phase == Copying && after[i].path == Some(q)
  }

  lemma VerifiedNext(progress: seq<Progress>, p: Progress)
    ensures Verified(progress + [p]) == Verified(progress) + if p.phase == Verifying then [p.path] else []
  {
    assert (progress + [p])[..|progress|] == progress;
  }

  lemma {:induction false} NothingVerified(before: seq<Progress>, after: seq<Progress>, q: Path)
    requires OnlyCopying(before, after, q)
    ensures Verified(after) == Verified(before)
  {
    if |after| == |before| {
      assert after == before;
    } else {
      NothingVerified(before, after[..|after| - 1], q);
    }
  }

  lemma CopyingMore(first: seq<Progress>, before: seq<Progress>, q: Path, p: Progress)
    requires OnlyCopying(first, before, q) && p.phase == Copying && p.path == Some(q)
    ensures OnlyCopying(first, before + [p], q)
  {
  }

  lemma NotCopying(progress: seq<Progress>, q: Path)
    ensures OnlyCopying(progress, progress, q)
  {
  }

  lemma NarratedFile(manifest: seq<Line>, before: seq<Progress>, after: seq<Progress>, line: Line)
    requires Narrated(manifest, before) && before <= after && Verified(after) == Verified(before) + [Some(line.path)]
    ensures Narrated(manifest + [line], after)
  {
    assert PathsOf(manifest + [line]) == PathsOf(manifest) + [Some(line.path)];
  }

  lemma NarratedEnd(manifest: seq<Line>, progress: seq<Progress>, p: Progress)
    requires Narrated(manifest, progress) && p.phase != Verifying
    ensures Narrated(manifest, progress + [p])
  {
    VerifiedNext(progress, p);
  }

  lemma NarratedStart(progress: seq<Progress>)
    requires progress == [Progress(Enumerating, None, 0, 0)]
    ensures Narrated([], progress)
  {
    assert progress == [] + progress;
    VerifiedNext([], progress[0]);
  }

  /** No child of `p` is a reparse point. */
  ghost predicate NoLinks(t: Tree, p: Path) {
    forall n :: n in Children(t, p) ==> p + [n] in t && t[p + [n]] != Reparse
  }

  ghost predicate CopyableAt(t: Tree, q: Path) {
    q in t && CanCopy(t[q]) && Copyable(t, q)
  }

  lemma CopyableSplits(t: Tree, q: Path)
    requires q in t
    ensures CopyableAt(t, q) <==> CanCopy(t[q]) && Copyable(t, q)
  {
  }

  lemma BooksOpen(observed: nat, manifest: seq<Line>, moved: nat, progress: seq<Progress>, movedAt: seq<nat>)
    requires Books(observed, manifest, moved, progress, movedAt)
    ensures Ledger(observed, manifest, moved) && Honest(progress, movedAt, moved, |manifest|)
    ensures Balanced(manifest, moved, progress) ==> Sum(manifest) == moved && Narrated(manifest, progress)
  {
  }

  lemma BooksClose(observed: nat, manifest: seq<Line>, moved: nat, progress: seq<Progress>, movedAt: seq<nat>)
    requires Ledger(observed, manifest, moved) && Honest(progress, movedAt, moved, |manifest|)
    ensures Books(observed, manifest, moved, progress, movedAt)
    ensures Sum(manifest) == moved && Narrated(manifest, progress) ==> Balanced(manifest, moved, progress)
  {
  }

  lemma CopyableHasNoLinks(t: Tree, p: Path)
    ensures Copyable(t, p) ==> NoLinks(t, p)
  {
    forall n | n in Children(t, p) ensures p + [n] in Under(t, p) {
      ChildrenAre(t, p, n);
    }
  }

  lemma LinkFound(t: Tree, p: Path, n: Name)
    requires n in Children(t, p) && p + [n] in t && t[p + [n]] == Reparse
    ensures !NoLinks(t, p)
  {
  }

  lemma FileCopied(before: Tree, after: Tree, target: Path, t: Tree, q: Path)
    requires Closed(t) && q in t && t[q].File? && CanCopy(t[q])
    requires target + q !in before && after == before[target + q := t[q]]
    ensures Copied(before, after, target, t, Under(t, q) + {q}) && CopyableAt(t, q)
  {
    NothingBelow(t, q);
    assert At(target, Under(t, q) + {q}) == {target + q};
  }

  lemma DirectoryCopied(before: Tree, after: Tree, target: Path, t: Tree, q: Path)
    requires q in t && t[q] == Directory && Vacant(before, target, Under(t, q) + {q})
    requires after == before[target + q := Directory]
    ensures Copied(before, after, target, t, {q}) && Vacant(after, target, Under(t, q))
  {
    assert At(target, {q}) == {target + q};
    StillVacant(before, after, target, t, {q}, Under(t, q));
  }

  lemma NothingCopied(fs: Tree, target: Path, t: Tree)
    ensures Copied(fs, fs, target, t, {})
  {
    assert At(target, {}) == {};
  }

  lemma NoComponents(fs: Tree, target: Path, t: Tree, root: Path)
    ensures Copied(fs, fs, target, t, Components(root[..0]))
  {
    assert Components(root[..0]) == {};
    NothingCopied(fs, target, t);
  }

  lemma ComponentsSplit(root: Path, k: nat)
    requires k < |root|
    ensures Components(root[..k + 1]) == Components(root[..k]) + {root[..k + 1]}
    ensures Components(root[..k]) !! {root[..k + 1]} && root[..k + 1] in Components(root)
  {
    var a, b := root[..k], root[..k + 1];
    forall q ensures q in Components(b) <==> q in Components(a) + {b} {
      if q in Components(b) {
        var j :| 1 <= j <= |b| && q == b[..j];
        assert j <= k ==> q == a[..j];
      }
      if q in Components(a) {
        var j :| 1 <= j <= |a| && q == a[..j];
        assert q == b[..j];
      }
      assert b == b[..k + 1];
    }
    assert root[..k + 1] in Components(root);
  }

  lemma NextComponent(first: Tree, fs: Tree, target: Path, t: Tree, created: seq<Path>, root: Path, k: nat)
    requires k < |root| && Vacant(first, target, Components(root)) && target + root[..k] in created
    requires Copied(first, fs, target, t, Components(root[..k]))
    ensures target + root[..k + 1] !in fs && Placed(target, created, target + root[..k + 1])
    ensures target < target + root[..k + 1]
  {
    ComponentsSplit(root, k);
    StillVacant(first, fs, target, t, Components(root[..k]), {root[..k + 1]});
    assert root[..k + 1] in {root[..k + 1]};
    assert Parent(target + root[..k + 1]) == target + root[..k];
  }

  lemma ComponentDone(first: Tree, before: Tree, fs: Tree, target: Path, t: Tree, root: Path, k: nat)
    requires k < |root| && Present(t, root) && target + root[..k + 1] !in before
    requires Copied(first, before, target, t, Components(root[..k])) && fs == before[target + root[..k + 1] := Directory]
    ensures Copied(first, fs, target, t, Components(root[..k + 1]))
  {
    var q := root[..k + 1];
    ComponentsSplit(root, k);
    assert At(target, {q}) == {target + q};
    CopiedTwice(first, before, fs, target, t, Components(root[..k]), {q});
  }

  lemma CopyableRootOpens(t: Tree, root: Path)
    ensures CopyableRoot(t, root) ==> !Blocked(t, root)
  {
  }

  lemma RootAbsent(listing: Listing, fs: Tree, target: Path, t: Tree, root: Path)
    requires !Present(t, root) && !Blocked(t, root)
    ensures Copied(fs, fs, target, t, RootPaths(t, root)) && RootManifest(listing, t, root) == [] && CopyableRoot(t, root)
  {
    NothingCopied(fs, target, t);
  }

  lemma RootPresent(listing: Listing, t: Tree, root: Path)
    requires Present(t, root) && !Blocked(t, root) && root != []
    ensures root in t && RootManifest(listing, t, root) == TreeManifest(listing, t, root)
    ensures RootPaths(t, root) == Components(root) + Under(t, root) && (CopyableRoot(t, root) <==> Copyable(t, root))
  {
    assert root[..|root|] == root;
  }

  lemma RootVacant(fs: Tree, target: Path, t: Tree, root: Path)
    requires Vacant(fs, target, RootPaths(t, root)) && Present(t, root)
    ensures Vacant(fs, target, Components(root)) && Vacant(fs, target, Under(t, root))
    ensures root != [] ==> root in t && t[root] == Directory
  {
    assert root[..|root|] == root;
  }

  lemma StillVacantBelow(before: Tree, fs: Tree, target: Path, t: Tree, root: Path)
    requires Vacant(before, target, Under(t, root)) && Copied(before, fs, target, t, Components(root))
    ensures Vacant(fs, target, Under(t, root))
  {
    StillVacant(before, fs, target, t, Components(root), Under(t, root));
  }

  /** The last report shows the figures of the receipt. */
  ghost predicate Finished(progress: seq<Progress>, receipt: Receipt) {
    progress != [] &&
    progress[|progress| - 1] == Progress(Finalizing, None, receipt.copiedFiles, receipt.copiedBytes)
  }

  lemma LastReport(before: seq<Progress>, after: seq<Progress>, receipt: Receipt)
    requires after == before + [Progress(Finalizing, None, receipt.copiedFiles, receipt.copiedBytes)]
    ensures Finished(after, receipt)
  {
  }

  lemma NothingRecorded(manifest: seq<Line>, moved: nat, progress: seq<Progress>)
    requires manifest == [] && moved == 0 && progress == [Progress(Enumerating, None, 0, 0)]
    ensures Balanced(manifest, moved, progress)
  {
    NarratedStart(progress);
  }

  lemma StartsAtTarget(target: Path, base: Tree)
    ensures Placed(target, [], target)
    ensures Bare(base, target) ==> Bare(base[target := Directory], target)
  {
  }

  ghost function Successes(audit: seq<Event>): nat {
    multiset(audit)[MigrationSuccess]
  }

  /** Nothing stands below the target. */
  ghost predicate Bare(fs: Tree, target: Path) {
    forall x :: x in fs ==> !(target < x)
  }

  lemma BareIs(fs: Tree, target: Path)
    requires Bare(fs, target)
    ensures forall x :: x in fs ==> !(target < x)
  {
  }

  ghost predicate AllCopyable(t: Tree, roots: seq<Path>) {
    forall r :: r in roots ==> CopyableRoot(t, r)
  }

  lemma NoRoots(listing: Listing, fs: Tree, target: Path, t: Tree, roots: seq<Path>)
    ensures Copied(fs, fs, target, t, WantedPaths(t, roots[..0])) && PlanManifest(listing, t, roots[..0]) == []
  {
    assert WantedPaths(t, roots[..0]) == {};
    NothingCopied(fs, target, t);
  }

  lemma NextRoot(first: Tree, fs: Tree, target: Path, t: Tree, roots: seq<Path>, i: nat)
    requires i < |roots| && Apart(roots) && Bare(first, target)
    requires Copied(first, fs, target, t, WantedPaths(t, roots[..i]))
    ensures Vacant(fs, target, RootPaths(t, roots[i])) && roots[i] != []
  {
    assert roots[i] in roots;
    hide Copied;
    WantedStep(t, roots, i);
    InRootPaths(t, roots[i]);
    hide RootPaths, WantedPaths;
    forall q | q in RootPaths(t, roots[i]) ensures target + q !in first {
      assert target < target + q;
    }
    StillVacant(first, fs, target, t, WantedPaths(t, roots[..i]), RootPaths(t, roots[i]));
  }

  lemma RootDone(listing: Listing, first: Tree, before: Tree, fs: Tree, target: Path, t: Tree, roots: seq<Path>, i: nat)
    requires i < |roots| && Apart(roots)
    requires Copied(first, before, target, t, WantedPaths(t, roots[..i]))
    requires Copied(before, fs, target, t, RootPaths(t, roots[i]))
    ensures Copied(first, fs, target, t, WantedPaths(t, roots[..i + 1]))
    ensures PlanManifest(listing, t, roots[..i + 1]) == PlanManifest(listing, t, roots[..i]) + RootManifest(listing, t, roots[i])
    ensures forall r :: r in roots[..i + 1] <==> r in roots[..i] || r == roots[i]
  {
    hide Copied, RootPaths, RootManifest;
    WantedStep(t, roots, i);
    hide WantedPaths, Apart;
    assert roots[..i + 1] == roots[..i] + [roots[i]] && roots[..i + 1][..i] == roots[..i];
    CopiedTwice(first, before, fs, target, t, WantedPaths(t, roots[..i]), RootPaths(t, roots[i]));
  }

  /** The entries `names` of `p` have been copied. */
  ghost predicate Done(first: Tree, fs: Tree, target: Path, t: Tree, p: Path, names: seq<Name>) {
    Copied(first, fs, target, t, Subtrees(t, p, names)) &&
    forall q :: q in Subtrees(t, p, names) ==> CanCopy(t[q])
  }

  lemma NoneDone(listing: Listing, fs: Tree, target: Path, t: Tree, p: Path, names: seq<Name>)
    requires p in t
    ensures Done(fs, fs, target, t, p, names[..0]) && NamesManifest(listing, t, p, names[..0]) == []
  {
    assert Subtrees(t, p, names[..0]) == {};
    assert At(target, {}) == {};
  }

  lemma ChildOf(t: Tree, target: Path, created: seq<Path>, p: Path, n: Name)
    requires n in Children(t, p) && NoLinks(t, p) && target + p in created
    ensures p + [n] in t && t[p + [n]] != Reparse && Placed(target, created, target + (p + [n]))
    ensures p + [n] in Under(t, p) && Under(t, p + [n]) <= Under(t, p)
    ensures Copyable(t, p) ==> CopyableAt(t, p + [n])
  {
    ChildrenAre(t, p, n);
    assert Parent(target + (p + [n])) == target + p;
    assert forall q :: q in Under(t, p + [n]) ==> q in Under(t, p);
  }

  lemma NextEntry(first: Tree, fs: Tree, target: Path, t: Tree, created: seq<Path>, p: Path, names: seq<Name>, i: nat)
    requires Closed(t) && p in t && Enumerates(names, Children(t, p)) && Distinct(names) && NoLinks(t, p) && i < |names|
    requires Vacant(first, target, Under(t, p)) && Done(first, fs, target, t, p, names[..i]) && target + p in created
    ensures var q := p + [names[i]];
            q in t && t[q] != Reparse && Placed(target, created, target + q) &&
            Vacant(fs, target, Under(t, q) + {q}) && (Copyable(t, p) ==> CopyableAt(t, q))
  {
    var n, q := names[i], p + [names[i]];
    assert n in names && n in Children(t, p);
    ChildOf(t, target, created, p, n);
    hide Copyable, CopyableAt, NoLinks, Placed, Closed, Under, Copied;
    LastNotBefore(names[..i + 1]);
    assert names[..i + 1][..i] == names[..i];
    BelowSplit(t, p, names[..i], n);
    StillVacant(first, fs, target, t, Subtrees(t, p, names[..i]), Under(t, q) + {q});
  }

  lemma EntryDone(listing: Listing, first: Tree, before: Tree, fs: Tree, target: Path, t: Tree, p: Path, names: seq<Name>, i: nat)
    requires p in t && i < |names| && CopyableAt(t, p + [names[i]])
    requires Done(first, before, target, t, p, names[..i])
    requires var q := p + [names[i]]; Copied(before, fs, target, t, Under(t, q) + {q})
    ensures Done(first, fs, target, t, p, names[..i + 1])
    ensures NamesManifest(listing, t, p, names[..i + 1]) ==
            NamesManifest(listing, t, p, names[..i]) + EntryManifest(listing, t, p + [names[i]])
  {
    hide Copied, CanCopy, EntryManifest;
    var q := p + [names[i]];
    assert names[..i + 1] == names[..i] + [names[i]] && names[..i + 1][..i] == names[..i];
    BelowSplit(t, p, names[..i], names[i]);
    CopiedTwice(first, before, fs, target, t, Subtrees(t, p, names[..i]), Under(t, q) + {q});
  }

  lemma AllDone(listing: Listing, first: Tree, fs: Tree, target: Path, t: Tree, p: Path, names: seq<Name>)
    requires Closed(t) && p in t && names == Sorted(listing(p)) && Enumerates(names, Children(t, p))
    requires Done(first, fs, target, t, p, names[..|names|])
    ensures Copied(first, fs, target, t, Under(t, p)) && Copyable(t, p)
    ensures TreeManifest(listing, t, p) == NamesManifest(listing, t, p, names[..|names|])
  {
    hide Sorted;
    assert names[..|names|] == names;
    BelowAll(t, p, names);
  }

  /** What `copy_file_verified` knows after its copy loop. */
  datatype Streamed = Streamed(copied: nat, digest: Digest)

  lemma CleanIsSafe(base: Tree, fs: Tree, target: Path, created: seq<Path>)
    requires Clean(base, fs, target, created)
    ensures Safe(base, fs, target, created)
  {
  }

  lemma SafeStart(base: Tree, fs: Tree, target: Path, created: seq<Path>)
    requires Safe(base, fs, target, created)
    ensures created != [] ==> Accounted(base, fs, target, created, false)
  {
  }

  lemma CleanStart(base: Tree, fs: Tree, target: Path, created: seq<Path>, strays: set<Path>)
    requires Safe(base, fs, target, created) && strays == Strays(base, fs, created)
    ensures Clean(base, fs, target, created) <==> strays == {}
  {
  }

  lemma AllRegistered(base: Tree, fs: Tree, created: seq<Path>)
    ensures Strays(base, fs, created) == {} ==> Registered(base, fs, created)
  {
  }

  lemma NoStrays(base: Tree, fs: Tree, failed: bool)
    ensures fs == base ==> Strays(base, fs, []) == {}
  {
  }

  lemma EmptyTransaction(base: Tree, target: Path)
    requires Closed(base) && target !in base
    ensures Clean(base, base, target, []) && Books(0, [], 0, [], [])
  {
    assert Strays(base, base, []) == {};
  }

  lemma OnlyTheTarget(base: Tree, fs: Tree, target: Path, created: seq<Path>)
    requires created == [] && Safe(base, fs, target, created)
    ensures Clean(base, fs, target, created) <==> fs == base
  {
    forall x | x in fs ensures Clean(base, fs, target, created) ==> x in base {
      if Clean(base, fs, target, created) { NotStray(base, fs, created, x); }
    }
    assert fs == base ==> Strays(base, fs, created) == {};
  }

  lemma OkIsKept(base: Tree, fs: Tree, target: Path, t: Tree, paths: set<Path>)
    requires target !in base && Copied(base[target := Directory], fs, target, t, paths)
    ensures forall x :: x in base ==> x in fs && fs[x] == base[x]
  {
  }

  lemma PushClean(base: Tree, fs: Tree, target: Path, created: seq<Path>, p: Path, n: Node)
    requires Clean(base, fs, target, created) && Placed(target, created, p) && p !in fs
    ensures Clean(base, fs[p := n], target, created + [p])
    ensures Safe(base, fs[p := n], target, created) && !Clean(base, fs[p := n], target, created)
  {
    Push(base, fs, target, created, p, n);
    PushedStray(base, fs, created, p, n);
  }

  lemma RewriteClean(base: Tree, fs: Tree, target: Path, created: seq<Path>, p: Path, n: Node)
    requires Clean(base, fs, target, created) && p in created
    ensures Clean(base, fs[p := n], target, created)
  {
    Rewrite(base, fs, target, created, p, n);
  }

  /** Whatever stands below the target was created by the transaction. */
  lemma BelowTarget(base: Tree, fs: Tree, target: Path, created: seq<Path>, p: Path)
    requires Clean(base, fs, target, created) && p in fs && target < p
    ensures p in created
  {
    NotStray(base, fs, created, p);
    if p in base {
      ClosedUp(base, target, p);
    }
  }

  /** A prefix of the content has been read, hashed and counted. */
  ghost predicate ReadSoFar(content: seq<Byte>, hashed: seq<Byte>, copied: nat) {
    |hashed| <= |content| && hashed == content[..|hashed|] && copied == Sat(|hashed|)
  }

  lemma NoneCopied(content: seq<Byte>)
    ensures ReadSoFar(content, [], 0)
  {
  }

  lemma AllRead(content: seq<Byte>, hashed: seq<Byte>, copied: nat)
    requires ReadSoFar(content, hashed, copied) && |hashed| == |content|
    ensures hashed == content && copied == Sat(|content|)
  {
  }

  lemma ReadMore(content: seq<Byte>, hashed: seq<Byte>, copied: nat, before: nat, chunk: seq<Byte>)
    requires ReadSoFar(content, hashed, copied) && |hashed| + |chunk| <= |content|
    requires chunk == content[|hashed|..|hashed| + |chunk|]
    ensures ReadSoFar(content, hashed + chunk, SaturatingAdd(copied, |chunk|))
    ensures SaturatingAdd(Sat(before), SaturatingAdd(copied, |chunk|)) == Sat(before + |hashed| + |chunk|)
  {
  }

  /** The two trees differ at most in what stands at `d`. */
  ghost predicate OnlyAt(before: Tree, after: Tree, d: Path) {
    d in after && after == before[d := after[d]]
  }

  lemma OnlyThere(before: Tree, after: Tree, d: Path)
    requires OnlyAt(before, after, d)
    ensures d in after
  {
  }

  lemma SameAt(fs: Tree, d: Path)
    requires d in fs
    ensures OnlyAt(fs, fs, d)
  {
  }

  lemma WrittenAgain(first: Tree, before: Tree, after: Tree, d: Path)
    requires OnlyAt(first, before, d) && OnlyAt(before, after, d)
    ensures OnlyAt(first, after, d)
  {
  }

  /** Recording a verified file keeps the figures and balances the books. */
  lemma RecordLine(observed: nat, manifest: seq<Line>, moved: nat, size: nat, line: Line,
                   progress: seq<Progress>, movedAt: seq<nat>)
    requires Ledger(observed, manifest, moved) && Sum(manifest) + size == moved && line.size == size
    requires Honest(progress, movedAt, moved, |manifest|)
    ensures Ledger(observed, manifest + [line], moved) && Sum(manifest + [line]) == moved
    ensures Honest(progress, movedAt, moved, |manifest + [line]|)
  {
    assert (manifest + [line])[..|manifest|] == manifest;
    HonestLater(progress, movedAt, moved, |manifest|, moved, |manifest| + 1);
  }
}
