// The recovery code of crates/audit-journal/src/legacy.rs and its caller in
// crates/app-ui/src/startup.rs, run under faults and under interference by
// instances that do not hold the bootstrap lock. Every durable effect is one
// step of `Protocol`; `trace` records the durable states the run went through,
// so a crash is the trace stopping anywhere.

module LegacyRecovery {
  import opened Faults
  import opened Protocol
  import opened MarkerLog

  datatype Error =
    | Storage
    | Privilege
    | PrivilegeRestore
    | OperationAndPrivilegeRestore
    | IdentityChanged
    | BadState(reason: LoadError)
    | Random
    | StatePublication
    | PublishedStateSync
    | CleanupFailed
    | AuditFailed

  datatype Result<+T> = Ok(value: T) | Err(error: Error)

  /** The state record an instance carries through one recovery. */
  datatype Migration = Migration(id: string, entry: Entry)

  datatype Lookup = Found(identity: Identity) | Missing | Failed

  /** What an unlocked instance does between two calls: inspection creates a
      product root when it finds none. */
  datatype Intrusion = Nobody | CreatesRoot(isTrusted: bool)

  /** The same migrations of the same objects, at whatever phases. */
  ghost predicate SameMigrations(before: map<string, Entry>, after: map<string, Entry>) {
    before.Keys == after.Keys && forall id :: id in before ==> after[id].source == before[id].source
  }

  /** A call up to the listing under the bootstrap lock fails: opening, locking or listing. */
  ghost predicate LockFails(schedule: Schedule, from: nat) {
    schedule(from) != Succeeds || schedule(from + 1) != Succeeds || schedule(from + 2) != Succeeds
  }

  function TempName(id: string, random: string): string {
    "." + id + "-" + random + ".tmp"
  }

  lemma TempIsNoStateName(id: string, random: string)
    ensures !IsStateName(TempName(id, random))
  {
    assert TempName(id, random)[0] == '.' && PREFIX[0] == 'm';
  }

  ghost predicate FreshNames(files: Files, randomIds: nat -> string, from: nat) {
    forall i: nat, id :: from <= i ==> TempName(id, randomIds(i)) !in files
  }

  lemma FreshNow(files: Files, randomIds: nat -> string, from: nat, id: string)
    ensures FreshNames(files, randomIds, from) ==> TempName(id, randomIds(from)) !in files
  {
    hide TempName;
  }

  lemma FreshAfterPublish(files: Files, files': Files, randomIds: nat -> string, from: nat, later: nat)
    requires FreshNames(files, randomIds, from) && from <= later
    requires forall n :: n in files' ==> n in files || IsStateName(n)
    ensures FreshNames(files', randomIds, later)
  {
    hide TempName, IsStateName;
    forall i: nat, id ensures !IsStateName(TempName(id, randomIds(i))) {
      TempIsNoStateName(id, randomIds(i));
    }
  }

  lemma ExtendRun(run: seq<State>, step: Step, s: State)
    requires IsRun(run) && Inv(run[|run| - 1]) && Do(run[|run| - 1], step, s)
    ensures IsRun(run + [s]) && Inv(s)
  {
    hide Inv, Do;
    StepKeepsInv(run[|run| - 1], step, s);
    assert (run + [s])[..|run|] == run;
    assert Steps(run[|run| - 1], s);
  }

  class ProgramData {
    var ns: Namespace
    var files: Files
    var born: nat
    var trusted: set<Identity>
    var audits: set<(Identity, string)>
    var clock: nat
    /** This instance holds the bootstrap lock. */
    var locked: bool
    const schedule: Schedule
    const intrusions: nat -> Intrusion
    const randomIds: nat -> string
    ghost var log: map<string, Entry>
    ghost var trace: seq<State>

    ghost function Now(): State
      reads this
    {
      State(ns, log, born, trusted, audits)
    }

    ghost predicate Valid()
      reads this
    {
      trace != [] && IsRun(trace) && trace[|trace| - 1] == Now() && Inv(Now()) && Matches(files, log)
    }

    ghost predicate Held()
      reads this
    {
      Valid() && locked
    }

    /** From now on no call fails and nobody interferes. */
    ghost predicate Quiet()
      reads this
    {
      Faults.Quiet(schedule, clock) && forall i: nat :: clock <= i ==> intrusions(i) == Nobody
    }

    /** No temporary name still to be drawn is already taken. */
    ghost predicate Fresh()
      reads this
    {
      FreshNames(files, randomIds, clock)
    }

    constructor (ns: Namespace, files: Files, born: nat, trusted: set<Identity>, audits: set<(Identity, string)>,
                 schedule: Schedule, intrusions: nat -> Intrusion, randomIds: nat -> string,
                 ghost log: map<string, Entry>)
      requires Inv(State(ns, log, born, trusted, audits)) && Matches(files, log)
      ensures Valid() && Now() == State(ns, log, born, trusted, audits) && this.files == files
      ensures trace == [Now()] && clock == 0 && !locked
    {
      hide Inv, Matches;
      this.ns, this.files, this.born, this.trusted, this.audits := ns, files, born, trusted, audits;
      this.schedule, this.intrusions, this.randomIds := schedule, intrusions, randomIds;
      this.clock, this.locked := 0, false;
      this.log := log;
      this.trace := [State(ns, log, born, trusted, audits)];
    }

    /** Every durable step of the recovery itself is taken under the lock. */
    ghost method Record(step: Step)
      requires step.Intrude? || locked
      requires trace != [] && IsRun(trace) && Inv(trace[|trace| - 1]) && Do(trace[|trace| - 1], step, Now())
      modifies this`trace
      ensures IsRun(trace) && trace == old(trace) + [Now()] && Inv(Now())
    {
      hide Inv, Do, IsRun;
      ExtendRun(trace, step, Now());
      trace := trace + [Now()];
    }

    /** One call to the system: an unlocked instance may act first. */
    method Tick() returns (o: Outcome)
      requires Valid()
      modifies this
      ensures Valid() && old(trace) <= trace && files == old(files) && locked == old(locked)
      ensures Rely(old(Now()), Now())
      ensures clock == old(clock) + 1 && o == schedule(old(clock)) && (old(Fresh()) ==> Fresh())
      ensures old(Quiet()) ==> Quiet() && o == Succeeds && Now() == old(Now())
    {
      hide Inv, IsRun, Matches, TempName;
      o := schedule(clock);
      var intrusion := intrusions(clock);
      clock := clock + 1;
      if intrusion.CreatesRoot? && Product !in ns {
        ns, born, trusted :=
          ns[Product := born], born + 1, if intrusion.isTrusted then trusted + {born} else trusted;
        Record(Intrude(intrusion.isTrusted));
      }
    }

    /** `open_object_identity`, `open_object_for_detach`. */
    method IdentityAt(name: Name) returns (r: Lookup)
      requires Held()
      modifies this
      ensures Held() && old(trace) <= trace && files == old(files) && clock == old(clock) + 1 && (old(Fresh()) ==> Fresh())
      ensures Rely(old(Now()), Now())
      ensures r.Found? ==> Holds(ns, name, r.identity)
      ensures r.Missing? ==> name !in ns
      ensures old(Quiet()) ==> Quiet() && Now() == old(Now()) && !r.Failed?
      ensures !r.Failed? ==> schedule(old(clock)) == Succeeds
      ensures log == old(log)
    {
      hide Inv, IsRun, Matches, TempName, FreshNames;
      var outcome := Tick();
      if outcome != Succeeds {
        return Failed;
      }
      return if name in ns then Found(ns[name]) else Missing;
    }

    /** `StorageRoot::open_existing_under`: the product root, if protected. */
    method OpenReadyRoot() returns (r: Lookup)
      requires Held()
      modifies this
      ensures Held() && old(trace) <= trace && files == old(files) && clock > old(clock) && (old(Fresh()) ==> Fresh())
      ensures Rely(old(Now()), Now())
      ensures r.Found? ==> Holds(ns, Product, r.identity) && r.identity in trusted
      ensures r.Missing? ==> Product !in ns
      ensures old(Quiet()) ==> Quiet() && Now() == old(Now()) && (r.Failed? ==> Product in ns && ns[Product] !in trusted)
      ensures !r.Failed? ==> QuietBetween(schedule, old(clock), clock)
      ensures log == old(log)
    {
      hide Inv, IsRun, Matches, TempName, FreshNames;
      r := IdentityAt(Product);
      if r.Found? && r.identity !in trusted {
        return Failed;
      }
    }

    /** `create_protected_child`: fails when the name is taken. The caller holds
        the old root open under the product name. */
    method CreateNextRoot(id: string) returns (ok: bool)
      requires Held() && Idle(log) && Product in ns
      modifies this
      ensures Held() && old(trace) <= trace && files == old(files) && clock > old(clock) && (old(Fresh()) ==> Fresh())
      ensures Now() == old(Now()) ||
              (Next(id) !in old(ns) && Now() == old(Now()).(ns := old(ns)[Next(id) := old(born)], born := old(born) + 1,
                                                            trusted := old(trusted) + {old(born)}))
      ensures ok ==> Next(id) !in old(ns) && Holds(ns, Next(id), old(born))
      ensures old(Quiet()) ==> Quiet() && (ok <==> Next(id) !in old(ns)) && (!ok ==> Now() == old(Now()))
      ensures ok ==> QuietBetween(schedule, old(clock), clock)
      ensures !ok && Next(id) in ns && Next(id) !in old(ns) ==> schedule(old(clock)) == FailsAfter
    {
      hide Inv, IsRun, Matches, TempName, FreshNames;
      var outcome := Tick();
      if Next(id) in ns || outcome == FailsBefore {
        return false;
      }
      ns, born, trusted := ns[Next(id) := born], born + 1, trusted + {born};
      Record(CreateNext(id));
      return outcome == Succeeds;
    }

    method RemoveNextRoot(id: string) returns (ok: bool)
      requires Held() && Next(id) in ns && Idle(log)
      modifies this
      ensures Held() && old(trace) <= trace && files == old(files) && log == old(log) && clock > old(clock) && (old(Fresh()) ==> Fresh())
      ensures old(Quiet()) ==> Quiet() && ok && ns == old(ns) - {Next(id)}
      ensures ok ==> Next(id) !in ns
    {
      hide Inv, IsRun, Matches, TempName, FreshNames;
      var outcome := Tick();
      if outcome == FailsBefore {
        return false;
      }
      ns := ns - {Next(id)};
      Record(RemoveNext(id));
      return outcome == Succeeds;
    }

    /** Renames the old root by handle to its detached name. */
    method RenameSource(id: string) returns (ok: bool)
      requires Held() && id in log && log[id].phase == Prepared && Holds(ns, Product, log[id].source)
      modifies this
      ensures Held() && old(trace) <= trace && files == old(files) && clock > old(clock) && (old(Fresh()) ==> Fresh())
      ensures Now() == old(Now()) || Now() == old(Now()).(ns := Move(old(ns), Product, Legacy(id)))
      ensures ok ==> ns == Move(old(ns), Product, Legacy(id))
      ensures old(Quiet()) ==> Quiet() && ok
      ensures ok ==> QuietBetween(schedule, old(clock), clock)
      ensures log == old(log)
    {
      hide Inv, IsRun, Matches, TempName, FreshNames;
      assert Legacy(id) !in ns by { SourceNotDetached(Now(), id); }
      var outcome := Tick();
      if Legacy(id) in ns || outcome == FailsBefore {
        return false;
      }
      ns := Move(ns, Product, Legacy(id));
      Record(Detach(id));
      return outcome == Succeeds;
    }

    /** Renames the prepared root to the product name; never replaces. */
    method RenameNext(id: string) returns (ok: bool)
      requires Held() && id in log && log[id].phase == Detached && Holds(ns, Next(id), log[id].next)
      modifies this
      ensures Held() && old(trace) <= trace && files == old(files) && clock > old(clock) && (old(Fresh()) ==> Fresh())
      ensures Rely(old(Now()), Now()) || Now() == old(Now()).(ns := Move(old(ns), Next(id), Product))
      ensures ok ==> Now() == old(Now()).(ns := Move(old(ns), Next(id), Product))
      ensures old(Quiet()) ==> Quiet() && (ok <==> Product !in old(ns))
      ensures ok ==> QuietBetween(schedule, old(clock), clock)
      ensures log == old(log)
    {
      hide Inv, IsRun, Matches, TempName, FreshNames;
      var outcome := Tick();
      if Product in ns || outcome == FailsBefore {
        return false;
      }
      ns := Move(ns, Next(id), Product);
      Record(Activate(id));
      return outcome == Succeeds;
    }

    /** `write_state`: an existing final file must be identical; otherwise a
        temporary file is written, synchronized and renamed into place. A failed
        rename leaves the marker out unless it took effect all the same and the
        deletion that follows fails; the final synchronization may fail after it. */
    method WriteState(id: string, e: Entry) returns (r: Result<()>)
      requires Held()
      requires CanMark(Now(), id, e) || (e.phase == Prepared && id in log && log[id].next != e.next)
      modifies this
      ensures Held() && old(trace) <= trace && clock > old(clock)
      ensures log == old(log) || log == old(log)[id := e]
      ensures Rely(old(Now()).(log := log), Now())
      ensures r.Ok? || r.error == PublishedStateSync ==> log == old(log)[id := e] && CanMark(old(Now()), id, e)
      ensures r.Err? && r.error != PublishedStateSync && r.error != StatePublication ==> log == old(log)
      ensures old(Quiet()) && old(Fresh()) ==>
                Quiet() && Fresh() && Now() == old(Now()).(log := log) &&
                (r.Ok? <==> CanMark(old(Now()), id, e)) && (r.Err? ==> r.error == BadState(InvalidState))
      ensures r.Ok? ==> QuietBetween(schedule, old(clock), clock)
    {
      hide Inv, IsRun, Matches, TempName, FreshNames, FileName, CanMark, RecordOf;
      var name := FileName(id, e.phase);
      var outcome := Tick();
      if outcome != Succeeds {
        return Err(Storage);
      }
      if name in files {
        AlreadyThere(old(Now()), files, id, e);
        return if files[name] == Complete(RecordOf(id, e)) then Ok(()) else Err(BadState(InvalidState));
      }
      NotThere(old(Now()), files, id, e);
      CanMarkStable(old(Now()), Now(), id, e);
      r := PublishState(id, e);
    }

    /** The temporary file, its publication and the final synchronization. */
    method PublishState(id: string, e: Entry) returns (r: Result<()>)
      requires Held() && CanMark(Now(), id, e)
      modifies this
      ensures Held() && old(trace) <= trace && clock > old(clock)
      ensures log == old(log) || log == old(log)[id := e]
      ensures Rely(old(Now()).(log := log), Now())
      ensures r.Ok? || r.error == PublishedStateSync ==> log == old(log)[id := e]
      ensures r.Err? && r.error != PublishedStateSync && r.error != StatePublication ==> log == old(log)
      ensures old(Quiet()) && old(Fresh()) ==> Quiet() && Fresh() && r.Ok? && Now() == old(Now()).(log := log)
      ensures r.Ok? ==> QuietBetween(schedule, old(clock), clock)
    {
      hide Inv, IsRun, Matches, TempName, FreshNames, FileName, CanMark, RecordOf, IsStateName;
      var temp := TempName(id, randomIds(clock));
      TempIsNoStateName(id, randomIds(clock));
      assert old(Fresh()) ==> temp !in files by { FreshNow(files, randomIds, clock, id); }
      var created := WriteTemporary(temp, RecordOf(id, e));
      if !created {
        return Err(Storage);
      }
      CanMarkStable(old(Now()), Now(), id, e);
      r := PublishTemporary(temp, id, e);
      if r.Ok? && old(Fresh()) {
        FreshAfterPublish(old(files), files, randomIds, old(clock), clock);
      }
    }

    method PublishTemporary(temp: string, id: string, e: Entry) returns (r: Result<()>)
      requires Held() && CanMark(Now(), id, e) && !IsStateName(temp)
      requires temp in files && files[temp] == Complete(RecordOf(id, e))
      modifies this
      ensures Held() && old(trace) <= trace && clock > old(clock)
      ensures log == old(log) || log == old(log)[id := e]
      ensures Rely(old(Now()).(log := log), Now())
      ensures r.Ok? || r.error == PublishedStateSync ==> log == old(log)[id := e]
      ensures r.Err? && r.error != PublishedStateSync && r.error != StatePublication ==> log == old(log)
      ensures old(Quiet()) ==> Quiet() && r.Ok? && Now() == old(Now()).(log := log)
      ensures r.Ok? ==> forall n :: n in files ==> (n in old(files) && n != temp) || IsStateName(n)
      ensures r.Ok? ==> QuietBetween(schedule, old(clock), clock)
      ensures r == Err(PublishedStateSync) ==> schedule(clock - 1) != Succeeds
      ensures r == Err(StatePublication) ==> clock == old(clock) + 2
      ensures r == Err(StatePublication) && temp in files ==> schedule(clock - 1) == FailsBefore
    {
      hide Inv, IsRun, Matches, TempName, FreshNames, FileName, CanMark, RecordOf, IsStateName;
      var outcome := Tick();
      CanMarkStable(old(Now()), Now(), id, e);
      if outcome == FailsBefore {
        RemoveTemporary(temp);
        return Err(StatePublication);
      }
      FileNameIsStateName(id, e.phase);
      if outcome == FailsAfter {
        DropPublished(temp, id, e);
        return Err(StatePublication);
      }
      Publish(temp, id, e);
      outcome := Tick();
      return if outcome == Succeeds then Ok(()) else Err(PublishedStateSync);
    }

    /** A rename that took effect although it reported a failure: dropping the
        created file deletes it by handle, and only if that fails too the marker stays. */
    method DropPublished(temp: string, id: string, e: Entry)
      requires Held() && CanMark(Now(), id, e) && temp in files && !IsStateName(temp)
      requires files[temp] == Complete(RecordOf(id, e))
      modifies this
      ensures Held() && old(trace) <= trace && clock > old(clock)
      ensures log == if schedule(old(clock)) == FailsBefore then old(log)[id := e] else old(log)
      ensures Rely(old(Now()).(log := log), Now())
      ensures temp !in files
      ensures clock == old(clock) + 1
    {
      hide Inv, IsRun, Matches, TempName, FreshNames, FileName, CanMark, RecordOf, IsStateName;
      FileNameIsStateName(id, e.phase);
      var outcome := Tick();
      CanMarkStable(old(Now()), Now(), id, e);
      if outcome == FailsBefore {
        Publish(temp, id, e);
      } else {
        TemporaryMatches(files, log, temp, Torn);
        files := files - {temp};
      }
    }

    /** The commit point of a marker: one rename without replacement. */
    method Publish(temp: string, id: string, e: Entry)
      requires Held() && CanMark(Now(), id, e) && temp in files && !IsStateName(temp)
      requires files[temp] == Complete(RecordOf(id, e))
      modifies this
      ensures Held() && old(trace) <= trace && clock == old(clock)
      ensures Now() == old(Now()).(log := old(log)[id := e])
      ensures files == (old(files) - {temp})[FileName(id, e.phase) := Complete(RecordOf(id, e))]
    {
      hide Inv, IsRun, Matches, TempName, FreshNames, FileName, CanMark, RecordOf, IsStateName;
      CanMarkAdvances(Now(), id, e);
      TemporaryMatches(files, log, temp, Torn);
      PublishMatches(files - {temp}, log, id, e);
      files := (files - {temp})[FileName(id, e.phase) := files[temp]];
      log := log[id := e];
      Record(Mark(id, e));
    }

    /** Creates, writes and synchronizes a temporary file; on failure the file
        is removed again as far as possible. */
    method WriteTemporary(temp: string, record: MarkerLog.Record) returns (ok: bool)
      requires Held() && !IsStateName(temp)
      modifies this
      ensures Held() && old(trace) <= trace && clock > old(clock) && Rely(old(Now()), Now())
      ensures ok ==> temp !in old(files) && files == old(files)[temp := Complete(record)]
      ensures old(Quiet()) ==> Quiet() && Now() == old(Now()) && (ok <==> temp !in old(files))
      ensures ok ==> QuietBetween(schedule, old(clock), clock)
    {
      hide Inv, IsRun, Matches, TempName, FreshNames, FileName, IsStateName;
      var outcome := Tick();
      if temp in files || outcome == FailsBefore {
        return false;
      }
      SetTemporary(temp, Torn);
      if outcome == FailsAfter {
        return false;
      }
      outcome := Tick();
      if outcome != Succeeds {
        RemoveTemporary(temp);
        return false;
      }
      SetTemporary(temp, Complete(record));
      assert files == old(files)[temp := Torn][temp := Complete(record)];
      return true;
    }

    method SetTemporary(temp: string, content: Content)
      requires Held() && !IsStateName(temp)
      modifies this`files
      ensures Held() && files == old(files)[temp := content]
    {
      hide Inv, IsRun, Matches, TempName, FileName, IsStateName;
      TemporaryMatches(files, log, temp, content);
      files := files[temp := content];
    }

    method RemoveTemporary(temp: string)
      requires Held() && !IsStateName(temp)
      modifies this
      ensures Held() && old(trace) <= trace && clock > old(clock) && Rely(old(Now()), Now())
      ensures old(Quiet()) ==> Quiet() && Now() == old(Now())
      ensures temp in files ==> schedule(old(clock)) == FailsBefore && clock == old(clock) + 1
      ensures clock == old(clock) + 1
    {
      hide Inv, IsRun, Matches, TempName, FreshNames, FileName, IsStateName;
      var outcome := Tick();
      if outcome != FailsBefore {
        TemporaryMatches(files, log, temp, Torn);
        files := files - {temp};
      }
    }

    /** `finish_privileged_namespace` over a unit result: a failed privilege
        restoration turns success into an error. */
    method RestorePrivileges<T>(operation: Result<T>) returns (r: Result<T>)
      requires Held()
      modifies this
      ensures Held() && old(trace) <= trace && files == old(files) && clock == old(clock) + 1 && (old(Fresh()) ==> Fresh())
      ensures Rely(old(Now()), Now())
      ensures r.Ok? <==> operation.Ok? && schedule(old(clock)) == Succeeds
      ensures schedule(old(clock)) == Succeeds ==> r == operation
      ensures schedule(old(clock)) != Succeeds ==>
                r == Err(if operation.Ok? then PrivilegeRestore else OperationAndPrivilegeRestore)
      ensures old(Quiet()) ==> Quiet() && Now() == old(Now()) && r == operation
    {
      hide Inv, IsRun, Matches, TempName, FreshNames, FileName, CanMark, Coupled;
      var outcome := Tick();
      if outcome == Succeeds {
        return operation;
      }
      return Err(if operation.Ok? then PrivilegeRestore else OperationAndPrivilegeRestore);
    }

    /** `verify_ready_root`. */
    method VerifyReadyRoot(id: string, e: Entry) returns (ok: bool)
      requires Held()
      modifies this
      ensures Held() && old(trace) <= trace && files == old(files) && clock > old(clock) && (old(Fresh()) ==> Fresh())
      ensures Rely(old(Now()), Now())
      ensures ok ==> Holds(ns, Product, e.next) && e.next in trusted && Holds(ns, Legacy(id), e.source)
      ensures old(Quiet()) ==>
                Quiet() && Now() == old(Now()) &&
                (ok <==> Holds(ns, Product, e.next) && e.next in trusted && Holds(ns, Legacy(id), e.source))
      ensures ok ==> QuietBetween(schedule, old(clock), clock)
      ensures log == old(log)
    {
      hide Inv, IsRun, Matches, TempName, FreshNames, FileName, CanMark, Coupled;
      var root := OpenReadyRoot();
      if !root.Found? || root.identity != e.next {
        return false;
      }
      var legacy := IdentityAt(Legacy(id));
      return legacy == Found(e.source);
    }

    /** From Prepared: the old root is detached, now or before a crash. */
    method EnsureDetached(id: string, e: Entry) returns (r: Result<()>)
      requires Held() && id in log && log[id] == e && e.phase == Prepared
      modifies this
      ensures Held() && old(trace) <= trace && files == old(files) && clock > old(clock) && (old(Fresh()) ==> Fresh())
      ensures log == old(log)
      ensures r.Ok? ==> Holds(ns, Legacy(id), e.source)
      ensures old(Quiet()) ==> Quiet() && (r.Ok? <==> SourceOrFree(old(ns), e)) && (r.Ok? ==> Product !in ns)
      ensures old(Quiet()) && r.Err? ==> r.error == IdentityChanged
      ensures r.Ok? ==> QuietBetween(schedule, old(clock), clock)
    {
      hide Inv, IsRun, Matches, TempName, FreshNames, FileName, CanMark, Coupled;
      SourcePlace(Now(), id);
      var source := IdentityAt(Product);
      match source {
        case Failed => return Err(Storage);
        case Found(identity) =>
          if identity != e.source {
            return Err(IdentityChanged);
          }
          var renamed := RenameSource(id);
          if !renamed {
            return Err(Storage);
          }
        case Missing =>
          var legacy := IdentityAt(Legacy(id));
          if !legacy.Found? {
            return Err(Storage);
          }
          if legacy.identity != e.source {
            return Err(IdentityChanged);
          }
      }
      SourcePlace(Now(), id);
      return Ok(());
    }

    /** The part of `resume_namespace` that starts from Prepared. */
    method ResumePrepared(id: string, e: Entry) returns (r: Result<()>)
      requires Held() && id in log && log[id] == e && e.phase == Prepared
      modifies this
      ensures Held() && old(trace) <= trace && clock > old(clock)
      ensures SameMigrations(old(log), log)
      ensures r.Ok? ==> log == old(log)[id := e.(phase := Detached)]
      ensures old(Quiet()) && old(Fresh()) ==> Quiet() && Fresh() && (r.Ok? <==> SourceOrFree(old(ns), e))
      ensures old(Quiet()) && old(Fresh()) && r.Err? ==> r.error == IdentityChanged
      ensures old(Quiet()) && old(Fresh()) && r.Ok? ==> Product !in ns
      ensures r.Ok? ==> QuietBetween(schedule, old(clock), clock)
    {
      hide Inv, IsRun, Matches, TempName, FreshNames, FileName, CanMark, Coupled, SourceOrFree;
      r := EnsureDetached(id, e);
      if r.Err? {
        return;
      }
      MarkDetachedOk(Now(), id, e);
      r := WriteState(id, e.(phase := Detached));
    }

    /** From Detached: the new root is active, now or before a crash. */
    method EnsureActive(id: string, e: Entry) returns (r: Result<()>)
      requires Held() && id in log && log[id] == e && e.phase == Detached
      modifies this
      ensures Held() && old(trace) <= trace && files == old(files) && clock > old(clock) && (old(Fresh()) ==> Fresh())
      ensures log == old(log)
      ensures r.Ok? ==> Holds(ns, Product, e.next)
      ensures old(Quiet()) ==> Quiet() && (r.Ok? <==> NextOrFree(old(ns), e)) && (r.Err? ==> r.error == Storage)
      ensures r.Ok? ==> QuietBetween(schedule, old(clock), clock)
    {
      hide Inv, IsRun, Matches, TempName, FreshNames, FileName, CanMark, Coupled, Rely;
      DetachedPlace(Now(), id);
      var legacy := IdentityAt(Legacy(id));
      if !legacy.Found? {
        return Err(Storage);
      }
      if legacy.identity != e.source {
        return Err(IdentityChanged);
      }
      var next := IdentityAt(Next(id));
      match next {
        case Failed => return Err(Storage);
        case Found(identity) =>
          if identity != e.next {
            return Err(IdentityChanged);
          }
          var renamed := RenameNext(id);
          return if renamed then Ok(()) else Err(Storage);
        case Missing =>
          var ready := VerifyReadyRoot(id, e);
          return if ready then Ok(()) else Err(IdentityChanged);
      }
    }

    /** The part of `resume_namespace` that starts from Detached. */
    method ResumeDetached(id: string, e: Entry) returns (r: Result<()>)
      requires Held() && id in log && log[id] == e && e.phase == Detached
      modifies this
      ensures Held() && old(trace) <= trace && clock > old(clock)
      ensures SameMigrations(old(log), log)
      ensures r.Ok? ==> log == old(log)[id := e.(phase := RootReady)]
      ensures old(Quiet()) && old(Fresh()) ==> Quiet() && Fresh() && (r.Ok? <==> NextOrFree(old(ns), e))
      ensures old(Quiet()) && old(Fresh()) && r.Err? ==> r.error == Storage
      ensures r.Ok? ==> QuietBetween(schedule, old(clock), clock)
    {
      hide Inv, IsRun, Matches, TempName, FreshNames, FileName, CanMark, Coupled, NextOrFree;
      r := EnsureActive(id, e);
      if r.Err? {
        return;
      }
      MarkReadyOk(Now(), id, e);
      r := WriteState(id, e.(phase := RootReady));
    }

    method ResumeSteps(id: string, e: Entry) returns (r: Result<()>)
      requires Held() && id in log && log[id] == e && e.phase != Done
      modifies this
      ensures Held() && old(trace) <= trace && clock > old(clock)
      ensures SameMigrations(old(log), log)
      ensures r.Ok? ==> log == old(log)[id := Resumed(Migration(id, e)).entry] && Product in ns
      ensures r.Ok? ==> ns == Settled(old(ns), id, e)
      ensures old(Quiet()) && old(Fresh()) ==> Quiet() && Fresh() && (r.Ok? <==> OwnProduct(old(ns), e))
      ensures old(Quiet()) && old(Fresh()) && r.Err? ==> r.error == ResumeRefusal(e)
      ensures r.Ok? ==> QuietBetween(schedule, old(clock), clock)
    {
      hide Inv, IsRun, Matches, TempName, FreshNames, FileName, CanMark, Coupled;
      r := ResumeByPhase(id, e);
      if r.Ok? {
        SettledSince(trace, |old(trace)| - 1, id);
        ProductOfPending(Now(), id);
      }
    }

    method ResumeByPhase(id: string, e: Entry) returns (r: Result<()>)
      requires Held() && id in log && log[id] == e && e.phase != Done
      modifies this
      ensures Held() && old(trace) <= trace && clock > old(clock)
      ensures SameMigrations(old(log), log)
      ensures r.Ok? ==> log == old(log)[id := Resumed(Migration(id, e)).entry]
      ensures old(Quiet()) && old(Fresh()) ==> Quiet() && Fresh() && (r.Ok? <==> OwnProduct(old(ns), e))
      ensures old(Quiet()) && old(Fresh()) && r.Err? ==> r.error == ResumeRefusal(e)
      ensures r.Ok? ==> QuietBetween(schedule, old(clock), clock)
    {
      hide Inv, IsRun, Matches, TempName, FreshNames, FileName, CanMark, Coupled;
      OwnProductByPhase(Now(), id);
      if Rank(e.phase) >= Rank(RootReady) {
        var ready := VerifyReadyRoot(id, e);
        return if ready then Ok(()) else Err(IdentityChanged);
      }
      if e.phase == Prepared {
        r := ResumePrepared(id, e);
        if r.Err? {
          return;
        }
      }
      r := ResumeDetached(id, e.(phase := Detached));
    }

    /** `resume_namespace`. */
    method ResumeNamespace(m: Migration) returns (r: Result<Migration>)
      requires Held() && m.id in log && log[m.id] == m.entry && m.entry.phase != Done
      modifies this
      ensures Held() && old(trace) <= trace && clock > old(clock)
      ensures SameMigrations(old(log), log)
      ensures r.Ok? ==> r.value == Resumed(m) && log == old(log)[m.id := r.value.entry] &&
                        ns == Settled(old(ns), m.id, r.value.entry)
      ensures old(Quiet()) && old(Fresh()) ==> Quiet() && Fresh() && (r.Ok? <==> OwnProduct(old(ns), m.entry))
      ensures old(Quiet()) && old(Fresh()) && r.Err? ==> r.error == ResumeRefusal(m.entry)
      ensures r.Ok? ==> QuietBetween(schedule, old(clock), clock)
    {
      hide Inv, IsRun, Matches, TempName, FreshNames, FileName, CanMark, Coupled, Settled, OwnProduct, ResumeRefusal;
      SettledAnyPhase(m);
      var outcome := Tick();
      if outcome != Succeeds {
        return Err(Privilege);
      }
      RelyKeepsSettled(old(Now()), Now());
      var operation := ResumeSteps(m.id, m.entry);
      var restored := RestorePrivileges(operation);
      if restored.Err? {
        return Err(restored.error);
      }
      return Ok(Resumed(m));
    }

    /** The part of `start_namespace` up to the Prepared marker. */
    method PrepareMigration(detected: Identity) returns (r: Result<string>)
      requires Held() && Idle(log) && detected < born
      modifies this
      ensures Held() && old(trace) <= trace && clock > old(clock)
      ensures OnlyConsented(old(log), log, detected)
      ensures r.Ok? ==> Holds(old(ns), Product, detected) &&
                        PreparedFrom(old(Now()), Now(), r.value, Entry(detected, old(born), Prepared))
      ensures old(Quiet()) && old(Fresh()) ==>
                (r.Ok? <==> Holds(old(ns), Product, detected) && Unused(old(Now()), randomIds(old(clock) + 1))) &&
                (r.Ok? ==> Quiet() && Fresh())
      ensures old(Quiet()) && old(Fresh()) && r.Err? ==>
                Quiet() && r.error == StartRefusal(old(ns), detected, randomIds(old(clock) + 1))
      ensures r.Ok? ==> QuietBetween(schedule, old(clock), clock)
    {
      hide Inv, IsRun, Matches, TempName, FreshNames, FileName, CanMark, Coupled;
      var source := IdentityAt(Product);
      if !source.Found? {
        return Err(Storage);
      }
      if source.identity != detected {
        return Err(IdentityChanged);
      }
      var id := randomIds(clock);
      var outcome := Tick();
      if outcome != Succeeds {
        return Err(Random);
      }
      r := CreateAndPersist(id, detected);
    }

    /** Creates the new root and persists the Prepared marker; removes the root
        again when the marker was certainly not published. */
    method CreateAndPersist(id: string, detected: Identity) returns (r: Result<string>)
      requires Held() && Idle(log) && Holds(ns, Product, detected)
      modifies this
      ensures Held() && old(trace) <= trace && clock > old(clock)
      ensures OnlyConsented(old(log), log, detected)
      ensures r.Ok? ==> r.value == id && PreparedFrom(old(Now()), Now(), id, Entry(detected, old(born), Prepared))
      ensures old(Quiet()) && old(Fresh()) ==>
                Quiet() && (r.Ok? <==> Unused(old(Now()), id)) && (r.Ok? ==> Fresh()) &&
                (r.Err? ==> r.error == if Next(id) in old(ns) then Storage else BadState(InvalidState))
      ensures r.Ok? ==> QuietBetween(schedule, old(clock), clock)
      // A new root is left without a marker only if its creation failed late or an error says so.
      ensures r.Err? && Next(id) in ns && Next(id) !in old(ns) ==>
                r.error in {PublishedStateSync, StatePublication, CleanupFailed} || schedule(old(clock)) == FailsAfter
    {
      hide Inv, IsRun, Matches, TempName, FreshNames, FileName, CanMark, Coupled;
      BornBounds(Now());
      var created := CreateNextRoot(id);
      if !created {
        return Err(Storage);
      }
      var e := Entry(detected, ns[Next(id)], Prepared);
      MarkPreparedOk(Now(), id, e);
      var written := WriteState(id, e);
      match written {
        case Ok(_) =>
          return Ok(id);
        case Err(error) =>
          if error == PublishedStateSync || error == StatePublication {
            return Err(error);
          }
          var removed := RemoveNextRoot(id);
          return Err(if removed then error else CleanupFailed);
      }
    }

    /** The part of `start_namespace` after the Prepared marker. */
    method DetachAndActivate(id: string, e: Entry) returns (r: Result<()>)
      requires Held() && id in log && log[id] == e && e.phase == Prepared && Holds(ns, Product, e.source)
      modifies this
      ensures Held() && old(trace) <= trace && clock > old(clock)
      ensures SameMigrations(old(log), log)
      ensures r.Ok? ==> log == old(log)[id := e.(phase := RootReady)] && Product in ns
      ensures r.Ok? ==> ns == Settled(old(ns), id, e)
      ensures old(Quiet()) && old(Fresh()) ==> Quiet() && Fresh() && r.Ok?
      ensures r.Ok? ==> QuietBetween(schedule, old(clock), clock)
    {
      hide Inv, IsRun, Matches, TempName, FreshNames, FileName, CanMark, Coupled;
      hide Settled, Rely;
      r := DetachSource(id, e);
      if r.Err? {
        return;
      }
      r := ActivateNext(id, e.(phase := Detached));
      if r.Ok? {
        SettledSince(trace, |old(trace)| - 1, id);
        ProductOfPending(Now(), id);
      }
    }

    method DetachSource(id: string, e: Entry) returns (r: Result<()>)
      requires Held() && id in log && log[id] == e && e.phase == Prepared && Holds(ns, Product, e.source)
      modifies this
      ensures Held() && old(trace) <= trace && clock > old(clock)
      ensures SameMigrations(old(log), log)
      ensures r.Ok? ==> log == old(log)[id := e.(phase := Detached)] && Holds(ns, Next(id), e.next)
      ensures old(Quiet()) && old(Fresh()) ==> Quiet() && Fresh() && r.Ok? && Product !in ns
      ensures r.Ok? ==> QuietBetween(schedule, old(clock), clock)
    {
      hide Inv, IsRun, Matches, TempName, FreshNames, FileName, CanMark, Coupled;
      BornBounds(Now());
      var detached := RenameSource(id);
      if !detached {
        return Err(Storage);
      }
      MarkDetachedOk(Now(), id, e);
      r := WriteState(id, e.(phase := Detached));
      if r.Ok? {
        NextStillThere(old(Now()), Now(), id, e);
      }
    }

    method ActivateNext(id: string, e: Entry) returns (r: Result<()>)
      requires Held() && id in log && log[id] == e && e.phase == Detached && Holds(ns, Next(id), e.next)
      modifies this
      ensures Held() && old(trace) <= trace && clock > old(clock)
      ensures SameMigrations(old(log), log)
      ensures r.Ok? ==> log == old(log)[id := e.(phase := RootReady)]
      ensures old(Quiet()) && old(Fresh()) ==> Quiet() && Fresh() && (r.Ok? <==> Product !in old(ns))
      ensures r.Ok? ==> QuietBetween(schedule, old(clock), clock)
    {
      hide Inv, IsRun, Matches, TempName, FreshNames, FileName, CanMark, Coupled;
      BornBounds(Now());
      var activated := RenameNext(id);
      if !activated {
        return Err(Storage);
      }
      var active := OpenReadyRoot();
      if active != Found(e.next) {
        return Err(IdentityChanged);
      }
      MarkReadyOk(Now(), id, e);
      r := WriteState(id, e.(phase := RootReady));
    }

    /** `start_namespace` between gaining and giving back the privileges. */
    method StartSteps(detected: Identity) returns (r: Result<Migration>)
      requires Held() && Idle(log) && detected < born
      modifies this
      ensures Held() && old(trace) <= trace && clock > old(clock)
      ensures OnlyConsented(old(log), log, detected)
      ensures r.Ok? ==> var m := r.value;
                        m.entry == Entry(detected, old(born), RootReady) && m.id !in old(log) &&
                        Holds(old(ns), Product, detected) &&
                        log == old(log)[m.id := m.entry] && ns == Settled(old(ns), m.id, m.entry) && Product in ns
      ensures old(Quiet()) && old(Fresh()) ==>
                (r.Ok? <==> Holds(old(ns), Product, detected) && Unused(old(Now()), randomIds(old(clock) + 1))) &&
                (r.Ok? ==> Quiet() && Fresh())
      ensures old(Quiet()) && old(Fresh()) && r.Err? ==>
                Quiet() && r.error == StartRefusal(old(ns), detected, randomIds(old(clock) + 1))
      ensures r.Ok? ==> QuietBetween(schedule, old(clock), clock)
    {
      hide Inv, IsRun, Matches, TempName, FreshNames, FileName, CanMark, Coupled;
      var prepared := PrepareMigration(detected);
      if prepared.Err? {
        return Err(prepared.error);
      }
      var id := prepared.value;
      var e := Entry(detected, ns[Next(id)], Prepared);
      PreparedSettles(old(Now()), Now(), id, e, e.(phase := RootReady));
      var operation := DetachAndActivate(id, e);
      if operation.Err? {
        return Err(operation.error);
      }
      return Ok(Migration(id, e.(phase := RootReady)));
    }

    /** `start_namespace`. */
    method StartNamespace(detected: Identity) returns (r: Result<Migration>)
      requires Held() && Idle(log) && detected < born
      modifies this
      ensures Held() && old(trace) <= trace && clock > old(clock)
      ensures OnlyConsented(old(log), log, detected)
      ensures r.Ok? ==> var m := r.value;
                        m.entry == Entry(detected, old(born), RootReady) && m.id !in old(log) &&
                        Holds(old(ns), Product, detected) &&
                        log == old(log)[m.id := m.entry] && ns == Settled(old(ns), m.id, m.entry)
      ensures old(Quiet()) && old(Fresh()) ==>
                (r.Ok? <==> Holds(old(ns), Product, detected) && Unused(old(Now()), randomIds(old(clock) + 2))) &&
                (r.Ok? ==> Quiet() && Fresh())
      ensures old(Quiet()) && old(Fresh()) && r.Err? ==>
                r.error == StartRefusal(old(ns), detected, randomIds(old(clock) + 2))
      ensures r.Ok? ==> QuietBetween(schedule, old(clock), clock)
    {
      hide Inv, IsRun, Matches, TempName, FreshNames, FileName, CanMark, Coupled, Unused;
      var outcome := Tick();
      if outcome != Succeeds {
        return Err(Privilege);
      }
      var operation := StartSteps(detected);
      r := RestorePrivileges(operation);
    }

    /** `execute_recovery` under the bootstrap lock: resumes the unfinished
        migration if there is one, otherwise starts one for the consented
        identity, and ends at AuditPending. Success keeps the lock. */
    method ExecuteRecovery(detected: Identity) returns (r: Result<Migration>)
      requires Valid() && detected < born && !locked
      modifies this
      ensures Valid() && old(trace) <= trace && clock > old(clock) && (locked <==> r.Ok?)
      ensures OnlyConsented(old(log), log, detected)
      ensures AllConsented(trace[|old(trace)| - 1..], detected)
      ensures LockFails(schedule, old(clock)) ==> r == Err(Storage) && files == old(files) && Rely(old(Now()), Now())
      ensures r.Ok? ==> r.value.id in log && log[r.value.id] == r.value.entry && r.value.entry.phase == AuditPending &&
                        ns == Settled(old(ns), r.value.id, r.value.entry)
      ensures r.Ok? && !Idle(old(log)) ==> Unfinished(old(Now()), r.value.id)
      ensures r.Ok? && Idle(old(log)) ==> r.value.id !in old(log) && r.value.entry.source == detected &&
                                          Holds(old(ns), Product, detected)
      ensures old(Quiet()) && old(Fresh()) ==>
                (r.Ok? <==> CanRecover(old(Now()), detected, randomIds(old(clock) + 5))) &&
                (r.Ok? ==> Quiet() && Fresh())
      ensures old(Quiet()) && old(Fresh()) && r.Err? ==>
                Refuses(old(Now()), detected, randomIds(old(clock) + 5), r.error)
      ensures r.Ok? ==> QuietBetween(schedule, old(clock), clock)
    {
      hide Inv, IsRun, Matches, TempName, FreshNames, FileName, CanMark, Coupled;
      hide Settled, CanRecover, Idle, LockFails, Refuses;
      var unlocked := OpenBootstrapAndLock();
      if unlocked {
        RelyKeepsSettled(old(Now()), Now());
        r := RecoverAndFinish(detected);
        locked := r.Ok?;
      } else {
        r := Err(Storage);
      }
      TraceIsConsented(|old(trace)| - 1, detected);
    }

    /** What a call did to the log it did at every point of its trace. */
    lemma TraceIsConsented(from: nat, detected: Identity)
      requires Valid() && from < |trace| && OnlyConsented(trace[from].log, log, detected)
      ensures AllConsented(trace[from..], detected)
    {
      hide Inv, Matches;
      SuffixIsRun(trace, from);
      ConsentedAlong(trace[from..], detected);
    }

    /** The part of `execute_recovery` under the lock. */
    method RecoverAndFinish(detected: Identity) returns (r: Result<Migration>)
      requires Held() && detected < born
      modifies this
      ensures Held() && old(trace) <= trace && clock > old(clock)
      ensures OnlyConsented(old(log), log, detected)
      ensures r.Ok? ==> r.value.id in log && log[r.value.id] == r.value.entry && r.value.entry.phase == AuditPending &&
                        ns == Settled(old(ns), r.value.id, r.value.entry)
      ensures r.Ok? && !Idle(old(log)) ==> Unfinished(old(Now()), r.value.id)
      ensures r.Ok? && Idle(old(log)) ==> r.value.id !in old(log) && r.value.entry.source == detected &&
                                          Holds(old(ns), Product, detected)
      ensures old(Quiet()) && old(Fresh()) ==>
                (r.Ok? <==> CanRecover(old(Now()), detected, randomIds(old(clock) + 2))) &&
                (r.Ok? ==> Quiet() && Fresh())
      ensures old(Quiet()) && old(Fresh()) && r.Err? ==>
                Refuses(old(Now()), detected, randomIds(old(clock) + 2), r.error)
      ensures r.Ok? ==> QuietBetween(schedule, old(clock), clock)
    {
      hide Inv, IsRun, Matches, TempName, FreshNames, FileName, CanMark, Coupled;
      hide Settled, CanRecover, Idle, Refuses;
      r := RecoverNamespace(detected);
      if r.Ok? {
        SettledAnyPhase(r.value);
        r := FinishNamespace(r.value);
      }
    }

    /** Loads the pending state and resumes it, or starts a new migration. */
    method RecoverNamespace(detected: Identity) returns (r: Result<Migration>)
      requires Held() && detected < born
      modifies this
      ensures Held() && old(trace) <= trace && clock > old(clock)
      ensures OnlyConsented(old(log), log, detected)
      ensures r.Ok? ==> r.value.id in log && log[r.value.id] == r.value.entry &&
                        r.value.entry.phase in {RootReady, AuditPending} &&
                        ns == Settled(old(ns), r.value.id, r.value.entry)
      ensures r.Ok? && !Idle(old(log)) ==> Unfinished(old(Now()), r.value.id)
      ensures r.Ok? && Idle(old(log)) ==> r.value.id !in old(log) && r.value.entry.source == detected &&
                                          Holds(old(ns), Product, detected)
      ensures old(Quiet()) && old(Fresh()) ==>
                (r.Ok? <==> CanRecover(old(Now()), detected, randomIds(old(clock) + 2))) &&
                (r.Ok? ==> Quiet() && Fresh())
      ensures old(Quiet()) && old(Fresh()) && r.Err? ==>
                Refuses(old(Now()), detected, randomIds(old(clock) + 2), r.error)
      ensures r.Ok? ==> QuietBetween(schedule, old(clock), clock)
    {
      hide Inv, IsRun, Matches, TempName, FreshNames, FileName, CanMark, Coupled;
      hide Settled, CanRecover, Idle, OwnProduct, Unused, Refuses, StartRefusal, ResumeRefusal;
      var names := EntryNames(files);
      OnlyOneUnfinished(Now());
      var loaded := LoadLog(names, files, log);
      match loaded {
        case Pending(None) =>
          StartCondition(Now());
          StartRefuses(Now());
          r := StartNamespace(detected);
        case Pending(Some(record)) =>
          ResumeCondition(Now(), record.id);
          ResumeRefuses(Now(), record.id);
          r := ResumeNamespace(Migration(record.id, Entry(record.source, record.next, record.phase)));
      }
    }

    /** `open_or_create_bootstrap`, the lock and the listing of the markers: nothing
        goes on without the lock. */
    method OpenBootstrapAndLock() returns (ok: bool)
      requires Valid() && !locked
      modifies this
      ensures Valid() && old(trace) <= trace && files == old(files) && (old(Fresh()) ==> Fresh())
      ensures Rely(old(Now()), Now()) && clock > old(clock) && locked == ok
      ensures ok <==> !LockFails(schedule, old(clock))
      ensures ok ==> clock == old(clock) + 3
      ensures old(Quiet()) ==> Quiet() && Now() == old(Now()) && ok
      ensures ok ==> QuietBetween(schedule, old(clock), clock)
    {
      hide Inv, IsRun, Matches, TempName, FreshNames, FileName, CanMark, Coupled, Rely;
      var opening := Tick();
      if opening != Succeeds {
        return false;
      }
      ghost var atOpening := Now();
      var locking := Tick();
      RelyTwice(old(Now()), atOpening, Now());
      if locking != Succeeds {
        return false;
      }
      locked := true;
      ghost var acquired := Now();
      var enumerating := Tick();
      RelyTwice(old(Now()), acquired, Now());
      locked := enumerating == Succeeds;
      return locked;
    }

    /** The end of `execute_recovery`: opens the active root and advances
        RootReady to AuditPending. */
    method FinishNamespace(m: Migration) returns (r: Result<Migration>)
      requires Held() && m.id in log && log[m.id] == m.entry && m.entry.phase in {RootReady, AuditPending}
      modifies this
      ensures Held() && old(trace) <= trace && clock > old(clock)
      ensures SameMigrations(old(log), log)
      ensures r.Ok? ==> r.value == m.(entry := m.entry.(phase := AuditPending)) &&
                        log == old(log)[m.id := r.value.entry] && ns == old(ns)
      ensures old(Quiet()) && old(Fresh()) ==> Quiet() && Fresh() && r.Ok?
      ensures r.Ok? ==> QuietBetween(schedule, old(clock), clock)
    {
      hide Inv, IsRun, Matches, TempName, FreshNames, FileName, CanMark, Coupled;
      OwnProductByPhase(Now(), m.id);
      var storage := OpenReadyRoot();
      if !storage.Found? {
        return Err(Storage);
      }
      var pending := m.(entry := m.entry.(phase := AuditPending));
      if m.entry.phase == RootReady {
        MarkAuditPendingOk(Now(), m.id);
        var written := WriteState(m.id, pending.entry);
        if written.Err? {
          return Err(written.error);
        }
      }
      return Ok(pending);
    }

    /** `complete_recovery` of startup.rs: the terminal event is durable in the
        new root's journal before the Done marker is written. */
    method CompleteRecovery(detected: Identity) returns (r: Result<Migration>)
      requires Valid() && detected < born && !locked
      modifies this
      ensures Valid() && old(trace) <= trace && clock > old(clock) && !locked
      ensures OnlyConsented(old(log), log, detected)
      ensures AllConsented(trace[|old(trace)| - 1..], detected)
      ensures LockFails(schedule, old(clock)) ==> r == Err(Storage) && files == old(files) && Rely(old(Now()), Now())
      ensures r.Ok? ==> r.value.id in log && log[r.value.id] == r.value.entry && r.value.entry.phase == Done &&
                        (r.value.entry.next, r.value.id) in audits &&
                        ns == Settled(old(ns), r.value.id, r.value.entry)
      ensures old(Quiet()) && old(Fresh()) ==>
                (r.Ok? <==> CanRecover(old(Now()), detected, randomIds(old(clock) + 5)))
      ensures r.Ok? ==> QuietBetween(schedule, old(clock), clock)
    {
      hide Inv, IsRun, Matches, TempName, FreshNames, FileName, CanMark, Coupled;
      r := ExecuteRecovery(detected);
      if r.Ok? {
        r := LogAndComplete(r.value);
      }
      locked := false;
      TraceIsConsented(|old(trace)| - 1, detected);
    }

    /** The end of `complete_recovery`: the terminal event, then the Done marker. */
    method LogAndComplete(m: Migration) returns (r: Result<Migration>)
      requires Held() && m.id in log && log[m.id] == m.entry && m.entry.phase == AuditPending
      modifies this
      ensures Held() && old(trace) <= trace && clock > old(clock)
      ensures SameMigrations(old(log), log)
      ensures r.Ok? ==> r.value == m.(entry := m.entry.(phase := Done)) && log == old(log)[m.id := r.value.entry] &&
                        (m.entry.next, m.id) in audits && ns == old(ns)
      ensures old(Quiet()) && old(Fresh()) ==> r.Ok?
      ensures r.Ok? ==> QuietBetween(schedule, old(clock), clock)
    {
      hide Inv, IsRun, Matches, TempName, FreshNames, FileName, CanMark, Coupled;
      var logged := LogTerminalEvent(m);
      if !logged {
        return Err(AuditFailed);
      }
      MarkDoneOk(Now(), m.id);
      ProductOfPending(Now(), m.id);
      var written := WriteState(m.id, m.entry.(phase := Done));
      if written.Err? {
        return Err(written.error);
      }
      return Ok(m.(entry := m.entry.(phase := Done)));
    }

    /** Builds the logger on the active root and writes the terminal event. */
    method LogTerminalEvent(m: Migration) returns (ok: bool)
      requires Held() && m.id in log && log[m.id] == m.entry && m.entry.phase == AuditPending
      modifies this
      ensures Held() && old(trace) <= trace && files == old(files) && clock > old(clock) && (old(Fresh()) ==> Fresh())
      ensures log == old(log) && ns == old(ns)
      ensures ok ==> (m.entry.next, m.id) in audits
      ensures old(Quiet()) ==> Quiet() && ok
      ensures ok ==> QuietBetween(schedule, old(clock), clock)
      ensures ok ==> clock == old(clock) + 2
    {
      hide Inv, IsRun, Matches, TempName, FreshNames, FileName, CanMark, Coupled;
      OwnProductByPhase(Now(), m.id);
      var building := Tick();
      if building != Succeeds {
        return false;
      }
      var outcome := Tick();
      if outcome == FailsBefore {
        return false;
      }
      audits := audits + {(ns[Product], m.id)};
      Record(Audit(m.id));
      return outcome == Succeeds;
    }
  }

  lemma BornBounds(s: State)
    requires Inv(s)
    ensures forall x :: x in s.trusted ==> x < s.born
    ensures forall n :: n in s.ns ==> s.ns[n] < s.born
    ensures forall id :: id in s.log ==> s.log[id].source < s.born && s.log[id].next in s.trusted
  {
  }

  lemma SourceNotDetached(s: State, id: string)
    requires Inv(s) && id in s.log && Holds(s.ns, Product, s.log[id].source)
    ensures Legacy(id) !in s.ns
  {
    OldRootAtOneName(s, id, Product);
  }

  lemma CanMarkAdvances(s: State, id: string, e: Entry)
    requires CanMark(s, id, e)
    ensures Advance(s.log, id, e)
  {
  }

  lemma CanMarkStable(s: State, s': State, id: string, e: Entry)
    requires Rely(s, s')
    ensures CanMark(s, id, e) ==> CanMark(s', id, e)
  {
  }

  lemma AlreadyThere(s: State, files: Files, id: string, e: Entry)
    requires Matches(files, s.log) && FileName(id, e.phase) in files
    requires CanMark(s, id, e) || (e.phase == Prepared && id in s.log && s.log[id].next != e.next)
    ensures !CanMark(s, id, e) && files[FileName(id, e.phase)] != Complete(RecordOf(id, e))
  {
    hide FileName, IsStateName;
    HasMatches(files, s.log, id, e.phase);
    assert id in s.log && Rank(e.phase) <= Rank(s.log[id].phase);
    assert files[FileName(id, e.phase)] == Complete(RecordOf(id, s.log[id].(phase := e.phase)));
  }

  lemma NotThere(s: State, files: Files, id: string, e: Entry)
    requires Matches(files, s.log) && FileName(id, e.phase) !in files
    requires CanMark(s, id, e) || (e.phase == Prepared && id in s.log)
    ensures CanMark(s, id, e)
  {
    hide FileName, IsStateName;
    HasMatches(files, s.log, id, e.phase);
  }

  /** No foreign object sits under the product name. */
  predicate OwnProduct(ns: Namespace, e: Entry) {
    Product in ns ==> ns[Product] == e.source || ns[Product] == e.next
  }

  predicate SourceOrFree(ns: Namespace, e: Entry) {
    Product in ns ==> ns[Product] == e.source
  }

  predicate NextOrFree(ns: Namespace, e: Entry) {
    Product in ns ==> ns[Product] == e.next
  }

  lemma OwnProductByPhase(s: State, id: string)
    requires Inv(s) && id in s.log
    ensures s.log[id].phase == Prepared ==> (OwnProduct(s.ns, s.log[id]) <==> SourceOrFree(s.ns, s.log[id]))
    ensures s.log[id].phase == Detached ==> (OwnProduct(s.ns, s.log[id]) <==> NextOrFree(s.ns, s.log[id]))
    ensures s.log[id].phase in {RootReady, AuditPending} ==>
              OwnProduct(s.ns, s.log[id]) && Holds(s.ns, Product, s.log[id].next) && s.log[id].next in s.trusted &&
              Holds(s.ns, Legacy(id), s.log[id].source)
  {
    assert Coupled(s.ns, id, s.log[id]);
  }

  lemma SourcePlace(s: State, id: string)
    requires Inv(s) && id in s.log && s.log[id].phase == Prepared
    ensures Holds(s.ns, Legacy(id), s.log[id].source) || (Legacy(id) !in s.ns && Holds(s.ns, Product, s.log[id].source))
  {
    assert Coupled(s.ns, id, s.log[id]);
  }

  lemma DetachedPlace(s: State, id: string)
    requires Inv(s) && id in s.log && s.log[id].phase == Detached
    ensures Holds(s.ns, Legacy(id), s.log[id].source) && s.log[id].next in s.trusted
    ensures Holds(s.ns, Next(id), s.log[id].next) || (Next(id) !in s.ns && Holds(s.ns, Product, s.log[id].next))
    ensures Holds(s.ns, Next(id), s.log[id].next) ==> !Holds(s.ns, Product, s.log[id].next)
  {
    assert Coupled(s.ns, id, s.log[id]);
  }

  lemma MarkDetachedOk(s: State, id: string, e: Entry)
    requires id in s.log && s.log[id] == e && e.phase == Prepared && Holds(s.ns, Legacy(id), e.source)
    ensures CanMark(s, id, e.(phase := Detached))
  {
  }

  lemma MarkReadyOk(s: State, id: string, e: Entry)
    requires id in s.log && s.log[id] == e && e.phase == Detached && Holds(s.ns, Product, e.next)
    ensures CanMark(s, id, e.(phase := RootReady))
  {
  }

  ghost predicate Unused(s: State, id: string) {
    Next(id) !in s.ns && id !in s.log
  }

  /** `s'` is `s` with the new root created and its Prepared marker written. */
  ghost predicate PreparedFrom(s: State, s': State, id: string, e: Entry) {
    Unused(s, id) && s'.log == s.log[id := e] && s'.ns == s.ns[Next(id) := e.next]
  }

  lemma PreparedSettles(s: State, s': State, id: string, e: Entry, ready: Entry)
    requires PreparedFrom(s, s', id, e)
    ensures Settled(s'.ns, id, ready) == Settled(s.ns, id, ready)
  {
  }

  function Resumed(m: Migration): Migration {
    if Rank(m.entry.phase) < Rank(RootReady) then m.(entry := m.entry.(phase := RootReady)) else m
  }

  lemma ProductOfPending(s: State, id: string)
    requires Inv(s) && id in s.log && s.log[id].phase in {RootReady, AuditPending}
    ensures Holds(s.ns, Product, s.log[id].next)
  {
    assert Coupled(s.ns, id, s.log[id]);
  }

  /** Exactly when an undisturbed recovery succeeds: an unfinished migration is
      resumed unless a foreign object took the product name; a new one needs the
      consented object in place and an unused random id. */
  ghost predicate CanRecover(s: State, detected: Identity, id: string) {
    if Idle(s.log) then Holds(s.ns, Product, detected) && Unused(s, id)
    else forall other :: Unfinished(s, other) ==> OwnProduct(s.ns, s.log[other])
  }

  /** The error of an undisturbed resumption that a foreign object blocks. */
  function ResumeRefusal(e: Entry): Error {
    if e.phase == Prepared then IdentityChanged else Storage
  }

  /** The error of an undisturbed start. */
  function StartRefusal(ns: Namespace, detected: Identity, id: string): Error {
    if Product !in ns then Storage
    else if ns[Product] != detected then IdentityChanged
    else if Next(id) in ns then Storage
    else BadState(InvalidState)
  }

  ghost predicate Refuses(s: State, detected: Identity, id: string, error: Error) {
    if Idle(s.log) then error == StartRefusal(s.ns, detected, id)
    else forall other :: Unfinished(s, other) ==> error == ResumeRefusal(s.log[other])
  }

  lemma StartRefuses(s: State)
    requires Idle(s.log)
    ensures forall detected, id :: Refuses(s, detected, id, StartRefusal(s.ns, detected, id))
  {
  }

  lemma ResumeRefuses(s: State, pending: string)
    requires Inv(s) && Unfinished(s, pending)
    ensures forall detected, id :: Refuses(s, detected, id, ResumeRefusal(s.log[pending]))
  {
    hide StartRefusal, ResumeRefusal, Coupled;
  }

  lemma StartCondition(s: State)
    requires forall id :: id in s.log ==> s.log[id].phase == Done
    ensures Idle(s.log)
    ensures forall detected, drawn :: CanRecover(s, detected, drawn) <==> Holds(s.ns, Product, detected) && Unused(s, drawn)
  {
  }

  lemma ResumeCondition(s: State, id: string)
    requires Inv(s) && Unfinished(s, id)
    ensures !Idle(s.log)
    ensures forall detected, drawn :: CanRecover(s, detected, drawn) <==> OwnProduct(s.ns, s.log[id])
  {
    hide OwnProduct, Unused, Coupled;
  }

  lemma RelyTwice(s: State, s': State, s'': State)
    requires Rely(s, s') && Rely(s', s'')
    ensures Rely(s, s'')
  {
  }

  lemma RelyKeepsSettled(s: State, s': State)
    requires Rely(s, s')
    ensures forall id, e :: Settled(s'.ns, id, e) == Settled(s.ns, id, e)
  {
  }

  lemma SettledAnyPhase(m: Migration)
    ensures forall ns, p :: Settled(ns, m.id, m.entry) == Settled(ns, m.id, m.entry.(phase := p))
  {
  }

  lemma OnlyOneUnfinished(s: State)
    requires Inv(s)
    ensures forall i, j :: i in s.log && j in s.log && s.log[i].phase != Done && s.log[j].phase != Done ==> i == j
  {
    forall i, j | i in s.log && j in s.log && s.log[i].phase != Done && s.log[j].phase != Done ensures i == j {
      assert Unfinished(s, i) && Unfinished(s, j);
    }
  }

  lemma MarkPreparedOk(s: State, id: string, e: Entry)
    requires e.phase == Prepared && Idle(s.log) && Holds(s.ns, Product, e.source) && Holds(s.ns, Next(id), e.next)
    requires e.next in s.trusted
    ensures CanMark(s, id, e) <==> id !in s.log
  {
  }

  lemma MarkAuditPendingOk(s: State, id: string)
    requires id in s.log && s.log[id].phase == RootReady
    ensures CanMark(s, id, s.log[id].(phase := AuditPending))
  {
  }

  lemma MarkDoneOk(s: State, id: string)
    requires id in s.log && s.log[id].phase == AuditPending && (s.log[id].next, id) in s.audits
    ensures CanMark(s, id, s.log[id].(phase := Done))
  {
  }

  /** The prepared root waits under its own name until it is activated. */
  lemma NextStillThere(s: State, s': State, id: string, e: Entry)
    requires Inv(s) && Inv(s') && id in s.log && s.log[id] == e && e.phase == Prepared
    requires id in s'.log && s'.log[id] == e.(phase := Detached)
    requires Product in s'.ns ==> s'.ns[Product] >= s.born
    ensures Holds(s'.ns, Next(id), e.next)
  {
    assert Coupled(s.ns, id, e);
    assert Coupled(s'.ns, id, s'.log[id]);
  }

  lemma {:induction false} SuffixIsRun(run: seq<State>, from: nat)
    requires IsRun(run) && from < |run|
    ensures IsRun(run[from..])
  {
    if from < |run| - 1 {
      SuffixIsRun(run[..|run| - 1], from);
      assert run[from..][..|run| - from - 1] == run[..|run| - 1][from..];
    }
  }

  /** `CrashesDoNotMatter`, from a state in the middle of a run. */
  lemma SettledSince(run: seq<State>, from: nat, id: string)
    requires IsRun(run) && from < |run| && Inv(run[from]) && Unfinished(run[from], id)
    requires Unfinished(run[|run| - 1], id) && Rank(run[|run| - 1].log[id].phase) >= Rank(RootReady)
    ensures run[|run| - 1].ns == Settled(run[from].ns, id, run[from].log[id])
  {
    hide Inv, Settled;
    SuffixIsRun(run, from);
    CrashesDoNotMatter(run[from..], id);
  }
}
