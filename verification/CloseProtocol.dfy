// Deferred close: `OperationState`, the publication of the cancellation token and
// the close handler of crates/app-ui/src/controller.rs as a state machine over
// their atomic accesses.

module CloseProtocol {
  import opened Faults

  datatype Active = Idle | Migration | OtherOperation

  /** `start_migration` after `begin_operation`, up to the spawn of the worker. */
  datatype Starter = AtRest | Begun(m: nat) | Locked(m: nat) | Checked(m: nat) | Published(m: nat)

  /** The worker of a migration, from the spawn to the result of `finish`. */
  datatype Worker = Running | Clearing | Cleared | Unlocked | Stored | Finished(close: bool)

  /** One run of the close handler. */
  datatype Closer = SawMigration | Entered | Recorded | Signalled | Left

  datatype Owner = ByStarter | ByWorker(m: nat) | ByCloser(c: nat)

  datatype State = State(
    active: Active,
    closeAfterFinish: bool,
    slot: Option<nat>,
    mutex: Option<Owner>,
    cancelled: set<nat>,
    starter: Starter,
    workers: map<nat, Worker>,
    closers: map<nat, Closer>,
    otherFinishing: nat,
    born: nat)

  datatype Step =
    | TryBegin | StarterLock | CheckDeferred | Publish | StarterUnlock
    | WorkerLock(m: nat) | ClearSlot(m: nat) | WorkerUnlock(m: nat) | StoreIdle(m: nat) | Exchange(m: nat)
    | Look(c: nat) | CloserLock(c: nat) | Record(c: nat) | Signal(c: nat) | CloserUnlock(c: nat)
    | CancelButton
    | OtherBegin | OtherStore | OtherExchange | EarlyFinish

  const START: State :=
    State(Idle, false, None, None, {}, AtRest, map[], map[], 0, 0)

  predicate At(workers: map<nat, Worker>, m: nat, w: Worker) {
    m in workers && workers[m] == w
  }

  predicate CloserAt(closers: map<nat, Closer>, c: nat, pc: Closer) {
    c in closers && closers[c] == pc
  }

  function StarterOf(s: State): Option<nat> {
    match s.starter
    case AtRest => None
    case Begun(m) => Some(m)
    case Locked(m) => Some(m)
    case Checked(m) => Some(m)
    case Published(m) => Some(m)
  }

  /** `m` has begun and its worker has not cleared the slot. */
  predicate IsOpen(s: State, m: nat) {
    StarterOf(s) == Some(m) || At(s.workers, m, Running) || At(s.workers, m, Clearing)
  }

  /** `m` has begun and its `finish` has not exchanged the flag. */
  predicate Unfinished(s: State, m: nat) {
    StarterOf(s) == Some(m) || (m in s.workers && !s.workers[m].Finished?)
  }

  predicate Enabled(s: State, step: Step) {
    match step
    case TryBegin => s.active == Idle && s.starter == AtRest
    case StarterLock => s.starter.Begun? && s.mutex == None
    case CheckDeferred => s.starter.Locked?
    case Publish => s.starter.Checked?
    case StarterUnlock => s.starter.Published?
    case WorkerLock(m) => At(s.workers, m, Running) && s.mutex == None
    case ClearSlot(m) => At(s.workers, m, Clearing)
    case WorkerUnlock(m) => At(s.workers, m, Cleared)
    case StoreIdle(m) => At(s.workers, m, Unlocked)
    case Exchange(m) => At(s.workers, m, Stored)
    case Look(c) => s.active == Migration && c !in s.closers
    case CloserLock(c) => CloserAt(s.closers, c, SawMigration) && s.mutex == None
    case Record(c) => CloserAt(s.closers, c, Entered)
    case Signal(c) => CloserAt(s.closers, c, Recorded)
    case CloserUnlock(c) => CloserAt(s.closers, c, Signalled)
    case CancelButton => s.mutex == None
    case OtherBegin => s.active == Idle && s.starter == AtRest
    case OtherStore => s.active == OtherOperation
    case OtherExchange => s.otherFinishing > 0
    case EarlyFinish => s.starter == AtRest
  }

  function CancelSlot(s: State): set<nat> {
    if s.slot.Some? then s.cancelled + {s.slot.value} else s.cancelled
  }

  function Apply(s: State, step: Step): State
    requires Enabled(s, step)
  {
    match step
    case TryBegin => s.(active := Migration, starter := Begun(s.born), born := s.born + 1)
    case StarterLock => s.(starter := Locked(s.starter.m), mutex := Some(ByStarter))
    case CheckDeferred =>
      s.(starter := Checked(s.starter.m),
         cancelled := if s.closeAfterFinish then s.cancelled + {s.starter.m} else s.cancelled)
    case Publish => s.(starter := Published(s.starter.m), slot := Some(s.starter.m))
    case StarterUnlock => s.(starter := AtRest, mutex := None, workers := s.workers[s.starter.m := Running])
    case WorkerLock(m) => s.(workers := s.workers[m := Clearing], mutex := Some(ByWorker(m)))
    case ClearSlot(m) => s.(workers := s.workers[m := Cleared], slot := None)
    case WorkerUnlock(m) => s.(workers := s.workers[m := Unlocked], mutex := None)
    case StoreIdle(m) => s.(workers := s.workers[m := Stored], active := Idle)
    case Exchange(m) =>
      s.(workers := s.workers[m := Finished(s.closeAfterFinish)], closeAfterFinish := false)
    case Look(c) => s.(closers := s.closers[c := SawMigration])
    case CloserLock(c) => s.(closers := s.closers[c := Entered], mutex := Some(ByCloser(c)))
    case Record(c) => s.(closers := s.closers[c := Recorded], closeAfterFinish := true)
    case Signal(c) => s.(closers := s.closers[c := Signalled], cancelled := CancelSlot(s))
    case CloserUnlock(c) => s.(closers := s.closers[c := Left], mutex := None)
    case CancelButton => s.(cancelled := CancelSlot(s))
    case OtherBegin => s.(active := OtherOperation)
    case OtherStore => s.(active := Idle, otherFinishing := s.otherFinishing + 1)
    case OtherExchange => s.(otherFinishing := s.otherFinishing - 1, closeAfterFinish := false)
    case EarlyFinish => s.(active := Idle, closeAfterFinish := false)
  }

  predicate IsExchange(step: Step) {
    step.Exchange? || step.OtherExchange? || step.EarlyFinish?
  }

  datatype Run = Run(states: seq<State>, steps: seq<Step>) {
    ghost predicate Valid() {
      |states| == |steps| + 1 && states[0] == START &&
      forall i :: 0 <= i < |steps| ==> Enabled(states[i], steps[i]) && states[i + 1] == Apply(states[i], steps[i])
    }
  }

  // ----- invariants -----

  /** `m` still makes the operation state say that a migration runs. */
  ghost predicate Holding(s: State, m: nat) {
    StarterOf(s) == Some(m) ||
    (m in s.workers && (s.workers[m].Running? || s.workers[m].Clearing? || s.workers[m].Cleared? || s.workers[m].Unlocked?))
  }

  ghost predicate MutexOk(s: State) {
    (s.mutex == Some(ByStarter) <==> s.starter.Locked? || s.starter.Checked? || s.starter.Published?) &&
    (forall m: nat :: s.mutex == Some(ByWorker(m)) <==> At(s.workers, m, Clearing) || At(s.workers, m, Cleared)) &&
    (forall c: nat :: s.mutex == Some(ByCloser(c)) <==>
       CloserAt(s.closers, c, Entered) || CloserAt(s.closers, c, Recorded) || CloserAt(s.closers, c, Signalled))
  }

  ghost predicate SlotOk(s: State) {
    forall m: nat :: s.slot == Some(m) <==>
      s.starter == Published(m) || At(s.workers, m, Running) || At(s.workers, m, Clearing)
  }

  ghost predicate OwnersOk(s: State) {
    (forall m: nat :: Holding(s, m) ==> s.active == Migration) &&
    (forall m: nat, n: nat :: Holding(s, m) && Holding(s, n) ==> m == n) &&
    (forall m: nat :: StarterOf(s) == Some(m) ==> m < s.born && m !in s.workers) &&
    (forall m: nat :: m in s.workers ==> m < s.born)
  }

  ghost predicate Inv(s: State) {
    MutexOk(s) && SlotOk(s) && OwnersOk(s)
  }

  /** The early return of `start_migration` is taken only while nothing runs. */
  ghost predicate EarlyOnlyWhenIdle(s: State, step: Step) {
    step == EarlyFinish ==> s.active == Idle
  }

  lemma WorkerMutex(s: State, step: Step, m: nat)
    requires Enabled(s, step) && MutexOk(s) && OwnersOk(s)
    ensures var t := Apply(s, step);
            t.mutex == Some(ByWorker(m)) <==> At(t.workers, m, Clearing) || At(t.workers, m, Cleared)
  {
    assert s.mutex == Some(ByWorker(m)) <==> At(s.workers, m, Clearing) || At(s.workers, m, Cleared);
  }

  lemma CloserMutex(s: State, step: Step, c: nat)
    requires Enabled(s, step) && MutexOk(s)
    ensures var t := Apply(s, step);
            t.mutex == Some(ByCloser(c)) <==>
            CloserAt(t.closers, c, Entered) || CloserAt(t.closers, c, Recorded) || CloserAt(t.closers, c, Signalled)
  {
    assert s.mutex == Some(ByCloser(c)) <==>
      CloserAt(s.closers, c, Entered) || CloserAt(s.closers, c, Recorded) || CloserAt(s.closers, c, Signalled);
  }

  lemma StepKeepsMutex(s: State, step: Step)
    requires Enabled(s, step) && MutexOk(s) && OwnersOk(s)
    ensures MutexOk(Apply(s, step))
  {
    var t := Apply(s, step);
    forall m: nat ensures t.mutex == Some(ByWorker(m)) <==> At(t.workers, m, Clearing) || At(t.workers, m, Cleared) {
      WorkerMutex(s, step, m);
    }
    forall c: nat
      ensures t.mutex == Some(ByCloser(c)) <==>
              CloserAt(t.closers, c, Entered) || CloserAt(t.closers, c, Recorded) || CloserAt(t.closers, c, Signalled)
    {
      CloserMutex(s, step, c);
    }
  }

  lemma HoldingBefore(s: State, step: Step, m: nat)
    requires Enabled(s, step) && OwnersOk(s) && EarlyOnlyWhenIdle(s, step) && Holding(Apply(s, step), m)
    ensures Apply(s, step).active == Migration
    ensures if step == TryBegin then m == s.born else Holding(s, m)
  {
    if step != TryBegin || m != s.born {
      assert Holding(s, m);
    }
    if step.StoreIdle? {
      assert Holding(s, step.m);
    }
  }

  lemma StepKeepsOwners(s: State, step: Step)
    requires Enabled(s, step) && OwnersOk(s) && EarlyOnlyWhenIdle(s, step)
    ensures OwnersOk(Apply(s, step))
  {
    var t := Apply(s, step);
    forall m: nat | Holding(t, m)
      ensures t.active == Migration && if step == TryBegin then m == s.born else Holding(s, m)
    {
      HoldingBefore(s, step, m);
    }
    assert step.StarterUnlock? ==> StarterOf(s) == Some(s.starter.m);
    assert forall m: nat :: StarterOf(t) == Some(m) ==> StarterOf(s) == Some(m) || step == TryBegin;
  }

  lemma StepKeepsSlot(s: State, step: Step)
    requires Enabled(s, step) && SlotOk(s) && OwnersOk(s)
    ensures SlotOk(Apply(s, step))
  {
    var t := Apply(s, step);
    forall m: nat ensures t.slot == Some(m) <==> t.starter == Published(m) || At(t.workers, m, Running) || At(t.workers, m, Clearing) {
      assert At(s.workers, m, Running) || At(s.workers, m, Clearing) ==> Holding(s, m);
      match step
      case Publish => assert Holding(s, s.starter.m);
      case StarterUnlock => assert Holding(s, s.starter.m);
      case ClearSlot(n) => assert Holding(s, n) && s.slot == Some(n);
      case _ =>
    }
  }

  lemma StepKeepsInv(s: State, step: Step)
    requires Enabled(s, step) && Inv(s) && EarlyOnlyWhenIdle(s, step)
    ensures Inv(Apply(s, step))
  {
    StepKeepsMutex(s, step);
    StepKeepsOwners(s, step);
    StepKeepsSlot(s, step);
  }

  // ----- what a recorded close guarantees -----

  /** The token of `m` is cancelled, or its cancellation can no longer be missed:
      the closer that recorded is about to signal it, or `m` has still to look at
      the flag, which is up. */
  ghost predicate Doomed(s: State, m: nat) {
    m in s.cancelled ||
    (s.slot == Some(m) && exists c :: CloserAt(s.closers, c, Recorded)) ||
    ((s.starter == Begun(m) || s.starter == Locked(m)) && s.closeAfterFinish)
  }

  /** The close is still on record, or `finish` has answered it. */
  ghost predicate Remembered(s: State, m: nat) {
    (Unfinished(s, m) ==> s.closeAfterFinish) && (m in s.workers && s.workers[m].Finished? ==> s.workers[m].close)
  }

  /** A `finish` that is not the one of `m`. */
  predicate Foreign(step: Step, m: nat) {
    IsExchange(step) && step != Exchange(m)
  }

  lemma RecordDooms(s: State, c: nat, m: nat)
    requires Enabled(s, Record(c)) && Inv(s) && IsOpen(s, m)
    ensures Doomed(Apply(s, Record(c)), m) && Remembered(Apply(s, Record(c)), m)
  {
    var t := Apply(s, Record(c));
    assert CloserAt(t.closers, c, Recorded);
    assert s.mutex == Some(ByCloser(c));
  }

  lemma StepKeepsDoomed(s: State, step: Step, m: nat)
    requires Enabled(s, step) && Inv(s) && Doomed(s, m)
    requires (s.starter == Begun(m) || s.starter == Locked(m)) && m !in s.cancelled ==> !Foreign(step, m)
    ensures Doomed(Apply(s, step), m)
  {
    var t := Apply(s, step);
    if s.slot == Some(m) && exists c :: CloserAt(s.closers, c, Recorded) {
      var c :| CloserAt(s.closers, c, Recorded);
      assert s.mutex == Some(ByCloser(c));
      assert step != Signal(c) ==> CloserAt(t.closers, c, Recorded);
    }
  }

  lemma StepKeepsRemembered(s: State, step: Step, m: nat)
    requires Enabled(s, step) && Inv(s) && Remembered(s, m) && (Unfinished(s, m) ==> !Foreign(step, m))
    requires m < s.born
    ensures Remembered(Apply(s, step), m)
  {
  }

  // ----- whole runs -----

  ghost predicate EarlyReturnsAreIdle(r: Run)
    requires r.Valid()
  {
    forall i :: 0 <= i < |r.steps| ==> EarlyOnlyWhenIdle(r.states[i], r.steps[i])
  }

  lemma {:induction false} RunKeepsInv(r: Run, i: nat)
    requires r.Valid() && EarlyReturnsAreIdle(r) && i < |r.states|
    ensures Inv(r.states[i])
  {
    if i > 0 {
      RunKeepsInv(r, i - 1);
      StepKeepsInv(r.states[i - 1], r.steps[i - 1]);
    }
  }

  /** Step `j` records a close while `m` is open. */
  ghost predicate RecordsFor(r: Run, j: nat, m: nat)
    requires r.Valid()
  {
    j < |r.steps| && r.steps[j].Record? && IsOpen(r.states[j], m)
  }

  /** Between steps `j` and `i`, no other operation finishes while `m` is unfinished. */
  ghost predicate Undisturbed(r: Run, j: nat, i: nat, m: nat)
    requires r.Valid() && i < |r.states|
  {
    forall k :: j < k < i && Unfinished(r.states[k], m) ==> !Foreign(r.steps[k], m)
  }

  lemma OpenIsBorn(s: State, m: nat)
    requires Inv(s) && IsOpen(s, m)
    ensures m < s.born
  {
  }

  lemma BornGrows(s: State, step: Step)
    requires Enabled(s, step)
    ensures Apply(s, step).born >= s.born && s.cancelled <= Apply(s, step).cancelled
  {
  }

  /** A close recorded while a migration is open dooms its token and is answered by
      its `finish`, whatever is interleaved, as long as no other `finish` takes the
      flag first. */
  lemma {:induction false} CloseIsKept(r: Run, j: nat, i: nat, m: nat)
    requires r.Valid() && EarlyReturnsAreIdle(r) && RecordsFor(r, j, m) && j < i < |r.states| && Undisturbed(r, j, i, m)
    ensures Doomed(r.states[i], m) && Remembered(r.states[i], m) && m < r.states[i].born
    decreases i
  {
    var s, step := r.states[i - 1], r.steps[i - 1];
    RunKeepsInv(r, i - 1);
    BornGrows(s, step);
    if i == j + 1 {
      OpenIsBorn(s, m);
      RecordDooms(s, step.c, m);
    } else {
      CloseIsKept(r, j, i - 1, m);
      assert StarterOf(s) == Some(m) ==> Unfinished(s, m);
      StepKeepsDoomed(s, step, m);
      StepKeepsRemembered(s, step, m);
    }
  }

  /** Once `m` has published its token and no closer is between its two writes, the
      token is cancelled; once `m` has finished, its `finish` answered "close". */
  lemma DeferredClose(r: Run, j: nat, i: nat, m: nat)
    requires r.Valid() && EarlyReturnsAreIdle(r) && RecordsFor(r, j, m) && j < i < |r.states| && Undisturbed(r, j, i, m)
    ensures var s := r.states[i];
            (s.starter != Begun(m) && s.starter != Locked(m) && (forall c :: !CloserAt(s.closers, c, Recorded)) ==>
               m in s.cancelled) &&
            (m in s.workers && s.workers[m].Finished? ==> s.workers[m].close)
  {
    CloseIsKept(r, j, i, m);
  }

  /** The token is cancelled, or a closer is about to cancel it. */
  ghost predicate Signalling(s: State, m: nat) {
    m in s.cancelled || (s.slot == Some(m) && exists c :: CloserAt(s.closers, c, Recorded))
  }

  lemma RecordSignals(s: State, c: nat, m: nat)
    requires Enabled(s, Record(c)) && s.slot == Some(m)
    ensures Signalling(Apply(s, Record(c)), m)
  {
    assert CloserAt(Apply(s, Record(c)).closers, c, Recorded);
  }

  lemma StepKeepsSignalling(s: State, step: Step, m: nat)
    requires Enabled(s, step) && Inv(s) && Signalling(s, m)
    ensures Signalling(Apply(s, step), m)
  {
    if m !in s.cancelled {
      var c :| CloserAt(s.closers, c, Recorded);
      assert s.mutex == Some(ByCloser(c));
      assert step != Signal(c) ==> CloserAt(Apply(s, step).closers, c, Recorded);
    }
  }

  /** The token part needs no such condition once the token was published. */
  lemma {:induction false} PublishedTokenIsCancelled(r: Run, j: nat, i: nat, m: nat)
    requires r.Valid() && EarlyReturnsAreIdle(r) && j < |r.steps| && r.steps[j].Record? && r.states[j].slot == Some(m)
    requires j < i < |r.states|
    ensures Signalling(r.states[i], m)
    decreases i
  {
    hide Apply, Enabled, Inv, Signalling, EarlyOnlyWhenIdle;
    var s, step := r.states[i - 1], r.steps[i - 1];
    RunKeepsInv(r, i - 1);
    if i == j + 1 {
      RecordSignals(s, step.c, m);
    } else {
      PublishedTokenIsCancelled(r, j, i - 1, m);
      StepKeepsSignalling(s, step, m);
    }
  }

  /** `start_migration` and the close handler both run on the thread of the window, so
      no close is recorded while a migration is being started. */
  ghost predicate OneThread(r: Run)
    requires r.Valid()
  {
    forall i :: 0 <= i < |r.steps| && r.steps[i].Record? ==> r.states[i].starter == AtRest
  }

  /** On one thread a close recorded for an open migration always cancels its token,
      whatever other operations finish. */
  lemma CloseCancelsToken(r: Run, j: nat, i: nat, m: nat)
    requires r.Valid() && EarlyReturnsAreIdle(r) && OneThread(r) && RecordsFor(r, j, m) && j < i < |r.states|
    ensures Signalling(r.states[i], m)
  {
    RunKeepsInv(r, j);
    PublishedTokenIsCancelled(r, j, i, m);
  }

  // ----- the cancel button -----

  /** The button was pressed before step `i` while the slot held the token of `m`. */
  ghost predicate Pressed(r: Run, i: nat, m: nat)
    requires r.Valid() && i < |r.states|
  {
    exists j :: 0 <= j < i && r.steps[j] == CancelButton && r.states[j].slot == Some(m)
  }

  ghost predicate AnyRecord(r: Run, i: nat)
    requires r.Valid() && i < |r.states|
  {
    exists j :: 0 <= j < i && r.steps[j].Record?
  }

  lemma PressCancels(s: State, m: nat)
    requires Enabled(s, CancelButton) && s.slot == Some(m)
    ensures m in Apply(s, CancelButton).cancelled
  {
  }

  lemma NewlyCancelled(s: State, step: Step, m: nat)
    requires Enabled(s, step) && m in Apply(s, step).cancelled && m !in s.cancelled
    ensures (step == CancelButton && s.slot == Some(m)) ||
            s.closeAfterFinish || exists c :: CloserAt(s.closers, c, Recorded)
  {
    assert step.Signal? ==> CloserAt(s.closers, step.c, Recorded);
  }

  /** The button cancels the token in the slot for good. */
  lemma {:induction false} ButtonCancels(r: Run, i: nat, m: nat)
    requires r.Valid() && i < |r.states| && Pressed(r, i, m)
    ensures m in r.states[i].cancelled
  {
    hide Apply, Enabled;
    var j :| 0 <= j < i && r.steps[j] == CancelButton && r.states[j].slot == Some(m);
    PressCancels(r.states[j], m);
    BornGrows(r.states[i - 1], r.steps[i - 1]);
    if j < i - 1 {
      ButtonCancels(r, i - 1, m);
    }
  }

  lemma {:induction false} RequestsAreRecorded(r: Run, i: nat)
    requires r.Valid() && i < |r.states|
    ensures r.states[i].closeAfterFinish || (exists c :: CloserAt(r.states[i].closers, c, Recorded)) ==> AnyRecord(r, i)
  {
    if i > 0 {
      RequestsAreRecorded(r, i - 1);
      var s, step, t := r.states[i - 1], r.steps[i - 1], r.states[i];
      if t.closeAfterFinish || exists c :: CloserAt(t.closers, c, Recorded) {
        if !step.Record? && !s.closeAfterFinish {
          var c :| CloserAt(t.closers, c, Recorded);
          assert CloserAt(s.closers, c, Recorded);
        }
      }
    }
  }

  /** No token is cancelled without a press of the button for it or a recorded close. */
  lemma {:induction false} CancelledForAReason(r: Run, i: nat, m: nat)
    requires r.Valid() && i < |r.states| && m in r.states[i].cancelled
    ensures Pressed(r, i, m) || AnyRecord(r, i)
  {
    hide Apply, Enabled;
    if i > 0 {
      if m in r.states[i - 1].cancelled {
        CancelledForAReason(r, i - 1, m);
      } else {
        RequestsAreRecorded(r, i - 1);
        NewlyCancelled(r.states[i - 1], r.steps[i - 1], m);
      }
    }
  }

  /** Step `j` recorded a close and no `finish` exchanged the flag before step `i`. */
  ghost predicate LastRecord(r: Run, j: nat, i: nat)
    requires r.Valid() && i < |r.states|
  {
    j < i && r.steps[j].Record? && forall k :: j < k < i ==> !IsExchange(r.steps[k])
  }

  ghost predicate OnRecord(r: Run, i: nat)
    requires r.Valid() && i < |r.states|
  {
    exists j :: LastRecord(r, j, i)
  }

  lemma Earlier(r: Run, j: nat, i: nat)
    requires r.Valid() && 0 < i < |r.states| && LastRecord(r, j, i) && !r.steps[i - 1].Record?
    ensures LastRecord(r, j, i - 1) && !IsExchange(r.steps[i - 1])
  {
  }

  lemma OnRecordStep(r: Run, i: nat)
    requires r.Valid() && 0 < i < |r.states|
    ensures OnRecord(r, i) <==> r.steps[i - 1].Record? || (!IsExchange(r.steps[i - 1]) && OnRecord(r, i - 1))
  {
    hide Apply, Enabled;
    if r.steps[i - 1].Record? {
      assert LastRecord(r, i - 1, i);
    } else if !IsExchange(r.steps[i - 1]) && OnRecord(r, i - 1) {
      var j :| LastRecord(r, j, i - 1);
      assert LastRecord(r, j, i);
    } else if OnRecord(r, i) {
      var j :| LastRecord(r, j, i);
      Earlier(r, j, i);
    }
  }

  lemma FlagStep(s: State, step: Step)
    requires Enabled(s, step)
    ensures var t := Apply(s, step);
            (t.closeAfterFinish <==> step.Record? || (!IsExchange(step) && s.closeAfterFinish)) &&
            (step.Exchange? ==> At(t.workers, step.m, Finished(s.closeAfterFinish)))
  {
  }

  /** Exactly what `finish` answers, in every run: whether a close was recorded
      since the flag was last exchanged. */
  lemma {:induction false} FinishAnswersLastRecord(r: Run, i: nat)
    requires r.Valid() && i < |r.states|
    ensures r.states[i].closeAfterFinish <==> OnRecord(r, i)
    ensures i < |r.steps| && r.steps[i].Exchange? ==>
              (At(r.states[i + 1].workers, r.steps[i].m, Finished(true)) <==> OnRecord(r, i))
  {
    hide Apply, Enabled, OnRecord;
    if i > 0 {
      FinishAnswersLastRecord(r, i - 1);
      OnRecordStep(r, i);
      FlagStep(r.states[i - 1], r.steps[i - 1]);
    } else {
      NothingOnRecord(r);
    }
    if i < |r.steps| {
      FlagStep(r.states[i], r.steps[i]);
    }
  }

  /** Exactly when the publication of a token cancels it: a close was recorded since
      the flag was last exchanged. */
  lemma CheckAnswersLastRecord(r: Run, i: nat)
    requires r.Valid() && i < |r.steps| && r.steps[i] == CheckDeferred && r.states[i].starter.Locked?
    ensures var m := r.states[i].starter.m;
            m in r.states[i + 1].cancelled <==> m in r.states[i].cancelled || OnRecord(r, i)
  {
    hide OnRecord;
    FinishAnswersLastRecord(r, i);
  }

  lemma NothingOnRecord(r: Run)
    requires r.Valid()
    ensures !OnRecord(r, 0)
  {
  }

  // ----- and why the condition is needed -----

  ghost function Last(r: Run): State
    requires r.Valid()
  {
    r.states[|r.steps|]
  }

  ghost predicate NoEarlyReturn(r: Run) {
    EarlyFinish !in r.steps
  }

  /** One more step; what was recorded stays recorded. */
  lemma Extend(r: Run, step: Step) returns (t: Run)
    requires r.Valid() && NoEarlyReturn(r) && Enabled(Last(r), step) && step != EarlyFinish
    ensures t.Valid() && NoEarlyReturn(t) && Last(t) == Apply(Last(r), step)
    ensures forall j: nat, m: nat :: RecordsFor(r, j, m) ==> RecordsFor(t, j, m)
    ensures step.Record? ==> forall m: nat :: IsOpen(Last(r), m) ==> RecordsFor(t, |r.steps|, m)
    ensures |t.steps| == |r.steps| + 1
  {
    t := Run(r.states + [Apply(Last(r), step)], r.steps + [step]);
  }

  /** A scan has made the state idle but not yet exchanged the flag when a migration begins. */
  lemma MigrationBegins() returns (r: Run)
    ensures r.Valid() && NoEarlyReturn(r)
    ensures var s := Last(r); s.otherFinishing > 0 && s.starter == Checked(0) && s.active == Migration && s.closers == map[]
  {
    r := Run([START], []);
    r := Extend(r, OtherBegin);
    r := Extend(r, OtherStore);
    r := Extend(r, TryBegin);
    r := Extend(r, StarterLock);
    r := Extend(r, CheckDeferred);
  }

  /** The migration publishes its token and a close comes in. */
  lemma CloseComesIn() returns (r: Run)
    ensures r.Valid() && NoEarlyReturn(r)
    ensures var s := Last(r); s.otherFinishing > 0 && At(s.workers, 0, Running) && CloserAt(s.closers, 0, Entered)
  {
    r := MigrationBegins();
    r := Extend(r, Publish);
    r := Extend(r, StarterUnlock);
    r := Extend(r, Look(0));
    r := Extend(r, CloserLock(0));
  }

  /** The close is recorded, and the exchange of the scan takes it. */
  lemma RequestIsTaken() returns (r: Run, j: nat)
    ensures r.Valid() && NoEarlyReturn(r) && RecordsFor(r, j, 0)
    ensures var s := Last(r); !s.closeAfterFinish && At(s.workers, 0, Running) && s.mutex == None
  {
    r := CloseComesIn();
    j := |r.steps|;
    r := Extend(r, Record(0));
    r := Extend(r, Signal(0));
    r := Extend(r, CloserUnlock(0));
    r := Extend(r, OtherExchange);
  }

  /** Without the condition a request is lost: the `finish` of the migration answers "no". */
  lemma CloseCanBeLost() returns (r: Run, j: nat)
    ensures r.Valid() && EarlyReturnsAreIdle(r) && RecordsFor(r, j, 0) && At(Last(r).workers, 0, Finished(false))
  {
    r, j := RequestIsTaken();
    r := Extend(r, WorkerLock(0));
    r := Extend(r, ClearSlot(0));
    r := Extend(r, WorkerUnlock(0));
    r := Extend(r, StoreIdle(0));
    r := Extend(r, Exchange(0));
  }

  /** A scan is about to exchange the flag when a migration begins and a close comes
      in before the token is published, which takes a second thread. */
  lemma CloseComesEarly() returns (r: Run)
    ensures r.Valid() && NoEarlyReturn(r)
    ensures var s := Last(r);
            s.otherFinishing > 0 && s.starter == Begun(0) && CloserAt(s.closers, 0, Entered) && s.slot == None &&
            s.cancelled == {}
  {
    r := Run([START], []);
    r := Extend(r, OtherBegin);
    r := Extend(r, OtherStore);
    r := Extend(r, TryBegin);
    r := Extend(r, Look(0));
    r := Extend(r, CloserLock(0));
  }

  /** The close is recorded, and the exchange of the scan takes it. */
  lemma EarlyRequestIsTaken() returns (r: Run, j: nat)
    ensures r.Valid() && NoEarlyReturn(r) && RecordsFor(r, j, 0)
    ensures var s := Last(r); !s.closeAfterFinish && s.starter == Begun(0) && s.mutex == None && s.cancelled == {}
  {
    r := CloseComesEarly();
    j := |r.steps|;
    r := Extend(r, Record(0));
    r := Extend(r, Signal(0));
    r := Extend(r, CloserUnlock(0));
    r := Extend(r, OtherExchange);
  }

  /** A close handler on another thread could miss the token: what it recorded before
      the publication is taken, and the publication finds nothing on record. */
  lemma TokenCanBeMissed() returns (r: Run, j: nat)
    ensures r.Valid() && EarlyReturnsAreIdle(r) && RecordsFor(r, j, 0)
    ensures Last(r).slot == Some(0) && 0 !in Last(r).cancelled
  {
    r, j := EarlyRequestIsTaken();
    r := Extend(r, StarterLock);
    r := Extend(r, CheckDeferred);
    r := Extend(r, Publish);
  }
}
