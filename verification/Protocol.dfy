// The legacy-storage recovery protocol of crates/audit-journal/src/legacy.rs as
// a state machine over durable steps. A crash may stop an instance after any
// step; the next instance continues from the durable state alone.

module Protocol {

  /** `MigrationPhase`. */
  datatype Phase = Prepared | Detached | RootReady | AuditPending | Done

  function Rank(p: Phase): nat {
    match p
    case Prepared => 0
    case Detached => 1
    case RootReady => 2
    case AuditPending => 3
    case Done => 4
  }

  /** Persistent file identity; never reused by the file system. */
  type Identity = nat

  /** The names under ProgramData the protocol touches. */
  datatype Name = Product | Legacy(id: string) | Next(id: string)

  type Namespace = map<Name, Identity>

  /** One migration: the detached object, the new root, the latest marker. */
  datatype Entry = Entry(source: Identity, next: Identity, phase: Phase)

  /** `born` bounds every identity handed out so far, `trusted` are the objects
      created with the protected descriptor, `audits` the terminal events
      durably logged, each in the root that holds the journal. */
  datatype State = State(
    ns: Namespace,
    log: map<string, Entry>,
    born: nat,
    trusted: set<Identity>,
    audits: set<(Identity, string)>)

  predicate Unfinished(s: State, id: string) {
    id in s.log && s.log[id].phase != Done
  }

  /** No migration is unfinished. */
  ghost predicate Idle(log: map<string, Entry>) {
    forall id :: id in log ==> log[id].phase == Done
  }

  predicate Holds(ns: Namespace, n: Name, x: Identity) {
    n in ns && ns[n] == x
  }

  function Move(ns: Namespace, from: Name, to: Name): Namespace
    requires from in ns
  {
    (ns - {from})[to := ns[from]]
  }

  datatype Step =
    | Intrude(isTrusted: bool)      // an unlocked instance creates the product root
    | CreateNext(id: string)
    | RemoveNext(id: string)
    | Mark(id: string, entry: Entry)
    | Detach(id: string)
    | Activate(id: string)
    | Audit(id: string)

  ghost predicate CanMark(s: State, id: string, e: Entry) {
    match e.phase
    case Prepared =>
      id !in s.log && Idle(s.log) &&
      Holds(s.ns, Product, e.source) && Holds(s.ns, Next(id), e.next) && e.next in s.trusted
    case Detached =>
      id in s.log && s.log[id] == e.(phase := Prepared) && Holds(s.ns, Legacy(id), e.source)
    case RootReady =>
      id in s.log && s.log[id] == e.(phase := Detached) && Holds(s.ns, Product, e.next)
    case AuditPending =>
      id in s.log && s.log[id] == e.(phase := RootReady)
    case Done =>
      id in s.log && s.log[id] == e.(phase := AuditPending) && (e.next, id) in s.audits
  }

  /** One durable step with the guard the code has checked when it takes it.
      Renames never replace their target. */
  ghost predicate Do(s: State, step: Step, s': State) {
    match step
    case Intrude(isTrusted) =>
      Product !in s.ns &&
      s' == s.(ns := s.ns[Product := s.born], born := s.born + 1,
               trusted := if isTrusted then s.trusted + {s.born} else s.trusted)
    case CreateNext(id) =>
      Next(id) !in s.ns && Idle(s.log) &&
      s' == s.(ns := s.ns[Next(id) := s.born], born := s.born + 1, trusted := s.trusted + {s.born})
    case RemoveNext(id) =>
      Next(id) in s.ns && Idle(s.log) &&
      s' == s.(ns := s.ns - {Next(id)})
    case Mark(id, e) =>
      CanMark(s, id, e) && s' == s.(log := s.log[id := e])
    case Detach(id) =>
      id in s.log && s.log[id].phase == Prepared && Holds(s.ns, Product, s.log[id].source) &&
      Legacy(id) !in s.ns &&
      s' == s.(ns := Move(s.ns, Product, Legacy(id)))
    case Activate(id) =>
      id in s.log && s.log[id].phase == Detached && Holds(s.ns, Next(id), s.log[id].next) &&
      Product !in s.ns &&
      s' == s.(ns := Move(s.ns, Next(id), Product))
    case Audit(id) =>
      id in s.log && s.log[id].phase == AuditPending && Holds(s.ns, Product, s.log[id].next) &&
      s' == s.(audits := s.audits + {(s.log[id].next, id)})
  }

  /** What may have happened between two calls of the lock holder. */
  ghost predicate Rely(s: State, s': State) {
    s' == s ||
    (Product !in s.ns && Product in s'.ns && s'.ns == s.ns[Product := s'.ns[Product]] &&
     s'.log == s.log && s'.audits == s.audits &&
     s.born <= s'.ns[Product] < s'.born && s.trusted <= s'.trusted)
  }

  /** Every new migration is about the consented object. */
  ghost predicate OnlyConsented(before: map<string, Entry>, after: map<string, Entry>, detected: Identity) {
    forall id :: id in after && id !in before ==> after[id].source == detected
  }

  /** And so at every point of a run, wherever a crash stops it. */
  ghost predicate AllConsented(run: seq<State>, detected: Identity) {
    run != [] && forall k :: 0 <= k < |run| ==> OnlyConsented(run[0].log, run[k].log, detected)
  }

  // ---- Invariant ----

  /** Where the two roots of a migration are, given its latest marker. */
  ghost predicate Coupled(ns: Namespace, id: string, e: Entry) {
    match e.phase
    case Prepared =>
      Holds(ns, Next(id), e.next) &&
      (Holds(ns, Legacy(id), e.source) || (Legacy(id) !in ns && Holds(ns, Product, e.source)))
    case Detached =>
      Holds(ns, Legacy(id), e.source) &&
      (Holds(ns, Next(id), e.next) || (Next(id) !in ns && Holds(ns, Product, e.next)))
    case RootReady =>
      Holds(ns, Legacy(id), e.source) && Holds(ns, Product, e.next) && Next(id) !in ns
    case AuditPending =>
      Holds(ns, Legacy(id), e.source) && Holds(ns, Product, e.next) && Next(id) !in ns
    case Done =>
      Holds(ns, Legacy(id), e.source)
  }

  ghost predicate Injective(ns: Namespace) {
    forall m, n :: m in ns && n in ns && ns[m] == ns[n] ==> m == n
  }

  ghost predicate Born(s: State) {
    (forall n :: n in s.ns ==> s.ns[n] < s.born) &&
    (forall x :: x in s.trusted ==> x < s.born) &&
    (forall id :: id in s.log ==> s.log[id].source < s.born && s.log[id].next in s.trusted)
  }

  ghost predicate OneUnfinished(s: State) {
    forall i, j :: Unfinished(s, i) && Unfinished(s, j) ==> i == j
  }

  ghost predicate AllCoupled(s: State) {
    (forall id :: id in s.log ==> Coupled(s.ns, id, s.log[id])) &&
    (forall id :: Legacy(id) in s.ns ==> id in s.log)
  }

  ghost predicate AuditedBeforeDone(s: State) {
    forall id :: id in s.log && s.log[id].phase == Done ==> (s.log[id].next, id) in s.audits
  }

  ghost predicate Inv(s: State) {
    Injective(s.ns) && Born(s) && OneUnfinished(s) && AllCoupled(s) && AuditedBeforeDone(s)
  }

  /** The states from which the product has never recovered anything: any
      namespace without detached objects, any orphaned next-roots. */
  ghost predicate Initial(s: State) {
    Injective(s.ns) && Born(s) && s.log == map[] && (forall id :: Legacy(id) !in s.ns)
  }

  lemma InitialInv(s: State)
    requires Initial(s)
    ensures Inv(s)
  {
  }

  lemma KeepsInjective(s: State, step: Step, s': State)
    requires Injective(s.ns) && Born(s) && Do(s, step, s')
    ensures Injective(s'.ns)
  {
  }

  lemma KeepsBorn(s: State, step: Step, s': State)
    requires Born(s) && Do(s, step, s')
    ensures Born(s') && s.born <= s'.born
  {
  }

  /** Only the migration a step works on can be unfinished after it. */
  lemma KeepsOneUnfinished(s: State, step: Step, s': State)
    requires OneUnfinished(s) && Do(s, step, s')
    ensures OneUnfinished(s')
  {
    hide Coupled, Holds;
    forall i | Unfinished(s', i)
      ensures Unfinished(s, i) || (step.Mark? && i == step.id && step.entry.phase == Prepared)
    {}
  }

  lemma KeepsCoupled(s: State, step: Step, s': State, id: string)
    requires Injective(s.ns) && OneUnfinished(s) && AllCoupled(s) && Do(s, step, s')
    requires id in s'.log
    ensures Coupled(s'.ns, id, s'.log[id])
  {
    match step
    case Mark(changed, e) =>
      if changed == id {
        MarkCoupled(s, id, e);
      } else {
        assert Coupled(s.ns, id, s.log[id]);
      }
    case Intrude(_) => assert Coupled(s.ns, id, s.log[id]);
    case CreateNext(created) =>
      assert !Unfinished(s, id);
      FinishedCoupled(s, s', id, created);
    case RemoveNext(removed) =>
      assert !Unfinished(s, id);
      FinishedCoupled(s, s', id, removed);
    case Detach(moved) => MoveCoupled(s, step, s', id, moved);
    case Activate(moved) => MoveCoupled(s, step, s', id, moved);
    case Audit(_) =>
  }

  lemma MarkCoupled(s: State, id: string, e: Entry)
    requires Injective(s.ns) && AllCoupled(s) && CanMark(s, id, e)
    ensures Coupled(s.ns, id, e)
  {
    if id in s.log { assert Coupled(s.ns, id, s.log[id]); }
    if e.phase == RootReady {
      assert Product in s.ns && s.ns[Product] == e.next;
      assert !Holds(s.ns, Next(id), e.next);
    }
  }

  lemma FinishedCoupled(s: State, s': State, id: string, other: string)
    requires AllCoupled(s) && id in s.log && s'.log == s.log
    requires s.log[id].phase == Done
    requires forall n :: n != Next(other) ==> (n in s.ns <==> n in s'.ns) && (n in s.ns ==> s'.ns[n] == s.ns[n])
    ensures Coupled(s'.ns, id, s'.log[id])
  {
    assert Coupled(s.ns, id, s.log[id]);
  }

  lemma MoveCoupled(s: State, step: Step, s': State, id: string, moved: string)
    requires Injective(s.ns) && OneUnfinished(s) && AllCoupled(s) && Do(s, step, s')
    requires (step == Detach(moved) || step == Activate(moved)) && id in s.log
    ensures Coupled(s'.ns, id, s'.log[id])
  {
    assert Coupled(s.ns, id, s.log[id]);
    assert Coupled(s.ns, moved, s.log[moved]);
    assert Unfinished(s, moved);
    if id != moved {
      assert !Unfinished(s, id);
    }
  }

  /** Every durable step, by whichever instance, keeps the coupling between the
      marker log and the namespace. */
  lemma StepKeepsInv(s: State, step: Step, s': State)
    requires Inv(s) && Do(s, step, s')
    ensures Inv(s')
  {
    KeepsInjective(s, step, s');
    KeepsBorn(s, step, s');
    KeepsOneUnfinished(s, step, s');
    forall id | id in s'.log ensures Coupled(s'.ns, id, s'.log[id]) {
      KeepsCoupled(s, step, s', id);
    }
    KeepsLegacyAndAudit(s, step, s');
  }

  lemma KeepsLegacyAndAudit(s: State, step: Step, s': State)
    requires AllCoupled(s) && AuditedBeforeDone(s) && Do(s, step, s')
    ensures AuditedBeforeDone(s')
    ensures forall id :: Legacy(id) in s'.ns ==> id in s'.log
  {
    hide Coupled;
  }

  // ---- Runs ----

  ghost predicate Steps(s: State, s': State) {
    exists step :: Do(s, step, s')
  }

  /** A run of any number of instances, crashes and restarts: crashes change no
      durable state, so they appear only as the end of one instance's steps. */
  ghost predicate IsRun(run: seq<State>) {
    run != [] &&
    (|run| == 1 || (IsRun(run[..|run| - 1]) && Steps(run[|run| - 2], run[|run| - 1])))
  }

  lemma {:induction false} RunStep(run: seq<State>, k: nat)
    requires IsRun(run) && k + 1 < |run|
    ensures Steps(run[k], run[k + 1])
  {
    if k + 2 < |run| {
      RunStep(run[..|run| - 1], k);
    }
  }

  lemma {:induction false} RunKeepsInv(run: seq<State>, k: nat)
    requires IsRun(run) && Inv(run[0]) && k < |run|
    ensures Inv(run[k])
  {
    hide Inv, Do;
    if k > 0 {
      RunKeepsInv(run, k - 1);
      RunStep(run, k - 1);
      var step :| Do(run[k - 1], step, run[k]);
      StepKeepsInv(run[k - 1], step, run[k]);
    }
  }

  /** What one step can never undo: markers only advance, with the same two
      identities, and a detached object keeps its detached name. */
  ghost predicate Advances(s: State, s': State) {
    (forall id :: id in s.log ==>
      id in s'.log && s'.log[id].source == s.log[id].source && s'.log[id].next == s.log[id].next &&
      Rank(s.log[id].phase) <= Rank(s'.log[id].phase)) &&
    (forall id, x :: Holds(s.ns, Legacy(id), x) ==> Holds(s'.ns, Legacy(id), x)) &&
    s.audits <= s'.audits && s.born <= s'.born
  }

  lemma StepAdvances(s: State, step: Step, s': State)
    requires Do(s, step, s')
    ensures Advances(s, s')
  {
  }

  /** Over any number of crash and resume rounds the durable phase never falls. */
  lemma {:induction false} RunAdvances(run: seq<State>, i: nat, j: nat)
    requires IsRun(run) && i <= j < |run|
    ensures Advances(run[i], run[j])
  {
    if i < j {
      RunAdvances(run, i, j - 1);
      RunStep(run, j - 1);
      var step :| Do(run[j - 1], step, run[j]);
      StepAdvances(run[j - 1], step, run[j]);
      AdvancesTransitive(run[i], run[j - 1], run[j]);
    }
  }

  lemma AdvancesTransitive(r: State, s: State, t: State)
    requires Advances(r, s) && Advances(s, t)
    ensures Advances(r, t)
  {
  }

  /** The old root is always at exactly one name. */
  lemma OldRootAtOneName(s: State, id: string, n: Name)
    requires Inv(s) && id in s.log
    ensures Holds(s.ns, n, s.log[id].source) <==> n == if Legacy(id) in s.ns then Legacy(id) else Product
  {
    assert Coupled(s.ns, id, s.log[id]);
  }

  /** Once detached, an object is never at the product name again. */
  lemma DetachedNeverReturns(run: seq<State>, i: nat, j: nat, id: string, x: Identity)
    requires IsRun(run) && Inv(run[0]) && i <= j < |run|
    requires Holds(run[i].ns, Legacy(id), x)
    ensures Holds(run[j].ns, Legacy(id), x) && !Holds(run[j].ns, Product, x)
  {
    RunAdvances(run, i, j);
    RunKeepsInv(run, j);
    assert Legacy(id) in run[j].ns && run[j].ns[Legacy(id)] == x;
  }

  /** An event in the journal of root `x` was logged while `x` was the product
      root and its migration had not yet reached Done. */
  lemma {:induction false} AuditOrigin(run: seq<State>, k: nat, x: Identity, id: string)
    requires IsRun(run) && run[0].audits == {} && k < |run| && (x, id) in run[k].audits
    ensures exists j: nat ::
      j < k && id in run[j].log && run[j].log[id].phase == AuditPending && Holds(run[j].ns, Product, x) &&
      (x, id) !in run[j].audits && (x, id) in run[j + 1].audits
  {
    if k > 0 {
      if (x, id) in run[k - 1].audits {
        AuditOrigin(run, k - 1, x, id);
      } else {
        RunStep(run, k - 1);
        var step :| Do(run[k - 1], step, run[k]);
        assert step == Audit(id);
      }
    }
  }

  /** In a run from a fresh machine every Done marker was preceded by its
      terminal audit event, logged in the new root at a time when the marker
      log still said AuditPending. */
  lemma DoneWasAudited(run: seq<State>, k: nat, id: string)
    requires IsRun(run) && Initial(run[0]) && run[0].audits == {} && k < |run|
    requires id in run[k].log && run[k].log[id].phase == Done
    ensures exists j: nat ::
      j < k && id in run[j].log && run[j].log[id] == run[k].log[id].(phase := AuditPending) &&
      Holds(run[j].ns, Product, run[k].log[id].next) &&
      (run[k].log[id].next, id) !in run[j].audits && (run[k].log[id].next, id) in run[j + 1].audits
  {
    InitialInv(run[0]);
    RunKeepsInv(run, k);
    var x := run[k].log[id].next;
    AuditOrigin(run, k, x, id);
    var j: nat :| j < k && id in run[j].log && run[j].log[id].phase == AuditPending
      && Holds(run[j].ns, Product, x) && (x, id) !in run[j].audits && (x, id) in run[j + 1].audits;
    RunAdvances(run, j, k);
  }

  // ---- Confluence ----

  /** Where a migration ends: the old root detached, the new one active. */
  function Settled(ns: Namespace, id: string, e: Entry): Namespace {
    (ns - {Next(id)})[Legacy(id) := e.source][Product := e.next]
  }

  /** Every step taken while a migration is unfinished, an intrusion included,
      leaves the same final namespace ahead. */
  lemma StepKeepsSettled(s: State, step: Step, s': State, id: string)
    requires Inv(s) && Unfinished(s, id) && Do(s, step, s')
    ensures Settled(s'.ns, id, s.log[id]) == Settled(s.ns, id, s.log[id])
  {
    hide Injective, Born, AuditedBeforeDone;
    assert Coupled(s.ns, id, s.log[id]);
    match step
    case Intrude(_) =>
    case CreateNext(_) =>
    case RemoveNext(_) =>
    case Mark(_, _) =>
    case Audit(_) =>
    case Detach(moved) => assert Unfinished(s, moved);
    case Activate(moved) => assert Unfinished(s, moved);
  }

  /** Crashing anywhere and resuming, any number of times, leaves exactly the
      namespace an uninterrupted migration would have left. */
  lemma {:induction false} CrashesDoNotMatter(run: seq<State>, id: string)
    requires IsRun(run) && Inv(run[0]) && Unfinished(run[0], id)
    requires Unfinished(run[|run| - 1], id) && Rank(run[|run| - 1].log[id].phase) >= Rank(RootReady)
    ensures run[|run| - 1].ns == Settled(run[0].ns, id, run[0].log[id])
  {
    hide Inv, Settled;
    SettledAlong(run, id, |run| - 1);
    RunKeepsInv(run, |run| - 1);
    RunAdvances(run, 0, |run| - 1);
    var last := run[|run| - 1];
    ReadyIsSettled(last, id);
    SettledIgnoresPhase(last.ns, id, last.log[id], run[0].log[id]);
  }

  lemma ReadyIsSettled(s: State, id: string)
    requires Inv(s) && Unfinished(s, id) && Rank(s.log[id].phase) >= Rank(RootReady)
    ensures Settled(s.ns, id, s.log[id]) == s.ns
  {
    assert Coupled(s.ns, id, s.log[id]);
  }

  lemma {:induction false} SettledAlong(run: seq<State>, id: string, k: nat)
    requires IsRun(run) && Inv(run[0]) && Unfinished(run[0], id)
    requires k < |run| && Unfinished(run[k], id)
    ensures Settled(run[k].ns, id, run[0].log[id]) == Settled(run[0].ns, id, run[0].log[id])
  {
    hide Inv, Do, Settled, IsRun;
    if k > 0 {
      RunAdvances(run, 0, k - 1);
      RunAdvances(run, k - 1, k);
      SettledAlong(run, id, k - 1);
      RunKeepsInv(run, k - 1);
      RunStep(run, k - 1);
      var step :| Do(run[k - 1], step, run[k]);
      StepKeepsSettled(run[k - 1], step, run[k], id);
      SettledIgnoresPhase(run[k - 1].ns, id, run[k - 1].log[id], run[0].log[id]);
      SettledIgnoresPhase(run[k].ns, id, run[k - 1].log[id], run[0].log[id]);
    }
  }

  lemma SettledIgnoresPhase(ns: Namespace, id: string, e: Entry, f: Entry)
    requires e.source == f.source && e.next == f.next
    ensures Settled(ns, id, e) == Settled(ns, id, f)
  {
  }

  /** What holds of the migrations at the end of a run holds all along it. */
  lemma ConsentedAlong(run: seq<State>, detected: Identity)
    requires IsRun(run) && OnlyConsented(run[0].log, run[|run| - 1].log, detected)
    ensures AllConsented(run, detected)
  {
    assert run != [];
    hide IsRun;
    forall k | 0 <= k < |run| ensures OnlyConsented(run[0].log, run[k].log, detected) {
      RunAdvances(run, k, |run| - 1);
    }
  }
}
