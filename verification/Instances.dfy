// Several instances of the program around one ProgramData directory: unlocked
// inspection, consent, the bootstrap lock, crashes. Justifies the interference
// that `LegacyRecovery` allows between two calls of the lock holder, and says
// which objects can ever lose the product name.

module Instances {
  import opened Faults
  import opened Protocol

  type Pid = nat

  /** `suspects`: instances whose attempt to open the product root failed;
      `consents`: the identity an instance then captured for its consent, or read
      from the unfinished migration it found. */
  datatype Sys = Sys(d: State, lock: Option<Pid>, suspects: set<Pid>, consents: map<Pid, Identity>)

  datatype Action =
    | Inspect(p: Pid)
    | Capture(p: Pid)
    | FindPending(p: Pid, id: string)
    | CreateRoot(p: Pid, isTrusted: bool)
    | Acquire(p: Pid)
    | Release(p: Pid)
    | Crash(p: Pid)
    | Act(p: Pid, step: Step)

  ghost predicate Transition(s: Sys, a: Action, s': Sys) {
    match a
    case Inspect(p) =>
      Product in s.d.ns && s' == s.(suspects := s.suspects + {p})
    case Capture(p) =>
      p in s.suspects && Product in s.d.ns && s' == s.(consents := s.consents[p := s.d.ns[Product]])
    case FindPending(p, id) =>
      Unfinished(s.d, id) && s' == s.(consents := s.consents[p := s.d.log[id].source])
    case CreateRoot(p, isTrusted) =>
      Do(s.d, Intrude(isTrusted), s'.d) && s' == s.(d := s'.d)
    case Acquire(p) =>
      s.lock == None && s' == s.(lock := Some(p))
    case Release(p) =>
      s.lock == Some(p) && s' == s.(lock := None)
    case Crash(p) =>
      s' == s.(lock := if s.lock == Some(p) then None else s.lock,
               suspects := s.suspects - {p}, consents := s.consents - {p})
    case Act(p, step) =>
      s.lock == Some(p) && !step.Intrude? && Do(s.d, step, s'.d) && s' == s.(d := s'.d) &&
      (step.Mark? && step.entry.phase == Prepared ==> p in s.consents && s.consents[p] == step.entry.source)
  }

  ghost predicate Moves(s: Sys, s': Sys) {
    exists a :: Transition(s, a, s')
  }

  ghost predicate IsRun(run: seq<Sys>) {
    run != [] &&
    (|run| == 1 || (IsRun(run[..|run| - 1]) && Moves(run[|run| - 2], run[|run| - 1])))
  }

  ghost predicate Start(s: Sys) {
    Initial(s.d) && s.lock == None && s.suspects == {} && s.consents == map[]
  }

  /** While one instance holds the lock, the others change at most the free
      product name. */
  lemma OthersOnlyIntrude(s: Sys, a: Action, s': Sys, holder: Pid)
    requires Transition(s, a, s') && s.lock == Some(holder) && a.p != holder
    ensures s'.lock == Some(holder)
    ensures s'.d == s.d || exists isTrusted :: Do(s.d, Intrude(isTrusted), s'.d)
  {
    hide Do;
  }

  /** Somebody other than the holder of the lock moves. */
  ghost predicate OtherMoves(s: Sys, s': Sys, holder: Pid) {
    s.lock == Some(holder) && exists a: Action :: Transition(s, a, s') && a.p != holder
  }

  /** However many actions the others take between two of the holder, and whatever
      they are, it finds what `LegacyRecovery` relies on, and still holds the lock. */
  lemma {:induction false} HolderRelies(run: seq<Sys>, i: nat, j: nat, holder: Pid)
    requires i <= j < |run| && run[i].lock == Some(holder) && Born(run[i].d)
    requires forall k :: i <= k < j ==> OtherMoves(run[k], run[k + 1], holder)
    ensures Rely(run[i].d, run[j].d) && run[j].lock == Some(holder) && Born(run[j].d)
  {
    hide Transition;
    if i < j {
      HolderRelies(run, i, j - 1, holder);
      var s, s' := run[j - 1], run[j];
      assert OtherMoves(s, s', holder);
      var a: Action :| Transition(s, a, s') && a.p != holder;
      OthersOnlyIntrude(s, a, s', holder);
    }
  }

  lemma {:induction false} RunStep(run: seq<Sys>, k: nat)
    requires IsRun(run) && k + 1 < |run|
    ensures Moves(run[k], run[k + 1])
  {
    if k + 2 < |run| {
      RunStep(run[..|run| - 1], k);
    }
  }

  /** A protocol step or none. */
  lemma MoveIsStep(s: Sys, a: Action, s': Sys)
    requires Transition(s, a, s')
    ensures s'.d == s.d || exists step :: Do(s.d, step, s'.d)
  {
    hide Do;
    if a.CreateRoot? {
      assert Do(s.d, Intrude(a.isTrusted), s'.d);
    } else if a.Act? {
      assert Do(s.d, a.step, s'.d);
    }
  }

  /** Over all interleavings, crashes and restarts of any number of instances
      the marker log and the namespace stay coupled. */
  lemma {:induction false} AllRunsKeepInv(run: seq<Sys>, k: nat)
    requires IsRun(run) && Inv(run[0].d) && k < |run|
    ensures Inv(run[k].d)
  {
    hide Inv, Do, Transition;
    if k > 0 {
      AllRunsKeepInv(run, k - 1);
      RunStep(run, k - 1);
      var a :| Transition(run[k - 1], a, run[k]);
      MoveIsStep(run[k - 1], a, run[k]);
      if run[k].d != run[k - 1].d {
        var step :| Do(run[k - 1].d, step, run[k].d);
        StepKeepsInv(run[k - 1].d, step, run[k].d);
      }
    }
  }

  /** At step `i` some instance captured `x`, then under the product name. */
  ghost predicate CapturedAt(run: seq<Sys>, i: nat, x: Identity) {
    i + 1 < |run| && Holds(run[i].d.ns, Product, x) && exists p :: Transition(run[i], Capture(p), run[i + 1])
  }

  ghost predicate CapturedBefore(run: seq<Sys>, k: nat, x: Identity) {
    exists i: nat :: i < k && CapturedAt(run, i, x)
  }

  /** Every consent, and every object a migration is about, was captured under
      the product name earlier in the run. */
  lemma {:induction false} SourcesWereCaptured(run: seq<Sys>, k: nat)
    requires IsRun(run) && Start(run[0]) && k < |run|
    ensures forall p :: p in run[k].consents ==> CapturedBefore(run, k, run[k].consents[p])
    ensures forall id :: id in run[k].d.log ==> CapturedBefore(run, k, run[k].d.log[id].source)
  {
    hide CapturedAt, Do;
    if k > 0 {
      SourcesWereCaptured(run, k - 1);
      RunStep(run, k - 1);
      var a :| Transition(run[k - 1], a, run[k]);
      forall x | CapturedBefore(run, k - 1, x) ensures CapturedBefore(run, k, x) {}
      forall p | p in run[k].consents ensures CapturedBefore(run, k, run[k].consents[p]) {
        if a == Capture(p) {
          CaptureIsCaptured(run, k - 1, p);
        }
      }
      forall id | id in run[k].d.log ensures CapturedBefore(run, k, run[k].d.log[id].source) {
        LogSources(run[k - 1], a, run[k], id);
      }
    }
  }

  lemma CaptureIsCaptured(run: seq<Sys>, i: nat, p: Pid)
    requires i + 1 < |run| && Transition(run[i], Capture(p), run[i + 1])
    ensures CapturedAt(run, i, run[i + 1].consents[p])
  {
  }

  lemma LogSources(s: Sys, a: Action, s': Sys, id: string)
    requires Transition(s, a, s') && id in s'.d.log
    ensures (id in s.d.log && s.d.log[id].source == s'.d.log[id].source) ||
            (exists p :: p in s.consents && s.consents[p] == s'.d.log[id].source)
  {
  }

  /** Only an object some instance captured for its consent is ever renamed
      away from the product name, whichever instance does it. */
  lemma OnlyCapturedObjectsLeave(run: seq<Sys>, k: nat, x: Identity)
    requires IsRun(run) && Start(run[0]) && k + 1 < |run|
    requires Holds(run[k].d.ns, Product, x) && !Holds(run[k + 1].d.ns, Product, x)
    ensures CapturedBefore(run, k, x)
  {
    RunStep(run, k);
    var a :| Transition(run[k], a, run[k + 1]);
    assert a.Act? && a.step.Detach? by { ProductLeaves(run[k], a, run[k + 1], x); }
    SourcesWereCaptured(run, k);
    assert run[k].d.log[a.step.id].source == x;
  }

  lemma ProductLeaves(s: Sys, a: Action, s': Sys, x: Identity)
    requires Transition(s, a, s') && Holds(s.d.ns, Product, x) && !Holds(s'.d.ns, Product, x)
    ensures a.Act? && a.step.Detach?
  {
  }

  /** A stale consent is harmless: a root created after every capture so far
      stays under the product name for as long as nobody captures again. */
  lemma {:induction false} StaleConsentIsHarmless(run: seq<Sys>, j: nat, k: nat, m: nat, y: Identity)
    requires IsRun(run) && Start(run[0]) && j <= k <= m < |run|
    requires y >= run[j].d.born && Holds(run[k].d.ns, Product, y)
    requires forall i: nat :: j <= i < m ==> !CapturedAt(run, i, y)
    ensures Holds(run[m].d.ns, Product, y)
  {
    hide CapturedAt, Transition;
    if k < m {
      StaleConsentIsHarmless(run, j, k, m - 1, y);
      if !Holds(run[m].d.ns, Product, y) {
        OnlyCapturedObjectsLeave(run, m - 1, y);
        var i: nat :| i < m - 1 && CapturedAt(run, i, y);
        BornGrows(run, i, j);
        InitialInv(run[0].d);
        AllRunsKeepInv(run, i);
        CapturedIsBorn(run, i, y);
        assert false;
      }
    }
  }

  lemma CapturedIsBorn(run: seq<Sys>, i: nat, x: Identity)
    requires CapturedAt(run, i, x) && Inv(run[i].d)
    ensures x < run[i].d.born
  {
  }

  lemma {:induction false} BornGrows(run: seq<Sys>, i: nat, j: nat)
    requires IsRun(run) && i < |run| && j < |run|
    ensures i <= j ==> run[i].d.born <= run[j].d.born
  {
    hide Do;
    if i < j {
      BornGrows(run, i, j - 1);
      RunStep(run, j - 1);
      var a :| Transition(run[j - 1], a, run[j]);
      MoveIsStep(run[j - 1], a, run[j]);
      if run[j].d != run[j - 1].d {
        var step :| Do(run[j - 1].d, step, run[j].d);
        StepAdvances(run[j - 1].d, step, run[j].d);
      }
    }
  }

  /** The recovery code as one of several instances: a trace of one of its calls,
      up to any crash, under the lock and for the consent the instance holds, is a
      run of this system, in which somebody else makes the intrusions. */
  lemma {:induction false} HolderTraceIsRun(trace: seq<State>, s: Sys, p: Pid, other: Pid) returns (run: seq<Sys>)
    requires Protocol.IsRun(trace) && trace[0] == s.d && s.lock == Some(p) && p in s.consents
    requires AllConsented(trace, s.consents[p])
    ensures |run| == |trace| && IsRun(run) && forall k :: 0 <= k < |run| ==> run[k] == s.(d := trace[k])
  {
    hide Do;
    if |trace| == 1 {
      run := [s];
    } else {
      var n := |trace| - 1;
      var shorter := trace[..n];
      assert forall k :: 0 <= k < n ==> shorter[k] == trace[k];
      run := HolderTraceIsRun(shorter, s, p, other);
      Protocol.RunStep(trace, n - 1);
      var step :| Do(trace[n - 1], step, trace[n]);
      HolderStep(trace, step, s, p, other);
      run := run + [s.(d := trace[n])];
      assert run[..n] == run[..|run| - 1];
    }
  }

  lemma HolderStep(trace: seq<State>, step: Step, s: Sys, p: Pid, other: Pid)
    requires |trace| > 1 && Protocol.IsRun(trace) && trace[0] == s.d && s.lock == Some(p) && p in s.consents
    requires AllConsented(trace, s.consents[p]) && Do(trace[|trace| - 2], step, trace[|trace| - 1])
    ensures Moves(s.(d := trace[|trace| - 2]), s.(d := trace[|trace| - 1]))
  {
    hide Protocol.IsRun;
    var n := |trace| - 1;
    var t, t' := s.(d := trace[n - 1]), s.(d := trace[n]);
    RunAdvances(trace, 0, n - 1);
    if step.Intrude? {
      assert Transition(t, CreateRoot(other, step.isTrusted), t');
    } else {
      assert OnlyConsented(trace[0].log, trace[n].log, s.consents[p]);
      assert Transition(t, Act(p, step), t');
    }
  }

  // ----- why the hypothesis about captures is needed -----

  /** What the first instance has done when it lets go of the lock: the old root `x` is
      detached, the new root `y` active and audited, and the migration done. */
  ghost predicate Recovered(s: Sys, p: Pid, id: string, x: Identity, y: Identity) {
    s.lock == None && p in s.suspects && p !in s.consents &&
    s.d.log == map[id := Entry(x, y, Done)] && (y, id) in s.d.audits && y in s.d.trusted && y < s.d.born &&
    Holds(s.d.ns, Legacy(id), x) && Holds(s.d.ns, Product, y)
  }

  /** Two instances refuse the old root; one of them captures it, locks and detaches it. */
  lemma FirstDetaches(s: Sys, p: Pid, q: Pid, id: string) returns (run: seq<Sys>)
    requires Start(s) && Product in s.d.ns && p != q && Next(id) !in s.d.ns
    ensures IsRun(run) && run != [] && run[0] == s
    ensures UnderWay(run[|run| - 1], p, q, id, s.d.ns[Product], s.d.born, Detached)
    ensures run[|run| - 1].d.ns == Move(s.d.ns[Next(id) := s.d.born], Product, Legacy(id))
  {
    hide IsRun;
    var x, y := s.d.ns[Product], s.d.born;
    var d1 := s.d.(ns := s.d.ns[Next(id) := y], born := y + 1, trusted := s.d.trusted + {y});
    var d2 := d1.(log := map[id := Entry(x, y, Prepared)]);
    var d3 := d2.(ns := Move(d1.ns, Product, Legacy(id)));
    var d4 := d3.(log := map[id := Entry(x, y, Detached)]);
    var s1 := s.(suspects := {p});
    var s2 := s.(suspects := {p, q});
    var s3 := s2.(consents := map[q := x]);
    var s4 := s3.(lock := Some(q));
    assert d2.log[id := Entry(x, y, Detached)] == d4.log;
    run := Only(s);
    run := Take(run, Inspect(p), s1);
    run := Take(run, Inspect(q), s2);
    run := Take(run, Capture(q), s3);
    run := Take(run, Acquire(q), s4);
    run := Take(run, Act(q, CreateNext(id)), s4.(d := d1));
    run := Take(run, Act(q, Mark(id, Entry(x, y, Prepared))), s4.(d := d2));
    run := Take(run, Act(q, Detach(id)), s4.(d := d3));
    run := Take(run, Act(q, Mark(id, Entry(x, y, Detached))), s4.(d := d4));
  }

  /** Instance `q` is under way with `id`, at `phase`. */
  ghost predicate UnderWay(s: Sys, p: Pid, q: Pid, id: string, x: Identity, y: Identity, phase: Phase) {
    s.lock == Some(q) && p in s.suspects && p !in s.consents && y in s.d.trusted && y < s.d.born &&
    s.d.log == map[id := Entry(x, y, phase)] && Holds(s.d.ns, Legacy(id), x)
  }

  /** It activates the new root. */
  lemma FirstActivates(before: seq<Sys>, p: Pid, q: Pid, id: string, x: Identity, y: Identity) returns (run: seq<Sys>)
    requires IsRun(before) && before != [] && UnderWay(before[|before| - 1], p, q, id, x, y, Detached)
    requires var ns := before[|before| - 1].d.ns; Holds(ns, Next(id), y) && Product !in ns
    ensures IsRun(run) && run != [] && before <= run && UnderWay(run[|run| - 1], p, q, id, x, y, AuditPending)
    ensures run[|run| - 1].d.ns == Move(before[|before| - 1].d.ns, Next(id), Product)
    ensures run[|run| - 1].d.born == before[|before| - 1].d.born
  {
    hide IsRun;
    var s := before[|before| - 1];
    var d1 := s.d.(ns := Move(s.d.ns, Next(id), Product));
    var d2 := d1.(log := map[id := Entry(x, y, RootReady)]);
    var d3 := d1.(log := map[id := Entry(x, y, AuditPending)]);
    assert s.d.log[id := Entry(x, y, RootReady)] == d2.log && d2.log[id := Entry(x, y, AuditPending)] == d3.log;
    run := Take(before, Act(q, Activate(id)), s.(d := d1));
    run := Take(run, Act(q, Mark(id, Entry(x, y, RootReady))), s.(d := d2));
    run := Take(run, Act(q, Mark(id, Entry(x, y, AuditPending))), s.(d := d3));
  }

  /** It audits the new root, writes Done and lets go. */
  lemma FirstFinishes(before: seq<Sys>, p: Pid, q: Pid, id: string, x: Identity, y: Identity) returns (run: seq<Sys>)
    requires IsRun(before) && before != [] && UnderWay(before[|before| - 1], p, q, id, x, y, AuditPending)
    requires Holds(before[|before| - 1].d.ns, Product, y)
    ensures IsRun(run) && run != [] && before <= run && Recovered(run[|run| - 1], p, id, x, y)
    ensures run[|run| - 1].d.ns == before[|before| - 1].d.ns && run[|run| - 1].d.born == before[|before| - 1].d.born
  {
    hide IsRun;
    var s := before[|before| - 1];
    var d1 := s.d.(audits := s.d.audits + {(y, id)});
    var d2 := d1.(log := map[id := Entry(x, y, Done)]);
    assert d1.log[id := Entry(x, y, Done)] == d2.log;
    run := Take(before, Act(q, Audit(id)), s.(d := d1));
    run := Take(run, Act(q, Mark(id, Entry(x, y, Done))), s.(d := d2));
    run := Take(run, Release(q), s.(d := d2, lock := None));
  }

  /** Only now does the other instance capture, and detaches what it captured. */
  lemma SecondDetaches(before: seq<Sys>, p: Pid, id: string, x: Identity, y: Identity, id': string) returns (run: seq<Sys>)
    requires IsRun(before) && before != [] && Recovered(before[|before| - 1], p, id, x, y) && id' != id
    requires Next(id') !in before[|before| - 1].d.ns && Legacy(id') !in before[|before| - 1].d.ns
    ensures IsRun(run) && run != [] && before <= run && Holds(run[|run| - 1].d.ns, Legacy(id'), y)
  {
    hide IsRun;
    var s := before[|before| - 1];
    var z := s.d.born;
    var s1 := s.(consents := s.consents[p := y]);
    var s2 := s1.(lock := Some(p));
    var d1 := s.d.(ns := s.d.ns[Next(id') := z], born := z + 1, trusted := s.d.trusted + {z});
    var d2 := d1.(log := d1.log[id' := Entry(y, z, Prepared)]);
    var d3 := d2.(ns := Move(d1.ns, Product, Legacy(id')));
    run := Take(before, Capture(p), s1);
    run := Take(run, Acquire(p), s2);
    run := Take(run, Act(p, CreateNext(id')), s2.(d := d1));
    run := Take(run, Act(p, Mark(id', Entry(y, z, Prepared))), s2.(d := d2));
    run := Take(run, Act(p, Detach(id')), s2.(d := d3));
  }

  /** From every start with a product root: two instances fail to open that root, one
      replaces it completely, and the other, which captures only then, detaches the
      new root that was activated and audited. */
  lemma LateCaptureDetaches(s: Sys, p: Pid, q: Pid, id: string, id': string) returns (run: seq<Sys>, k: nat)
    requires Start(s) && Product in s.d.ns && p != q && id != id'
    requires Next(id) !in s.d.ns && Next(id') !in s.d.ns
    ensures IsRun(run) && run[0] == s && k < |run|
    ensures Recovered(run[k], p, id, s.d.ns[Product], s.d.born)
    ensures Holds(run[|run| - 1].d.ns, Legacy(id'), s.d.born)
  {
    hide Transition, IsRun;
    run := FirstDetaches(s, p, q, id);
    run := FirstActivates(run, p, q, id, s.d.ns[Product], s.d.born);
    run := FirstFinishes(run, p, q, id, s.d.ns[Product], s.d.born);
    k := |run| - 1;
    run := SecondDetaches(run, p, id, s.d.ns[Product], s.d.born, id');
  }

  lemma Only(s: Sys) returns (run: seq<Sys>)
    ensures IsRun(run) && run == [s]
  {
    run := [s];
  }

  lemma Take(run: seq<Sys>, a: Action, s: Sys) returns (longer: seq<Sys>)
    requires IsRun(run) && run != [] && Transition(run[|run| - 1], a, s)
    ensures IsRun(longer) && longer == run + [s]
  {
    longer := run + [s];
    assert longer[..|run|] == run;
  }
}
