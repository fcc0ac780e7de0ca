// The rotating audit journal: crates/audit-journal/src/journal.rs.
//
// Slot 0 is the live file, slot i the archive with suffix ".i". The first half
// is the store as a state machine over single file operations; the second half
// is the logger, whose every file operation is one step of that machine.

module JournalStore {
  import opened Words

  datatype Entry = Entry(json: string)

  type Files = map<nat, seq<Entry>>

  /** Bytes of one line: the JSON text and its newline. */
  function LineBytes(e: Entry): nat { |e.json| + 1 }

  function Bytes(file: seq<Entry>): nat {
    if file == [] then 0 else Bytes(file[..|file| - 1]) + LineBytes(file[|file| - 1])
  }

  lemma LineBytesIs(e: Entry)
    ensures LineBytes(e) == |e.json| + 1
  {
  }

  lemma BytesAppend(file: seq<Entry>, e: Entry)
    ensures Bytes(file + [e]) == Bytes(file) + LineBytes(e)
  {
    assert (file + [e])[..|file|] == file;
  }

  /** The text of a file. */
  function Text(file: seq<Entry>): string {
    if file == [] then "" else Text(file[..|file| - 1]) + file[|file| - 1].json + "\n"
  }

  /** The byte counts are lengths of that text; the JSON of an entry is taken as bytes. */
  lemma {:induction false} BytesOfText(file: seq<Entry>)
    ensures Bytes(file) == |Text(file)|
  {
    if file != [] {
      BytesOfText(file[..|file| - 1]);
    }
  }

  lemma FitsAfterAppend(file: seq<Entry>, e: Entry, limit: nat)
    requires SaturatingAdd(Bytes(file), LineBytes(e)) <= limit
    ensures limit < U64_MAX ==> Bytes(file + [e]) <= limit
  {
    BytesAppend(file, e);
  }

  function Slot(files: Files, i: nat): seq<Entry> {
    if i in files then files[i] else []
  }

  /** What a reader sees who reads the archives from index `top` down to 1 and
      then the live file. */
  function ReadBack(files: Files, top: nat): seq<Entry> {
    if top == 0 then Slot(files, 0) else Slot(files, top) + ReadBack(files, top - 1)
  }

  ghost predicate IsSuffix(part: seq<Entry>, whole: seq<Entry>) {
    |part| <= |whole| && whole[|whole| - |part|..] == part
  }

  datatype Limits = Limits(maxBytes: nat, maxArchives: nat)

  /** The durable state, with every entry ever appended. */
  datatype Store = Store(files: Files, history: seq<Entry>)

  datatype FileOp =
    | CreateLive
    | DropOldest
    | Shift(from: nat)
    | Append(entry: Entry)

  /** The guards are the checks of the code: a rename never replaces its target,
      only the oldest archive is removed, an append fits the live file. */
  ghost predicate Step(l: Limits, s: Store, op: FileOp, s': Store) {
    match op
    case CreateLive =>
      0 !in s.files && s' == s.(files := s.files[0 := []])
    case DropOldest =>
      l.maxArchives in s.files && l.maxArchives != 0 &&
      s' == s.(files := s.files - {l.maxArchives})
    case Shift(i) =>
      i in s.files && i + 1 !in s.files && i + 1 <= l.maxArchives &&
      s' == s.(files := (s.files - {i})[i + 1 := s.files[i]])
    case Append(e) =>
      0 in s.files && SaturatingAdd(Bytes(s.files[0]), LineBytes(e)) <= l.maxBytes &&
      s' == Store(s.files[0 := s.files[0] + [e]], s.history + [e])
  }

  ghost predicate Steps(l: Limits, s: Store, s': Store) {
    exists op :: Step(l, s, op, s')
  }

  /** Every prefix of a run is what a crash at that point leaves; a restart
      continues from its last state. */
  ghost predicate IsRun(l: Limits, run: seq<Store>) {
    run != [] &&
    (|run| == 1 ||
     (IsRun(l, run[..|run| - 1]) && Steps(l, run[|run| - 2], run[|run| - 1])))
  }

  ghost predicate SlotsInRange(l: Limits, files: Files) {
    forall i :: i in files ==> i <= l.maxArchives
  }

  ghost predicate InOrder(l: Limits, s: Store) {
    SlotsInRange(l, s.files) && IsSuffix(ReadBack(s.files, l.maxArchives), s.history)
  }

  ghost predicate WithinLimit(l: Limits, s: Store) {
    forall i :: i in s.files ==> Bytes(s.files[i]) <= l.maxBytes
  }

  lemma ReadBackLocal(f: Files, g: Files, top: nat)
    requires forall i: nat :: i <= top ==> Slot(f, i) == Slot(g, i)
    ensures ReadBack(f, top) == ReadBack(g, top)
  {
  }

  lemma {:induction false} ShiftReads(f: Files, i: nat, top: nat)
    requires i in f && i + 1 !in f && i + 1 <= top
    ensures ReadBack((f - {i})[i + 1 := f[i]], top) == ReadBack(f, top)
  {
    var g := (f - {i})[i + 1 := f[i]];
    assert Slot(g, i) == [] && Slot(g, i + 1) == f[i] && Slot(f, i + 1) == [];
    if top > i + 1 {
      ShiftReads(f, i, top - 1);
      assert Slot(g, top) == Slot(f, top);
    } else if i > 0 {
      ReadBackLocal(f, g, i - 1);
      assert ReadBack(g, i) == ReadBack(g, i - 1);
    }
  }

  lemma {:induction false} AppendReads(f: Files, e: Entry, top: nat)
    requires 0 in f
    ensures ReadBack(f[0 := f[0] + [e]], top) == ReadBack(f, top) + [e]
  {
    if top > 0 {
      AppendReads(f, e, top - 1);
      assert Slot(f[0 := f[0] + [e]], top) == Slot(f, top);
    }
  }

  /** One file operation, or a crash right after it, keeps the read order. */
  lemma StepKeepsOrder(l: Limits, s: Store, op: FileOp, s': Store)
    requires InOrder(l, s) && Step(l, s, op, s')
    ensures InOrder(l, s')
  {
    var n := l.maxArchives;
    match op
    case CreateLive =>
      ReadBackLocal(s.files, s'.files, n);
    case DropOldest =>
      ReadBackLocal(s.files, s'.files, n - 1);
      assert ReadBack(s.files, n) == s.files[n] + ReadBack(s'.files, n);
    case Shift(i) =>
      ShiftReads(s.files, i, n);
    case Append(e) =>
      AppendReads(s.files, e, n);
  }

  /** A file length is a 64-bit number. */
  ghost predicate LengthsFit(s: Store) {
    forall i :: i in s.files ==> Bytes(s.files[i]) <= U64_MAX
  }

  lemma StepKeepsLimit(l: Limits, s: Store, op: FileOp, s': Store)
    requires WithinLimit(l, s) && Step(l, s, op, s') && (l.maxBytes >= U64_MAX ==> LengthsFit(s'))
    ensures WithinLimit(l, s')
  {
    if op.Append? && l.maxBytes < U64_MAX {
      BytesAppend(s.files[0], op.entry);
    }
  }

  /** Whatever sequence of operations, crashes and restarts led to a state, the
      archives read from the highest index down and then the live file are a
      suffix of everything ever appended, in append order. */
  lemma {:induction false} RunKeepsOrder(l: Limits, run: seq<Store>, k: nat)
    requires IsRun(l, run) && InOrder(l, run[0]) && k < |run|
    ensures InOrder(l, run[k])
  {
    if |run| > 1 {
      var shorter := run[..|run| - 1];
      if k < |shorter| {
        RunKeepsOrder(l, shorter, k);
      } else {
        RunKeepsOrder(l, shorter, k - 1);
        var op :| Step(l, run[|run| - 2], op, run[|run| - 1]);
        StepKeepsOrder(l, run[k - 1], op, run[k]);
      }
    }
  }

  lemma {:induction false} RunKeepsLimit(l: Limits, run: seq<Store>, k: nat)
    requires l.maxBytes >= U64_MAX ==> forall s :: s in run ==> LengthsFit(s)
    requires IsRun(l, run) && WithinLimit(l, run[0]) && k < |run|
    ensures WithinLimit(l, run[k])
  {
    if |run| > 1 {
      var shorter := run[..|run| - 1];
      if k < |shorter| {
        RunKeepsLimit(l, shorter, k);
      } else {
        RunKeepsLimit(l, shorter, k - 1);
        var op :| Step(l, run[|run| - 2], op, run[|run| - 1]);
        StepKeepsLimit(l, run[k - 1], op, run[k]);
      }
    }
  }

  function TotalBytes(files: Files, top: nat): nat {
    Bytes(Slot(files, top)) + if top == 0 then 0 else TotalBytes(files, top - 1)
  }

  lemma {:induction false} TotalBounded(l: Limits, s: Store, top: nat)
    requires WithinLimit(l, s)
    ensures TotalBytes(s.files, top) <= (top + 1) * l.maxBytes
  {
    assert Bytes(Slot(s.files, top)) <= l.maxBytes;
    if top > 0 {
      TotalBounded(l, s, top - 1);
      assert (top + 1) * l.maxBytes == top * l.maxBytes + l.maxBytes;
    }
  }

  /** A store that started empty never holds more than (archives + 1) files' worth. */
  lemma RunBoundsTotal(l: Limits, run: seq<Store>, k: nat)
    requires l.maxBytes >= U64_MAX ==> forall s :: s in run ==> LengthsFit(s)
    requires IsRun(l, run) && run[0] == Store(map[], []) && k < |run|
    ensures TotalBytes(run[k].files, l.maxArchives) <= (l.maxArchives + 1) * l.maxBytes
    ensures SlotsInRange(l, run[k].files)
  {
    assert ReadBack(run[0].files, l.maxArchives) == [] by { EmptyReads(l.maxArchives); }
    RunKeepsOrder(l, run, k);
    RunKeepsLimit(l, run, k);
    TotalBounded(l, run[k], l.maxArchives);
  }

  lemma EmptyReads(top: nat)
    ensures ReadBack(map[], top) == []
  {
  }

  /** One more file operation from the end of a run. */
  lemma Commit(l: Limits, run: seq<Store>, op: FileOp, s: Store)
    requires IsRun(l, run) && InOrder(l, run[|run| - 1]) && Step(l, run[|run| - 1], op, s)
    ensures IsRun(l, run + [s]) && InOrder(l, s) && SlotsInRange(l, s.files)
  {
    StepKeepsOrder(l, run[|run| - 1], op, s);
    assert (run + [s])[..|run|] == run;
  }
}

module Journal {
  import opened Words
  import opened Faults
  import opened JournalStore

  datatype Error =
    | InvalidConfiguration
    | EntryTooLarge(actual: nat, maximum: nat)
    | InvalidEntry(line: nat)
    | BufferPoisoned
    | Storage

  datatype Result<+T> = Ok(value: T) | Err(error: Error)

  /** The newest `n` elements. */
  function Newest(s: seq<Entry>, n: nat): (r: seq<Entry>)
    ensures IsSuffix(r, s) && |r| == if |s| <= n then |s| else n
  {
    if |s| <= n then s else s[|s| - n..]
  }

  /** Trimming the display buffer first and appending then keeps the newest `n`. */
  lemma TrimAndPush(s: seq<Entry>, e: Entry, n: nat)
    requires n > 0
    ensures (if |Newest(s, n)| >= n then Newest(s, n)[1..] else Newest(s, n)) + [e] == Newest(s + [e], n)
  {
  }

  lemma NewestNothing(n: nat)
    ensures Newest([], n) == []
  {
  }

  lemma NewestOfNone(s: seq<Entry>)
    ensures Newest(s, 0) == []
  {
  }

  /** The slot whose file is found in slot `j` once the indices above `done`
      have been shifted. */
  function Origin(done: int, j: nat): nat {
    if j <= done || j == 0 then j else j - 1
  }

  /** The files after processing the indices above `done`: slot `done + 1` is
      free, everything above moved up by one, the oldest archive dropped. With
      `done == -1` the live file has moved as well. */
  ghost function Rotated(f: Files, done: int, top: nat): Files {
    map j: nat | j <= top && j != done + 1 && Origin(done, j) in f :: f[Origin(done, j)]
  }

  /** What a line of `additional` bytes leaves in place before it is appended. */
  ghost function Kept(f: Files, l: Limits, additional: nat): Files {
    if SaturatingAdd(Bytes(Slot(f, 0)), additional) <= l.maxBytes then f
    else Rotated(f, -1, l.maxArchives)
  }

  lemma KeptFits(f: Files, l: Limits, additional: nat)
    requires additional <= l.maxBytes
    ensures SaturatingAdd(Bytes(Slot(Kept(f, l, additional), 0)), additional) <= l.maxBytes
  {
    assert 0 !in Rotated(f, -1, l.maxArchives);
  }

  /** The live file takes a line of `additional` bytes: with 64-bit saturation every
      line, if the limit is the largest number. */
  ghost predicate HasRoom(f: Files, l: Limits, additional: nat) {
    Bytes(Slot(f, 0)) + additional <= l.maxBytes || l.maxBytes >= 0xFFFF_FFFF_FFFF_FFFF
  }

  /** Nothing is left in slot 0, and each archive holds what the slot below it held. */
  ghost predicate Shifted(before: Files, after: Files, top: nat) {
    Slot(after, 0) == [] && forall i: nat :: 1 <= i <= top ==> Slot(after, i) == Slot(before, i - 1)
  }

  /** What making room for a line of `additional` bytes does. */
  lemma KeptIs(f: Files, l: Limits, additional: nat)
    ensures if HasRoom(f, l, additional) then Kept(f, l, additional) == f
            else Shifted(f, Kept(f, l, additional), l.maxArchives)
  {
    if !HasRoom(f, l, additional) {
      forall i: nat | i <= l.maxArchives
        ensures Slot(Kept(f, l, additional), i) == if i == 0 then [] else Slot(f, i - 1)
      {
        RotatedAt(f, -1, l.maxArchives, i);
      }
    }
  }

  lemma {:induction false} ShiftedReads(f: Files, g: Files, k: nat, top: nat)
    requires Shifted(f, g, top) && 1 <= k <= top
    ensures ReadBack(g, k) == ReadBack(f, k - 1)
  {
    if k > 1 {
      ShiftedReads(f, g, k - 1, top);
    } else {
      assert ReadBack(g, 0) == [];
    }
  }

  /** What a successful log does to the files: with room for the line it is appended
      to the live file and nothing else changes; without, every file moves up by one,
      the oldest is lost, and the line is alone in the live file. */
  ghost predicate Logged(l: Limits, before: Files, after: Files, e: Entry) {
    var n := l.maxArchives;
    if HasRoom(before, l, |e.json| + 1) then
      after == before[0 := Slot(before, 0) + [e]] && ReadBack(after, n) == ReadBack(before, n) + [e]
    else
      Slot(after, 0) == [e] && (forall i: nat :: 1 <= i <= n ==> Slot(after, i) == Slot(before, i - 1)) &&
      exists rest :: ReadBack(before, n) == Slot(before, n) + rest && ReadBack(after, n) == rest + [e]
  }

  lemma AppendedReads(f: Files, g: Files, e: Entry, n: nat)
    requires g == f[0 := Slot(f, 0) + [e]]
    ensures ReadBack(g, n) == ReadBack(f, n) + [e]
  {
    var live := f[0 := Slot(f, 0)];
    ReadBackLocal(f, live, n);
    AppendReads(live, e, n);
    assert live[0 := live[0] + [e]] == g;
  }

  lemma ReadsOldest(f: Files, n: nat)
    requires n > 0
    ensures ReadBack(f, n) == Slot(f, n) + ReadBack(f, n - 1)
  {
  }

  lemma KeptIsLogged(l: Limits, before: Files, kept: Files, after: Files, e: Entry)
    requires l.maxArchives > 0 && kept == Kept(before, l, |e.json| + 1) && after == kept[0 := Slot(kept, 0) + [e]]
    ensures Logged(l, before, after, e)
  {
    hide ReadBack, Kept, HasRoom;
    var n := l.maxArchives;
    AppendedReads(kept, after, e, n);
    KeptIs(before, l, |e.json| + 1);
    if !HasRoom(before, l, |e.json| + 1) {
      ShiftedReads(before, kept, n, n);
      ReadsOldest(before, n);
      forall i: nat | 1 <= i <= n ensures Slot(after, i) == Slot(before, i - 1) {
        assert Slot(after, i) == Slot(kept, i);
      }
    }
  }

  lemma RotatedAt(f: Files, done: int, top: nat, j: nat)
    ensures j in Rotated(f, done, top) <==> j <= top && j != done + 1 && Origin(done, j) in f
    ensures j in Rotated(f, done, top) ==> Rotated(f, done, top)[j] == f[Origin(done, j)]
  {
  }

  lemma RotatedStart(l: Limits, f: Files, top: nat)
    requires SlotsInRange(l, f) && top == l.maxArchives
    ensures Rotated(f, top, top) == f
    ensures Rotated(f, top - 1, top) == f - {top}
  {
    hide Rotated;
    var g, h := Rotated(f, top, top), Rotated(f, top - 1, top);
    forall j: nat
      ensures (j in g <==> j in f) && (j in f ==> g[j] == f[j])
      ensures (j in h <==> j in f && j != top) && (j in h ==> h[j] == f[j])
    {
      RotatedAt(f, top, top, j);
      RotatedAt(f, top - 1, top, j);
    }
  }

  lemma RotatedStep(f: Files, i: nat, top: nat)
    requires i < top
    ensures i in Rotated(f, i, top) <==> i in f
    ensures i + 1 !in Rotated(f, i, top)
    ensures i in f ==> (Rotated(f, i, top) - {i})[i + 1 := Rotated(f, i, top)[i]] == Rotated(f, i - 1, top)
    ensures i !in f ==> Rotated(f, i, top) == Rotated(f, i - 1, top)
  {
    hide Rotated;
    var g, h := Rotated(f, i, top), Rotated(f, i - 1, top);
    forall j: nat
      ensures j != i && j != i + 1 ==> (j in g <==> j in h) && (j in g ==> g[j] == h[j])
      ensures j == i ==> (j in g <==> i in f) && (i in f ==> g[i] == f[i]) && j !in h
      ensures j == i + 1 ==> j !in g && (j in h <==> i in f) && (i in f ==> h[j] == f[i])
    {
      RotatedAt(f, i, top, j);
      RotatedAt(f, i - 1, top, j);
    }
  }

  /** One journal line as found on disk when the logger starts. */
  datatype Line = Blank | Event(entry: Entry) | Malformed

  function Events(lines: seq<Line>): seq<Entry> {
    if lines == [] then []
    else
      var rest := Events(lines[..|lines| - 1]);
      var last := lines[|lines| - 1];
      if last.Event? then rest + [last.entry] else rest
  }

  lemma EventsNone(lines: seq<Line>)
    ensures Events(lines[..0]) == []
  {
  }

  lemma EventsStep(lines: seq<Line>, i: nat)
    requires i < |lines|
    ensures Events(lines[..i + 1]) == Events(lines[..i]) + if lines[i].Event? then [lines[i].entry] else []
  {
    assert lines[..i + 1][..i] == lines[..i];
  }

  /** Rebuilds the display buffer from the live file; a malformed line is
      reported with its number instead of being skipped. */
  method LoadRecentEntries(lines: seq<Line>, maxMemory: nat) returns (r: Result<seq<Entry>>)
    ensures r.Ok? <==> forall i :: 0 <= i < |lines| ==> !lines[i].Malformed?
    ensures r.Ok? ==> r.value == Newest(Events(lines), maxMemory)
    ensures r.Err? ==> r.error.InvalidEntry? && 1 <= r.error.line <= |lines|
                       && lines[r.error.line - 1].Malformed?
                       && forall i :: 0 <= i < r.error.line - 1 ==> !lines[i].Malformed?
  {
    hide Events, Newest, IsSuffix;
    var entries: seq<Entry> := [];
    NewestNothing(maxMemory);
    assert Events(lines[..0]) == [] by { EventsNone(lines); }
    for index := 0 to |lines|
      invariant forall i :: 0 <= i < index ==> !lines[i].Malformed?
      invariant entries == Newest(Events(lines[..index]), maxMemory)
    {
      EventsStep(lines, index);
      match lines[index]
      case Blank =>
        assert Events(lines[..index]) + [] == Events(lines[..index]);
      case Malformed => return Err(InvalidEntry(index + 1));
      case Event(entry) =>
        if maxMemory > 0 {
          TrimAndPush(Events(lines[..index]), entry, maxMemory);
        } else {
          NewestOfNone(Events(lines[..index]));
          NewestOfNone(Events(lines[..index + 1]));
        }
        if maxMemory > 0 && |entries| >= maxMemory {
          entries := entries[1..];
        }
        if maxMemory > 0 {
          entries := entries + [entry];
        }
    }
    assert lines[..|lines|] == lines;
    return Ok(entries);
  }

  class AuditLogger {
    var files: Files
    var buffer: seq<Entry>
    var clock: nat
    const maxMemory: nat
    const limits: Limits
    const schedule: Schedule
    ghost var history: seq<Entry>
    ghost var trace: seq<Store>

    ghost predicate Valid()
      reads this
    {
      limits.maxArchives > 0 && limits.maxBytes > 0 &&
      IsRun(limits, trace) && trace[|trace| - 1] == Store(files, history) &&
      InOrder(limits, Store(files, history)) && SlotsInRange(limits, files) &&
      (maxMemory > 0 ==> |buffer| <= maxMemory)
    }

    /** Opens the journal on whatever an earlier process, crashed or not, left. */
    constructor (found: Files, ghost appended: seq<Entry>, limits: Limits, maxMemory: nat,
                 loaded: seq<Entry>, schedule: Schedule)
      requires limits.maxArchives > 0 && limits.maxBytes > 0
      requires InOrder(limits, Store(found, appended))
      requires maxMemory > 0 ==> |loaded| <= maxMemory
      ensures Valid() && files == found && history == appended && buffer == loaded
      ensures this.limits == limits && this.maxMemory == maxMemory
      ensures trace == [Store(found, appended)]
    {
      files, buffer, clock := found, loaded, 0;
      this.maxMemory, this.limits, this.schedule := maxMemory, limits, schedule;
      history, trace := appended, [Store(found, appended)];
    }

    method Tick() returns (o: Outcome)
      modifies this`clock
      ensures clock == old(clock) + 1 && o == schedule(old(clock))
    {
      o := schedule(clock);
      clock := clock + 1;
    }

    /** `durable_rename(slot i, slot i + 1)`, which refuses an existing target. */
    method DurableRename(i: nat) returns (ok: bool)
      requires Valid() && i in files && i + 1 <= limits.maxArchives
      modifies this`files, this`trace, this`clock
      ensures Valid() && old(trace) <= trace && clock > old(clock)
      ensures files == old(files) ||
              (i + 1 !in old(files) && files == (old(files) - {i})[i + 1 := old(files[i])])
      ensures ok ==> files != old(files)
      ensures schedule(old(clock)) == Succeeds ==> (ok <==> i + 1 !in old(files))
      ensures ok ==> QuietBetween(schedule, old(clock), clock)
    {
      hide IsRun, InOrder, SlotsInRange;
      var outcome := Tick();
      if i + 1 in files || outcome == FailsBefore {
        return false;
      }
      files := (files - {i})[i + 1 := files[i]];
      assert i !in files;
      Commit(limits, trace, Shift(i), Store(files, history));
      trace := trace + [Store(files, history)];
      return outcome == Succeeds;
    }

    method RemoveOldest() returns (ok: bool)
      requires Valid() && limits.maxArchives in files
      modifies this`files, this`trace, this`clock
      ensures Valid() && old(trace) <= trace && clock > old(clock)
      ensures files == old(files) || files == old(files) - {limits.maxArchives}
      ensures ok ==> files == old(files) - {limits.maxArchives}
      ensures schedule(old(clock)) == Succeeds ==> ok
      ensures ok ==> QuietBetween(schedule, old(clock), clock)
    {
      hide IsRun, InOrder, SlotsInRange;
      var outcome := Tick();
      if outcome == FailsBefore {
        return false;
      }
      files := files - {limits.maxArchives};
      Commit(limits, trace, DropOldest, Store(files, history));
      trace := trace + [Store(files, history)];
      return outcome == Succeeds;
    }

    /** One iteration of the shift loop. The rename cannot collide: the slot
        above was emptied by the previous iteration. */
    method ShiftSlot(index: nat, ghost before: Files) returns (ok: bool)
      requires Valid() && index <= limits.maxArchives
      requires files == Rotated(before, index, limits.maxArchives)
      requires SlotsInRange(limits, before)
      modifies this`files, this`trace, this`clock
      ensures Valid() && old(trace) <= trace && clock >= old(clock)
      ensures ok ==> files == Rotated(before, index - 1, limits.maxArchives)
      ensures Quiet(schedule, old(clock)) ==> ok
      ensures ok ==> QuietBetween(schedule, old(clock), clock)
    {
      hide IsRun, InOrder, SlotsInRange, Rotated;
      if index < limits.maxArchives {
        RotatedStep(before, index, limits.maxArchives);
      } else {
        RotatedStart(limits, before, index);
      }
      if index !in files {
        return true;
      }
      if index == limits.maxArchives {
        ok := RemoveOldest();
      } else {
        ok := DurableRename(index);
      }
    }

    /** Shifts every archive up by one when the next line would not fit. */
    method RotateIfNeeded(additional: nat) returns (ok: bool)
      requires Valid()
      modifies this`files, this`trace, this`clock
      ensures Valid() && old(trace) <= trace && clock >= old(clock)
      ensures ok ==> files == Kept(old(files), limits, additional)
      ensures ok && HasRoom(old(files), limits, additional) ==> files == old(files)
      ensures ok && !HasRoom(old(files), limits, additional) ==> Shifted(old(files), files, limits.maxArchives)
      ensures Quiet(schedule, old(clock)) ==> ok
      ensures ok ==> QuietBetween(schedule, old(clock), clock)
    {
      hide IsRun, InOrder, SlotsInRange, Bytes, Rotated, SaturatingAdd, HasRoom, Shifted;
      KeptIs(files, limits, additional);
      if SaturatingAdd(Bytes(Slot(files, 0)), additional) <= limits.maxBytes {
        return true;
      }
      ghost var before := files;
      RotatedStart(limits, before, limits.maxArchives);
      var index := limits.maxArchives;
      while index > 0
        invariant 0 <= index <= limits.maxArchives
        invariant Valid() && old(trace) <= trace && clock >= old(clock)
        invariant files == Rotated(before, index, limits.maxArchives) && QuietBetween(schedule, old(clock), clock)
      {
        var shifted := ShiftSlot(index, before);
        if !shifted { return false; }
        index := index - 1;
      }
      ok := ShiftSlot(0, before);
    }

    /** Writes one durable event, then the display buffer. */
    method Log(entry: Entry) returns (r: Result<()>)
      requires Valid()
      modifies this
      ensures Valid() && old(trace) <= trace
      ensures |entry.json| + 1 > limits.maxBytes ==>
                r == Err(EntryTooLarge(|entry.json| + 1, limits.maxBytes)) && files == old(files)
      ensures r.Ok? ==> Logged(limits, old(files), files, entry)
      ensures r.Ok? ==> history == old(history) + [entry] &&
                        buffer == if maxMemory == 0 then old(buffer) else Newest(old(buffer) + [entry], maxMemory)
      ensures r.Ok? && limits.maxBytes < U64_MAX ==> Bytes(files[0]) <= limits.maxBytes
      ensures r.Err? ==> buffer == old(buffer) && (history == old(history) || history == old(history) + [entry])
      ensures Quiet(schedule, old(clock)) ==> (r.Ok? <==> |entry.json| + 1 <= limits.maxBytes)
      ensures r.Ok? ==> QuietBetween(schedule, old(clock), clock)
      ensures |entry.json| + 1 <= limits.maxBytes && schedule(old(clock)) != Succeeds ==>
                r == Err(Storage) && files == old(files)
      ensures |entry.json| + 1 <= limits.maxBytes && schedule(old(clock)) == Succeeds && schedule(old(clock) + 1) != Succeeds ==>
                r == Err(BufferPoisoned) && files == old(files)
      ensures r == Err(BufferPoisoned) ==> schedule(old(clock) + 1) != Succeeds
    {
      hide IsRun, InOrder, SlotsInRange, Bytes, Logged, Newest;
      var bytes := LineBytes(entry);
      if bytes > limits.maxBytes {
        return Err(EntryTooLarge(bytes, limits.maxBytes));
      }
      var lock := Tick();
      if lock != Succeeds {
        return Err(Storage);
      }
      // The fallible in-process guard is taken before the durable append.
      var guard := Tick();
      if guard != Succeeds {
        return Err(BufferPoisoned);
      }
      r := Write(entry);
    }

    /** The part of `log` under its two guards. */
    method Write(entry: Entry) returns (r: Result<()>)
      requires Valid() && LineBytes(entry) <= limits.maxBytes
      modifies this
      ensures Valid() && old(trace) <= trace && clock >= old(clock)
      ensures r.Ok? ==> Logged(limits, old(files), files, entry)
      ensures r.Ok? ==> history == old(history) + [entry] &&
                        buffer == if maxMemory == 0 then old(buffer) else Newest(old(buffer) + [entry], maxMemory)
      ensures r.Ok? && limits.maxBytes < U64_MAX ==> Bytes(files[0]) <= limits.maxBytes
      ensures r.Err? ==> r == Err(Storage) && buffer == old(buffer)
      ensures r.Err? ==> history == old(history) || history == old(history) + [entry]
      ensures Quiet(schedule, old(clock)) ==> r.Ok?
      ensures r.Ok? ==> QuietBetween(schedule, old(clock), clock)
    {
      hide IsRun, InOrder, SlotsInRange, Kept, SaturatingAdd, Bytes, Logged, HasRoom, Shifted, LineBytes;
      var bytes := LineBytes(entry);
      var rotated := RotateIfNeeded(bytes);
      if !rotated {
        return Err(Storage);
      }
      KeptFits(old(files), limits, bytes);
      var usable := OpenLogForAppend();
      if !usable {
        return Err(Storage);
      }
      FitsAfterAppend(files[0], entry, limits.maxBytes);
      var appended := AppendLine(entry);
      if !appended {
        return Err(Storage);
      }
      KeptIsLogged(limits, old(files), Kept(old(files), limits, bytes), files, entry) by {
        LineBytesIs(entry);
      }
      if maxMemory > 0 && |buffer| >= maxMemory {
        buffer := buffer[1..];
      }
      if maxMemory > 0 {
        buffer := buffer + [entry];
      }
      return Ok(());
    }

    method AppendLine(entry: Entry) returns (ok: bool)
      requires Valid() && 0 in files
      requires SaturatingAdd(Bytes(files[0]), LineBytes(entry)) <= limits.maxBytes
      modifies this`files, this`history, this`trace, this`clock
      ensures Valid() && old(trace) <= trace && clock > old(clock)
      ensures history == old(history) || history == old(history) + [entry]
      ensures ok ==> history == old(history) + [entry] && files == old(files)[0 := old(files)[0] + [entry]]
      ensures schedule(old(clock)) == Succeeds ==> ok
      ensures ok ==> QuietBetween(schedule, old(clock), clock)
    {
      hide IsRun, InOrder, SlotsInRange, Bytes, SaturatingAdd;
      var outcome := Tick();
      if outcome == FailsBefore {
        return false;
      }
      files := files[0 := files[0] + [entry]];
      history := history + [entry];
      Commit(limits, trace, Append(entry), Store(files, history));
      trace := trace + [Store(files, history)];
      return outcome == Succeeds;
    }

    method OpenLogForAppend() returns (ok: bool)
      requires Valid()
      modifies this`files, this`trace, this`clock
      ensures Valid() && old(trace) <= trace && clock > old(clock)
      ensures files == old(files) || (0 !in old(files) && files == old(files)[0 := []])
      ensures ok ==> 0 in files
      ensures schedule(old(clock)) == Succeeds ==> ok
      ensures ok ==> QuietBetween(schedule, old(clock), clock)
    {
      hide IsRun, InOrder, SlotsInRange;
      var outcome := Tick();
      if outcome == FailsBefore {
        return false;
      }
      if 0 !in files {
        files := files[0 := []];
        Commit(limits, trace, CreateLive, Store(files, history));
        trace := trace + [Store(files, history)];
      }
      return outcome == Succeeds;
    }
  }
}
