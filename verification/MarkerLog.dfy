// The append-only marker files of the bootstrap directory:
// crates/audit-journal/src/legacy.rs, `state_file_name` and
// `load_pending_from_bootstrap`.

module MarkerLog {
  import opened Faults
  import opened Protocol

  /** `MigrationStateRecord`. */
  datatype Record = Record(
    schema: nat,
    id: string,
    phase: Phase,
    source: Identity,
    next: Identity,
    legacyName: string,
    nextName: string)

  /** A file that does not parse is `Torn`. */
  datatype Content = Torn | Complete(record: Record)

  type Files = map<string, Content>

  const PREFIX: string := "migration-"
  const SUFFIX: string := ".json"

  function Tag(p: Phase): string {
    match p
    case Prepared => "-0-prepared"
    case Detached => "-1-detached"
    case RootReady => "-2-root-ready"
    case AuditPending => "-3-audit-pending"
    case Done => "-4-done"
  }

  function FileName(id: string, p: Phase): string {
    PREFIX + id + Tag(p) + SUFFIX
  }

  /** The names, spelled out. */
  lemma FileNameSpelled(id: string)
    ensures FileName(id, Prepared) == "migration-" + id + "-0-prepared.json"
    ensures FileName(id, Detached) == "migration-" + id + "-1-detached.json"
    ensures FileName(id, RootReady) == "migration-" + id + "-2-root-ready.json"
    ensures FileName(id, AuditPending) == "migration-" + id + "-3-audit-pending.json"
    ensures FileName(id, Done) == "migration-" + id + "-4-done.json"
  {
    hide FileName;
    Spelled(id, Prepared, "-0-prepared.json");
    Spelled(id, Detached, "-1-detached.json");
    Spelled(id, RootReady, "-2-root-ready.json");
    Spelled(id, AuditPending, "-3-audit-pending.json");
    Spelled(id, Done, "-4-done.json");
  }

  lemma Spelled(id: string, p: Phase, ending: string)
    requires Tag(p) + ".json" == ending
    ensures FileName(id, p) == "migration-" + id + ending
  {
    hide Tag;
    assert FileName(id, p) == "migration-" + id + (Tag(p) + ".json");
  }

  predicate IsStateName(name: string) {
    |name| >= |PREFIX| && name[..|PREFIX|] == PREFIX &&
    |name| >= |SUFFIX| && name[|name| - |SUFFIX|..] == SUFFIX
  }

  /** The record `write_state` serializes for one migration and phase. */
  function RecordOf(id: string, e: Entry): Record {
    Record(1, id, e.phase, e.source, e.next, "WinProfile.Legacy.Untrusted." + id, "WinProfile.Next." + id)
  }

  /** The directory names behind the names of the protocol. */
  function NameText(n: Name): string {
    match n
    case Product => "WinProfile"
    case Legacy(id) => "WinProfile.Legacy.Untrusted." + id
    case Next(id) => "WinProfile.Next." + id
  }

  /** No two of them collide, whatever the ids contain. */
  lemma NameTextInjective(a: Name, b: Name)
    requires NameText(a) == NameText(b)
    ensures a == b
  {
    var s, t := NameText(a), NameText(b);
    assert a != Product ==> |s| > 11 && s[11] == if a.Legacy? then 'L' else 'N';
    assert b != Product ==> |t| > 11 && t[11] == if b.Legacy? then 'L' else 'N';
    assert a.Legacy? ==> a.id == s[28..];
    assert b.Legacy? ==> b.id == t[28..];
    assert a.Next? ==> a.id == s[16..];
    assert b.Next? ==> b.id == t[16..];
  }

  /** Equal up to the phase. */
  predicate SameMigration(a: Record, b: Record) {
    a.source == b.source && a.next == b.next && a.legacyName == b.legacyName && a.nextName == b.nextName
  }

  /** The third unit from the end already tells the phases apart. */
  function KeyLetter(p: Phase): char {
    match p
    case Prepared => 'r'
    case Detached => 'h'
    case RootReady => 'a'
    case AuditPending => 'i'
    case Done => 'o'
  }

  lemma TagEnding(p: Phase)
    ensures |Tag(p)| >= 3 && Tag(p)[|Tag(p)| - 3] == KeyLetter(p)
  {
  }

  /** File names are injective in migration and phase, whatever the id contains. */
  lemma FileNameInjective(id: string, p: Phase, id': string, p': Phase)
    requires FileName(id, p) == FileName(id', p')
    ensures id == id' && p == p'
  {
    hide Tag;
    TagEnding(p);
    TagEnding(p');
    var n := FileName(id, p);
    assert n[|n| - |SUFFIX| - 3] == Tag(p)[|Tag(p)| - 3];
    assert n[|n| - |SUFFIX| - 3] == Tag(p')[|Tag(p')| - 3];
    assert p == p';
    assert id == n[|PREFIX|..|n| - |SUFFIX| - |Tag(p)|];
    assert id' == n[|PREFIX|..|n| - |SUFFIX| - |Tag(p)|];
  }

  lemma FileNameIsStateName(id: string, p: Phase)
    ensures IsStateName(FileName(id, p))
  {
  }

  // ---- What a marker store says ----

  predicate Has(files: Files, id: string, p: Phase) {
    FileName(id, p) in files
  }

  predicate BadFile(name: string, c: Content) {
    IsStateName(name) &&
    (c.Torn? || c.record.schema != 1 || FileName(c.record.id, c.record.phase) != name)
  }

  function Previous(p: Phase): Phase {
    match p
    case Prepared => Prepared
    case Detached => Prepared
    case RootReady => Detached
    case AuditPending => RootReady
    case Done => AuditPending
  }

  /** `MigrationPhase::next`. */
  function NextPhase(p: Phase): Option<Phase> {
    match p
    case Prepared => Some(Detached)
    case Detached => Some(RootReady)
    case RootReady => Some(AuditPending)
    case AuditPending => Some(Done)
    case Done => None
  }

  type Group = map<Phase, Record>

  /** The markers of one migration are a gap-free prefix of the phase order and
      agree on everything but the phase. */
  ghost predicate GroupOk(g: Group) {
    forall p :: p in g && p != Prepared ==> Previous(p) in g && SameMigration(g[Previous(p)], g[p])
  }

  ghost predicate Keyed(g: Group) {
    forall p :: p in g ==> g[p].phase == p
  }

  /** The markers of one migration; meant for stores without a bad file. */
  ghost function GroupOf(files: Files, id: string): Group {
    map p: Phase | Has(files, id, p) && files[FileName(id, p)].Complete? :: files[FileName(id, p)].record
  }

  ghost predicate WellFormed(files: Files) {
    (forall n :: n in files ==> !BadFile(n, files[n])) &&
    (forall id :: GroupOk(GroupOf(files, id)))
  }

  lemma {:induction false} AgreesWithFirst(g: Group, p: Phase)
    requires GroupOk(g) && p in g
    ensures Prepared in g
    ensures g[p].source == g[Prepared].source && g[p].next == g[Prepared].next &&
            g[p].legacyName == g[Prepared].legacyName && g[p].nextName == g[Prepared].nextName
    decreases Rank(p)
  {
    if p != Prepared {
      AgreesWithFirst(g, Previous(p));
    }
  }

  lemma {:induction false} HasLower(g: Group, p: Phase, q: Phase)
    requires GroupOk(g) && p in g && Rank(q) <= Rank(p)
    ensures q in g
    decreases Rank(p)
  {
    if p != q {
      HasLower(g, Previous(p), q);
    }
  }

  lemma FilesAreGrouped(files: Files, id: string, p: Phase)
    requires forall n :: n in files ==> !BadFile(n, files[n])
    ensures Has(files, id, p) <==> p in GroupOf(files, id)
    ensures Has(files, id, p) ==>
              files[FileName(id, p)] == Complete(GroupOf(files, id)[p]) && GroupOf(files, id)[p].schema == 1
  {
    FileNameIsStateName(id, p);
    hide FileName, IsStateName;
  }

  /** A store in which a marker of a migration is torn or missing below another one,
      or in which two of them disagree, is refused. */
  lemma WellFormedMeans(files: Files, id: string, p: Phase, q: Phase)
    requires WellFormed(files) && FileName(id, p) in files && Rank(q) <= Rank(p)
    ensures FileName(id, q) in files && files[FileName(id, p)].Complete? && files[FileName(id, q)].Complete?
    ensures var a, b := files[FileName(id, p)].record, files[FileName(id, q)].record;
            a.schema == 1 && a.source == b.source && a.next == b.next && a.legacyName == b.legacyName && a.nextName == b.nextName
  {
    hide FileName, IsStateName, BadFile;
    var g := GroupOf(files, id);
    FilesAreGrouped(files, id, p);
    FilesAreGrouped(files, id, q);
    HasLower(g, p, q);
    AgreesWithFirst(g, p);
    AgreesWithFirst(g, q);
  }

  ghost predicate Open(files: Files, id: string) {
    Has(files, id, Prepared) && !Has(files, id, Done)
  }

  ghost predicate IsLatest(files: Files, r: Record) {
    Has(files, r.id, r.phase) && files[FileName(r.id, r.phase)] == Complete(r) &&
    forall p :: Has(files, r.id, p) ==> Rank(p) <= Rank(r.phase)
  }

  // ---- Loading ----

  datatype LoadError = InvalidState | AmbiguousState

  datatype Loaded = Pending(record: Option<Record>) | Refused(error: LoadError)

  function Pick(g: Group, p: Phase): seq<Record> {
    if p in g then [g[p]] else []
  }

  function PhaseOf(n: nat): (p: Phase)
    requires n < 5
    ensures Rank(p) == n
  {
    match n
    case 0 => Prepared
    case 1 => Detached
    case 2 => RootReady
    case 3 => AuditPending
    case _ => Done
  }

  /** `records.sort_by_key(|record| record.phase)`, for the phases ranked below `n`. */
  function Sorted(g: Group, n: nat): seq<Record>
    requires n <= 5
  {
    if n == 0 then [] else Sorted(g, n - 1) + Pick(g, PhaseOf(n - 1))
  }

  ghost predicate Ascending(records: seq<Record>) {
    forall i, j :: 0 <= i < j < |records| ==> Rank(records[i].phase) < Rank(records[j].phase)
  }

  ghost predicate Lists(records: seq<Record>, g: Group, n: nat) {
    (forall i :: 0 <= i < |records| ==>
      records[i].phase in g && g[records[i].phase] == records[i] && Rank(records[i].phase) < n) &&
    (forall p :: p in g && Rank(p) < n ==> g[p] in records)
  }

  lemma {:induction false} SortedFacts(g: Group, n: nat)
    requires Keyed(g) && n <= 5
    ensures Ascending(Sorted(g, n)) && Lists(Sorted(g, n), g, n)
  {
    if n > 0 {
      SortedFacts(g, n - 1);
      SortedStep(g, Sorted(g, n - 1), n - 1);
    }
  }

  lemma SortedStep(g: Group, records: seq<Record>, n: nat)
    requires Keyed(g) && n < 5 && Ascending(records) && Lists(records, g, n)
    ensures Ascending(records + Pick(g, PhaseOf(n))) && Lists(records + Pick(g, PhaseOf(n)), g, n + 1)
  {
    hide PhaseOf;
    var p := PhaseOf(n);
    var more := records + Pick(g, p);
    forall q | q in g && Rank(q) < n + 1 ensures g[q] in more {
      if Rank(q) < n {
        assert g[q] in records;
      } else {
        assert q == p && more[|records|] == g[p];
      }
    }
  }

  /** Validates one migration's markers and returns the latest. */
  method CheckGroup(g: Group) returns (latest: Option<Record>)
    requires g != map[] && Keyed(g)
    ensures latest.Some? <==> GroupOk(g)
    ensures latest.Some? ==> Prepared in g && latest.value.phase in g && g[latest.value.phase] == latest.value
                             && forall p :: p in g ==> Rank(p) <= Rank(latest.value.phase)
  {
    hide Sorted, Ascending, Lists, GroupOk, Keyed;
    var records := Sorted(g, 5);
    SortedFacts(g, 5);
    assert records != [] by { SomeRecord(g, records); }
    if records[0].phase != Prepared {
      FirstIsPrepared(g, records);
      return None;
    }
    for k := 0 to |records| - 1
      invariant forall i :: 0 <= i <= k ==> Rank(records[i].phase) == i
      invariant forall i :: 0 <= i < k ==> SameMigration(records[i], records[i + 1])
    {
      if NextPhase(records[k].phase) != Some(records[k + 1].phase) || !SameMigration(records[k], records[k + 1]) {
        PairFails(g, records, k);
        return None;
      }
    }
    ChainOk(g, records);
    return Some(records[|records| - 1]);
  }

  lemma SomeRecord(g: Group, records: seq<Record>)
    requires g != map[] && Lists(records, g, 5)
    ensures records != []
  {
    var p :| p in g;
    assert g[p] in records;
  }

  lemma ChainOk(g: Group, records: seq<Record>)
    requires Keyed(g) && records != [] && Lists(records, g, 5)
    requires forall i :: 0 <= i < |records| ==> Rank(records[i].phase) == i
    requires forall i :: 0 <= i < |records| - 1 ==> SameMigration(records[i], records[i + 1])
    ensures GroupOk(g) && Prepared in g
    ensures var last := records[|records| - 1];
            last.phase in g && g[last.phase] == last && forall p :: p in g ==> Rank(p) <= Rank(last.phase)
  {
    assert records[0].phase == Prepared;
    forall p | p in g ensures Rank(p) < |records| && g[p] == records[Rank(p)] {
      var i :| 0 <= i < |records| && records[i] == g[p];
    }
    forall p | p in g && p != Prepared
      ensures Previous(p) in g && SameMigration(g[Previous(p)], g[p])
    {
      assert records[Rank(p) - 1].phase == Previous(p);
    }
  }

  lemma FirstIsPrepared(g: Group, records: seq<Record>)
    requires Keyed(g) && records != [] && Ascending(records) && Lists(records, g, 5)
    requires records[0].phase != Prepared
    ensures !GroupOk(g)
  {
    var p := records[0].phase;
    forall q | q in g ensures Rank(p) <= Rank(q) {
      assert g[q] in records;
    }
    assert p in g && Rank(Previous(p)) < Rank(p);
  }

  lemma PairFails(g: Group, records: seq<Record>, k: nat)
    requires Keyed(g) && k + 1 < |records| && Ascending(records) && Lists(records, g, 5)
    requires NextPhase(records[k].phase) != Some(records[k + 1].phase) || !SameMigration(records[k], records[k + 1])
    ensures !GroupOk(g)
  {
    var p := records[k + 1].phase;
    if Previous(p) in g && p != Prepared {
      var i :| 0 <= i < |records| && records[i] == g[Previous(p)];
      assert Rank(records[i].phase) == Rank(p) - 1;
      assert i == k;
    }
  }

  /** Reads every marker of the bootstrap directory, whose entries are `names`,
      groups them by migration and returns the latest record of the only
      unfinished one. */
  method LoadPending(names: seq<string>, files: Files) returns (r: Loaded)
    requires forall n :: n in names <==> n in files
    ensures r == Refused(InvalidState) <==> !WellFormed(files)
    ensures r == Refused(AmbiguousState) <==>
              WellFormed(files) && exists i, j :: i != j && Open(files, i) && Open(files, j)
    ensures r == Pending(None) <==> WellFormed(files) && forall id :: !Open(files, id)
    ensures r.Pending? && r.record.Some? ==> Open(files, r.record.value.id) && IsLatest(files, r.record.value)
  {
    hide FileName, IsStateName;
    var grouped: map<string, Group> := map[];
    for i := 0 to |names|
      invariant forall n :: n in names[..i] ==> !BadFile(n, files[n])
      invariant Grouped(grouped, files, names[..i])
    {
      var name := names[i];
      assert names[..i + 1] == names[..i] + [name];
      if IsStateName(name) {
        if BadFile(name, files[name]) {
          return Refused(InvalidState);
        }
        var record := files[name].record;
        GroupedAdd(grouped, files, names[..i], name);
        var group := if record.id in grouped then grouped[record.id] else map[];
        grouped := grouped[record.id := group[record.phase := record]];
      } else {
        GroupedSkip(grouped, files, names[..i], name);
      }
    }
    assert names[..|names|] == names;
    r := SelectPending(grouped, files, names);
  }

  ghost predicate Grouped(grouped: map<string, Group>, files: Files, names: seq<string>) {
    (forall id :: id in grouped ==> grouped[id] != map[]) &&
    (forall id, p :: FileName(id, p) in names <==> id in grouped && p in grouped[id]) &&
    (forall id, p :: id in grouped && p in grouped[id] ==>
      FileName(id, p) in files && files[FileName(id, p)] == Complete(grouped[id][p]) &&
      grouped[id][p].id == id && grouped[id][p].phase == p)
  }

  lemma GroupedAdd(grouped: map<string, Group>, files: Files, names: seq<string>, name: string)
    requires Grouped(grouped, files, names) && name in files && IsStateName(name) && !BadFile(name, files[name])
    ensures var record := files[name].record;
            var before := if record.id in grouped then grouped[record.id] else map[];
            Grouped(grouped[record.id := before[record.phase := record]], files, names + [name])
  {
    hide FileName, IsStateName;
    var record := files[name].record;
    assert FileName(record.id, record.phase) == name;
    var before := if record.id in grouped then grouped[record.id] else map[];
    var after := grouped[record.id := before[record.phase := record]];
    forall id, p
      ensures FileName(id, p) in names + [name] <==> id in after && p in after[id]
    {
      if FileName(id, p) == name {
        FileNameInjective(id, p, record.id, record.phase);
      }
    }
    assert record.phase in after[record.id];
  }

  lemma GroupedSkip(grouped: map<string, Group>, files: Files, names: seq<string>, name: string)
    requires Grouped(grouped, files, names) && !IsStateName(name)
    ensures Grouped(grouped, files, names + [name])
  {
    hide FileName, IsStateName;
    forall id, p ensures FileName(id, p) != name {
      FileNameIsStateName(id, p);
    }
  }

  lemma GroupedIsGroupOf(grouped: map<string, Group>, files: Files, names: seq<string>, id: string)
    requires Grouped(grouped, files, names) && forall n :: n in names <==> n in files
    ensures GroupOf(files, id) == if id in grouped then grouped[id] else map[]
    ensures id in grouped ==> Keyed(grouped[id])
  {
    hide FileName;
    var g := GroupOf(files, id);
    forall p: Phase
      ensures p in g <==> id in grouped && p in grouped[id]
      ensures p in g ==> g[p] == grouped[id][p]
    {
      assert Has(files, id, p) <==> FileName(id, p) in names;
    }
  }

  ghost predicate IsPending(files: Files, r: Record) {
    Open(files, r.id) && IsLatest(files, r)
  }

  ghost predicate Mentions(records: seq<Record>, id: string) {
    exists k :: 0 <= k < |records| && records[k].id == id
  }

  lemma MentionsMore(records: seq<Record>, r: Record)
    ensures Mentions(records + [r], r.id)
    ensures forall id :: Mentions(records, id) ==> Mentions(records + [r], id)
  {
    assert (records + [r])[|records|] == r;
    forall id | Mentions(records, id) ensures Mentions(records + [r], id) {
      var k :| 0 <= k < |records| && records[k].id == id;
      assert (records + [r])[k].id == id;
    }
  }

  /** The second half of loading: checks every group, keeps the unfinished ones. */
  method SelectPending(grouped: map<string, Group>, ghost files: Files, ghost names: seq<string>) returns (r: Loaded)
    requires Grouped(grouped, files, names) && forall n :: n in names <==> n in files
    requires forall n :: n in files ==> !BadFile(n, files[n])
    ensures r == Refused(InvalidState) <==> !WellFormed(files)
    ensures r == Refused(AmbiguousState) <==>
              WellFormed(files) && exists i, j :: i != j && Open(files, i) && Open(files, j)
    ensures r == Pending(None) <==> WellFormed(files) && forall id :: !Open(files, id)
    ensures r.Pending? && r.record.Some? ==> IsPending(files, r.record.value)
  {
    hide FileName, IsStateName, GroupOk, GroupOf, IsLatest, Open, Grouped;
    var todo := grouped.Keys;
    var pending: seq<Record> := [];
    while todo != {}
      invariant todo <= grouped.Keys
      invariant forall id :: id in grouped && id !in todo ==> GroupOk(GroupOf(files, id))
      invariant forall id :: id in grouped && id !in todo && Open(files, id) ==> Mentions(pending, id)
      invariant forall k :: 0 <= k < |pending| ==> pending[k].id in grouped && pending[k].id !in todo && IsPending(files, pending[k])
      invariant forall j, k :: 0 <= j < k < |pending| ==> pending[j].id != pending[k].id
    {
      var id :| id in todo;
      GroupedIsGroupOf(grouped, files, names, id);
      assert grouped[id] != map[] by { NonEmptyGroup(grouped, files, names, id); }
      var latest := CheckGroup(grouped[id]);
      if latest.None? {
        return Refused(InvalidState);
      }
      LatestOfGroup(grouped, files, names, id, latest.value);
      if latest.value.phase != Done {
        MentionsMore(pending, latest.value);
        pending := pending + [latest.value];
      }
      todo := todo - {id};
    }
    forall id
      ensures GroupOk(GroupOf(files, id))
      ensures Open(files, id) ==> id in grouped
    {
      UngroupedIsClosed(grouped, files, names, id);
    }
    if |pending| == 0 {
      return Pending(None);
    }
    assert IsPending(files, pending[0]);
    if |pending| == 1 {
      return Pending(Some(pending[0]));
    }
    assert IsPending(files, pending[1]) && pending[0].id != pending[1].id;
    return Refused(AmbiguousState);
  }

  lemma NonEmptyGroup(grouped: map<string, Group>, files: Files, names: seq<string>, id: string)
    requires Grouped(grouped, files, names) && id in grouped
    ensures grouped[id] != map[]
  {
  }

  lemma LatestOfGroup(grouped: map<string, Group>, files: Files, names: seq<string>, id: string, r: Record)
    requires Grouped(grouped, files, names) && forall n :: n in names <==> n in files
    requires id in grouped && Prepared in grouped[id]
    requires r.phase in grouped[id] && grouped[id][r.phase] == r
    requires forall p :: p in grouped[id] ==> Rank(p) <= Rank(r.phase)
    ensures r.id == id && IsLatest(files, r)
    ensures r.phase != Done <==> Open(files, id)
  {
    hide FileName;
    forall p ensures Has(files, id, p) <==> p in grouped[id] {
      assert FileName(id, p) in names <==> FileName(id, p) in files;
    }
  }

  lemma UngroupedIsClosed(grouped: map<string, Group>, files: Files, names: seq<string>, id: string)
    requires Grouped(grouped, files, names) && forall n :: n in names <==> n in files
    ensures id !in grouped ==> GroupOk(GroupOf(files, id)) && !Open(files, id)
  {
    hide FileName;
    if id !in grouped {
      GroupedIsGroupOf(grouped, files, names, id);
      assert FileName(id, Prepared) in names <==> FileName(id, Prepared) in files;
    }
  }

  // ---- The store the protocol writes ----

  /** The marker files are exactly those of the migrations in `log`, each from
      Prepared up to its latest phase. Temporary files may be anything. */
  ghost predicate Matches(files: Files, log: map<string, Entry>) {
    (forall id, p :: id in log && Rank(p) <= Rank(log[id].phase) ==>
      FileName(id, p) in files && files[FileName(id, p)] == Complete(RecordOf(id, log[id].(phase := p)))) &&
    (forall n :: n in files && IsStateName(n) ==> IsMarkerOf(log, n))
  }

  ghost predicate IsMarkerOf(log: map<string, Entry>, n: string) {
    exists id, p :: id in log && Rank(p) <= Rank(log[id].phase) && n == FileName(id, p)
  }

  lemma HasMatches(files: Files, log: map<string, Entry>, id: string, p: Phase)
    requires Matches(files, log)
    ensures Has(files, id, p) <==> id in log && Rank(p) <= Rank(log[id].phase)
  {
    hide FileName, IsStateName;
    if Has(files, id, p) {
      FileNameIsStateName(id, p);
      var id', p' :| id' in log && Rank(p') <= Rank(log[id'].phase) && FileName(id, p) == FileName(id', p');
      FileNameInjective(id, p, id', p');
    }
  }

  /** Loading a store the protocol wrote never fails. */
  lemma MatchesIsWellFormed(files: Files, log: map<string, Entry>)
    requires Matches(files, log)
    ensures WellFormed(files)
    ensures forall id :: Open(files, id) <==> id in log && log[id].phase != Done
  {
    hide FileName, IsStateName;
    forall n | n in files ensures !BadFile(n, files[n]) {
      if IsStateName(n) {
        var id, p :| id in log && Rank(p) <= Rank(log[id].phase) && n == FileName(id, p);
        assert files[n] == Complete(RecordOf(id, log[id].(phase := p)));
      }
    }
    forall id ensures GroupOk(GroupOf(files, id)) {
      forall p: Phase { HasMatches(files, log, id, p); }
    }
    forall id ensures Open(files, id) <==> id in log && log[id].phase != Done {
      HasMatches(files, log, id, Prepared);
      HasMatches(files, log, id, Done);
    }
  }

  /** The latest marker of a migration is its entry in the log. */
  lemma LatestMatches(files: Files, log: map<string, Entry>, r: Record)
    requires Matches(files, log) && IsLatest(files, r)
    ensures r.id in log && r == RecordOf(r.id, log[r.id])
  {
    hide FileName, IsStateName;
    HasMatches(files, log, r.id, r.phase);
    HasMatches(files, log, r.id, log[r.id].phase);
    assert r.phase == log[r.id].phase;
  }

  /** The directory enumeration. */
  method EntryNames(files: Files) returns (names: seq<string>)
    ensures forall n :: n in names <==> n in files
  {
    names := [];
    var todo := files.Keys;
    while todo != {}
      invariant todo <= files.Keys
      invariant forall n :: n in names <==> n in files && n !in todo
    {
      var n :| n in todo;
      names := names + [n];
      todo := todo - {n};
    }
  }

  /** What the loader answers for a store the protocol wrote: the latest record
      of the unfinished migration, or none. */
  ghost predicate Answers(log: map<string, Entry>, r: Loaded) {
    r.Pending? &&
    match r.record
    case None => forall id :: id in log ==> log[id].phase == Done
    case Some(rec) => rec.id in log && log[rec.id].phase != Done && rec == RecordOf(rec.id, log[rec.id])
  }

  method LoadLog(names: seq<string>, files: Files, ghost log: map<string, Entry>) returns (r: Loaded)
    requires forall n :: n in names <==> n in files
    requires Matches(files, log)
    requires forall i, j :: i in log && j in log && log[i].phase != Done && log[j].phase != Done ==> i == j
    ensures Answers(log, r)
    // Its names are the texts of the names the renames use.
    ensures r.Pending? && r.record.Some? ==>
              r.record.value.legacyName == NameText(Legacy(r.record.value.id)) &&
              r.record.value.nextName == NameText(Next(r.record.value.id))
  {
    hide Matches, WellFormed, IsLatest, Open;
    r := LoadPending(names, files);
    assert r.Refused? ==> r.error == InvalidState || r.error == AmbiguousState;
    MatchesIsWellFormed(files, log);
    if r.Pending? && r.record.Some? {
      LatestMatches(files, log, r.record.value);
    } else if r.Pending? {
      forall id | id in log ensures log[id].phase == Done { assert !Open(files, id); }
    }
    assert r != Refused(InvalidState) && r != Refused(AmbiguousState);
  }

  // ---- Writing one marker ----

  /** The next phase of a migration, or the first one of a new migration. */
  ghost predicate Advance(log: map<string, Entry>, id: string, e: Entry) {
    if id in log then Rank(e.phase) == Rank(log[id].phase) + 1 && e == log[id].(phase := e.phase)
    else e.phase == Prepared
  }

  lemma PublishMatches(files: Files, log: map<string, Entry>, id: string, e: Entry)
    requires Matches(files, log) && Advance(log, id, e)
    ensures !Has(files, id, e.phase)
    ensures Matches(files[FileName(id, e.phase) := Complete(RecordOf(id, e))], log[id := e])
  {
    hide FileName, IsStateName;
    HasMatches(files, log, id, e.phase);
    var f := FileName(id, e.phase);
    var files', log' := files[f := Complete(RecordOf(id, e))], log[id := e];
    forall id', p | id' in log' && Rank(p) <= Rank(log'[id'].phase)
      ensures FileName(id', p) in files' && files'[FileName(id', p)] == Complete(RecordOf(id', log'[id'].(phase := p)))
    {
      if FileName(id', p) == f {
        FileNameInjective(id', p, id, e.phase);
      }
    }
    forall n | n in files' && IsStateName(n) ensures IsMarkerOf(log', n) {
      if n != f {
        var id', p :| id' in log && Rank(p) <= Rank(log[id'].phase) && n == FileName(id', p);
        assert id' in log' && Rank(p) <= Rank(log'[id'].phase);
      }
    }
  }

  lemma TemporaryMatches(files: Files, log: map<string, Entry>, temp: string, c: Content)
    requires Matches(files, log) && !IsStateName(temp)
    ensures Matches(files[temp := c], log) && Matches(files - {temp}, log)
  {
    hide FileName, IsStateName;
    forall id, p ensures FileName(id, p) != temp {
      FileNameIsStateName(id, p);
    }
  }
}
