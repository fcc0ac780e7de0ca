// The chained directory records of crates/platform-win32/src/secure_fs.rs, read as
// bytes: FILE_ID_BOTH_DIR_INFO with NextEntryOffset at 0, FileAttributes at 56,
// FileNameLength at 60 and FileName at 104, each little endian.

module DirectoryBuffer {
  import opened Words

  type Name = seq<Unit>

  const RECORD_BYTES: nat := 112
  const HEADER_BYTES: nat := 104
  const NEXT_OFFSET: nat := 0
  const ATTRIBUTES: nat := 56
  const NAME_LENGTH: nat := 60

  const DOT: Name := [46]
  const DOT_DOT: Name := [46, 46]

  const ATTRIBUTE_DIRECTORY: nat := 0x10
  const ATTRIBUTE_REPARSE_POINT: nat := 0x400

  datatype Kind = File | Directory

  datatype Entry = Entry(name: Name, kind: Kind)

  datatype Error = InvalidPath | ReparsePoint

  datatype Result = Ok(entries: seq<Entry>) | Err(error: Error)

  /** Whether the bit of weight `bit` is set. */
  predicate Has(attributes: nat, bit: nat)
    requires bit > 0
  {
    attributes / bit % 2 == 1
  }

  function ReadU16(b: seq<Byte>, at: nat): Unit
    requires at + 2 <= |b|
  {
    var lo: int, hi: int := b[at], b[at + 1];
    lo + 0x100 * hi
  }

  function ReadU32(b: seq<Byte>, at: nat): nat
    requires at + 4 <= |b|
  {
    var lo: int, hi: int := ReadU16(b, at), ReadU16(b, at + 2);
    lo + 0x1_0000 * hi
  }

  function ReadName(b: seq<Byte>, at: nat, units: nat): (name: Name)
    requires at + 2 * units <= |b|
    ensures |name| == units && forall i :: 0 <= i < units ==> name[i] == ReadU16(b, at + 2 * i)
  {
    seq(units, i requires 0 <= i < units => ReadU16(b, at + 2 * i))
  }

  predicate IsDots(name: Name) {
    name == DOT || name == DOT_DOT
  }

  function KindOf(attributes: nat): Kind {
    if Has(attributes, ATTRIBUTE_DIRECTORY) then Directory else File
  }

  /** `parse_directory_buffer`: every read is in bounds and the offset grows. */
  method ParseDirectoryBuffer(b: seq<Byte>) returns (r: Result)
    ensures r == Walk(b, 0)
  {
    hide ReadU32, ReadName, Has, KindOf, IsDots, Walk;
    var offset := 0;
    var entries := [];
    PrependNothing(Walk(b, 0));
    while true
      invariant Walk(b, 0) == Prepend(entries, Walk(b, offset))
      decreases |b| - offset
    {
      Unfold(b, offset);
      if offset + RECORD_BYTES > |b| {
        return Err(InvalidPath);
      }
      var nameBytes := ReadU32(b, offset + NAME_LENGTH);
      if nameBytes % 2 != 0 || offset + HEADER_BYTES + nameBytes > |b| {
        return Err(InvalidPath);
      }
      var name := ReadName(b, offset + HEADER_BYTES, nameBytes / 2);
      var attributes := ReadU32(b, offset + ATTRIBUTES);
      ghost var sofar := entries;
      if !IsDots(name) {
        if Has(attributes, ATTRIBUTE_REPARSE_POINT) {
          return Err(ReparsePoint);
        }
        entries := entries + [Entry(name, KindOf(attributes))];
      }
      var next := ReadU32(b, offset + NEXT_OFFSET);
      if next == 0 {
        break;
      }
      if next < HEADER_BYTES || offset + next >= |b| {
        return Err(InvalidPath);
      }
      PrependTwice(sofar, if IsDots(name) then [] else [Entry(name, KindOf(attributes))], Walk(b, offset + next));
      offset := offset + next;
    }
    return Ok(entries);
  }

  function Prepend(entries: seq<Entry>, r: Result): Result {
    match r
    case Ok(rest) => Ok(entries + rest)
    case Err(_) => r
  }

  lemma PrependTwice(a: seq<Entry>, b: seq<Entry>, r: Result)
    ensures Prepend(a, Prepend(b, r)) == Prepend(a + b, r)
  {
    if r.Ok? {
      assert a + (b + r.entries) == (a + b) + r.entries;
    }
  }

  /** What the walk finds from `offset` on. */
  function Walk(b: seq<Byte>, offset: nat): Result
    decreases |b| - offset, 1
  {
    if offset + RECORD_BYTES > |b| then Err(InvalidPath)
    else
      var nameBytes := ReadU32(b, offset + NAME_LENGTH);
      if nameBytes % 2 != 0 || offset + HEADER_BYTES + nameBytes > |b| then Err(InvalidPath)
      else Round(b, offset, ReadName(b, offset + HEADER_BYTES, nameBytes / 2))
  }

  /** One round of the walk. */
  lemma Unfold(b: seq<Byte>, offset: nat)
    ensures offset + RECORD_BYTES > |b| ==> Walk(b, offset) == Err(InvalidPath)
    ensures offset + RECORD_BYTES <= |b| ==>
              var nameBytes := ReadU32(b, offset + NAME_LENGTH);
              if nameBytes % 2 != 0 || offset + HEADER_BYTES + nameBytes > |b| then Walk(b, offset) == Err(InvalidPath)
              else Walk(b, offset) == Round(b, offset, ReadName(b, offset + HEADER_BYTES, nameBytes / 2))
  {
    hide ReadU32, ReadName, Has, KindOf, IsDots;
  }

  /** What a round makes of a well-placed name. */
  function Round(b: seq<Byte>, offset: nat, name: Name): Result
    requires offset + RECORD_BYTES <= |b|
    decreases |b| - offset, 0
  {
    var attributes := ReadU32(b, offset + ATTRIBUTES);
    if !IsDots(name) && Has(attributes, ATTRIBUTE_REPARSE_POINT) then Err(ReparsePoint)
    else
      var found := if IsDots(name) then [] else [Entry(name, KindOf(attributes))];
      var next := ReadU32(b, offset + NEXT_OFFSET);
      if next == 0 then Ok(found)
      else if next < HEADER_BYTES || offset + next >= |b| then Err(InvalidPath)
      else Prepend(found, Walk(b, offset + next))
  }

  // ----- what a file system writes -----

  /** One record with the bytes of the fields the walk does not read and the
      padding that follows the name. */
  datatype Record = Record(name: Name, attributes: nat, times: seq<Byte>, ids: seq<Byte>, padding: seq<Byte>)

  predicate WellFormed(r: Record) {
    |r.times| == 52 && |r.ids| == 40 && r.attributes < 0x1_0000_0000 && Size(r) < 0x1_0000_0000
  }

  function Size(r: Record): nat {
    HEADER_BYTES + 2 * |r.name| + |r.padding|
  }

  function U16(n: Unit): (b: seq<Byte>)
    ensures |b| == 2
  {
    [n % 0x100, n / 0x100]
  }

  function U32(n: nat): (b: seq<Byte>)
    requires n < 0x1_0000_0000
    ensures |b| == 4
  {
    U16(n % 0x1_0000) + U16(n / 0x1_0000)
  }

  function NameBytes(name: Name): (b: seq<Byte>)
    ensures |b| == 2 * |name|
  {
    if name == [] then [] else U16(name[0]) + NameBytes(name[1..])
  }

  function Header(r: Record, next: nat): (b: seq<Byte>)
    requires WellFormed(r) && next < 0x1_0000_0000
    ensures |b| == HEADER_BYTES
  {
    U32(next) + r.times + U32(r.attributes) + U32(2 * |r.name|) + r.ids
  }

  function Encode(r: Record, next: nat): (b: seq<Byte>)
    requires WellFormed(r) && next < 0x1_0000_0000
    ensures |b| == Size(r)
  {
    Header(r, next) + NameBytes(r.name) + r.padding
  }

  function Chain(records: seq<Record>): seq<Byte>
    requires forall r :: r in records ==> WellFormed(r)
  {
    if records == [] then []
    else if |records| == 1 then Encode(records[0], 0)
    else Encode(records[0], Size(records[0])) + Chain(records[1..])
  }

  /** The answer owed for a list of records. */
  function Answer(records: seq<Record>): Result {
    if records == [] then Ok([])
    else
      var r := records[0];
      if IsDots(r.name) then Answer(records[1..])
      else if Has(r.attributes, ATTRIBUTE_REPARSE_POINT) then Err(ReparsePoint)
      else Prepend([Entry(r.name, KindOf(r.attributes))], Answer(records[1..]))
  }

  // ----- reading back what was written -----

  /** `part` stands in `b` at `at`. */
  predicate Stands(b: seq<Byte>, at: nat, part: seq<Byte>) {
    at + |part| <= |b| && b[at..at + |part|] == part
  }

  lemma StandsSplit(b: seq<Byte>, at: nat, x: seq<Byte>, y: seq<Byte>)
    requires Stands(b, at, x + y)
    ensures Stands(b, at, x) && Stands(b, at + |x|, y)
  {
    assert b[at..at + |x + y|][..|x|] == x && b[at..at + |x + y|][|x|..] == y;
  }

  lemma ReadsU16(b: seq<Byte>, at: nat, n: Unit)
    requires Stands(b, at, U16(n))
    ensures ReadU16(b, at) == n
  {
    assert b[at] == b[at..at + 2][0] && b[at + 1] == b[at..at + 2][1];
  }

  lemma ReadsU32(b: seq<Byte>, at: nat, n: nat)
    requires n < 0x1_0000_0000 && Stands(b, at, U32(n))
    ensures ReadU32(b, at) == n
  {
    StandsSplit(b, at, U16(n % 0x1_0000), U16(n / 0x1_0000));
    ReadsU16(b, at, n % 0x1_0000);
    ReadsU16(b, at + 2, n / 0x1_0000);
  }

  lemma {:induction false} ReadsName(b: seq<Byte>, at: nat, name: Name)
    requires Stands(b, at, NameBytes(name))
    ensures at + 2 * |name| <= |b| && ReadName(b, at, |name|) == name
    decreases |name|
  {
    if name != [] {
      StandsSplit(b, at, U16(name[0]), NameBytes(name[1..]));
      ReadsU16(b, at, name[0]);
      ReadsName(b, at + 2, name[1..]);
      forall i | 0 <= i < |name| ensures ReadName(b, at, |name|)[i] == name[i] {
        if i > 0 {
          assert ReadName(b, at + 2, |name| - 1)[i - 1] == ReadU16(b, at + 2 * i) == name[1..][i - 1];
        }
      }
    }
  }

  /** The fields of one record. */
  lemma ReadsRecord(b: seq<Byte>, at: nat, r: Record, next: nat)
    requires WellFormed(r) && next < 0x1_0000_0000 && Stands(b, at, Encode(r, next))
    ensures at + HEADER_BYTES + 2 * |r.name| <= |b|
    ensures ReadU32(b, at + NEXT_OFFSET) == next && ReadU32(b, at + ATTRIBUTES) == r.attributes
    ensures ReadU32(b, at + NAME_LENGTH) == 2 * |r.name| && ReadName(b, at + HEADER_BYTES, |r.name|) == r.name
  {
    StandsSplit(b, at, Header(r, next) + NameBytes(r.name), r.padding);
    StandsSplit(b, at, Header(r, next), NameBytes(r.name));
    ReadsName(b, at + HEADER_BYTES, r.name);
    var front := U32(next) + r.times + U32(r.attributes) + U32(2 * |r.name|);
    StandsSplit(b, at, front, r.ids);
    StandsSplit(b, at, U32(next) + r.times + U32(r.attributes), U32(2 * |r.name|));
    StandsSplit(b, at, U32(next) + r.times, U32(r.attributes));
    StandsSplit(b, at, U32(next), r.times);
    ReadsU32(b, at, next);
    ReadsU32(b, at + ATTRIBUTES, r.attributes);
    ReadsU32(b, at + NAME_LENGTH, 2 * |r.name|);
  }

  /** One round of the walk on a record that was read back. */
  lemma WalkRecord(b: seq<Byte>, at: nat, name: Name, attributes: nat, next: nat)
    requires at + RECORD_BYTES <= |b| && at + HEADER_BYTES + 2 * |name| <= |b|
    requires ReadU32(b, at + NEXT_OFFSET) == next && ReadU32(b, at + ATTRIBUTES) == attributes
    requires ReadU32(b, at + NAME_LENGTH) == 2 * |name| && ReadName(b, at + HEADER_BYTES, |name|) == name
    requires next == 0 || (HEADER_BYTES <= next && at + next < |b|)
    ensures Walk(b, at) ==
            if !IsDots(name) && Has(attributes, ATTRIBUTE_REPARSE_POINT) then Err(ReparsePoint)
            else
              Prepend(if IsDots(name) then [] else [Entry(name, KindOf(attributes))],
                      if next == 0 then Ok([]) else Walk(b, at + next))
  {
    hide ReadU32, ReadName, Has, KindOf, IsDots;
    var found := if IsDots(name) then [] else [Entry(name, KindOf(attributes))];
    assert 2 * |name| / 2 == |name| && found + [] == found;
  }

  lemma PrependNothing(r: Result)
    ensures Prepend([], r) == r
  {
  }

  /** Where the last record starts. */
  function LastStart(records: seq<Record>): nat
    requires records != []
  {
    if |records| == 1 then 0 else Size(records[0]) + LastStart(records[1..])
  }

  ghost predicate NoReparsePoint(records: seq<Record>) {
    forall r :: r in records && !IsDots(r.name) ==> !Has(r.attributes, ATTRIBUTE_REPARSE_POINT)
  }

  /** The walk asks for a whole fixed-size record at every start, so a last record
      with a short name at the very end of the buffer does not fit. */
  predicate LastFits(b: seq<Byte>, at: nat, records: seq<Record>)
    requires records != []
  {
    at + LastStart(records) + RECORD_BYTES <= |b|
  }

  /** Walking a written chain gives exactly its records, without "." and "..", if
      the last record fits; otherwise the directory is refused. */
  lemma {:induction false} WalkChain(b: seq<Byte>, at: nat, records: seq<Record>)
    requires records != [] && (forall r :: r in records ==> WellFormed(r)) && Stands(b, at, Chain(records))
    ensures LastFits(b, at, records) ==> Walk(b, at) == Answer(records)
    ensures !LastFits(b, at, records) ==>
              Walk(b, at) == Err(if NoReparsePoint(records[..|records| - 1]) then InvalidPath else ReparsePoint)
    decreases |records|
  {
    hide ReadU32, ReadName, Has, KindOf, IsDots, Encode, Stands, NoReparsePoint;
    var r, rest, front := records[0], records[1..], records[..|records| - 1];
    assert r in records;
    PrependNothing(Answer(rest));
    if |records| == 1 {
      assert front == [];
      NoRecordIsNoReparsePoint(front);
      ReadsRecord(b, at, r, 0);
      if at + RECORD_BYTES <= |b| {
        WalkRecord(b, at, r.name, r.attributes, 0);
        assert Answer(rest) == Ok([]);
      }
    } else {
      hide Walk;
      assert front == [r] + rest[..|rest| - 1];
      FirstReparsePoint(r, rest[..|rest| - 1]);
      StandsSplit(b, at, Encode(r, Size(r)), Chain(rest));
      assert at + |Chain(records)| <= |b| by { StandsInside(b, at, Chain(records)); }
      ReadsRecord(b, at, r, Size(r));
      ChainIsLong(rest);
      WalkRecord(b, at, r.name, r.attributes, Size(r));
      WalkChain(b, at + Size(r), rest);
    }
  }

  lemma StandsInside(b: seq<Byte>, at: nat, part: seq<Byte>)
    requires Stands(b, at, part)
    ensures at + |part| <= |b|
  {
  }

  lemma NoRecordIsNoReparsePoint(records: seq<Record>)
    requires records == []
    ensures NoReparsePoint(records)
  {
  }

  lemma FirstReparsePoint(r: Record, rest: seq<Record>)
    ensures NoReparsePoint([r] + rest) <==>
            (IsDots(r.name) || !Has(r.attributes, ATTRIBUTE_REPARSE_POINT)) && NoReparsePoint(rest)
  {
    assert forall x :: x in [r] + rest <==> x == r || x in rest;
  }

  lemma ChainIsLong(records: seq<Record>)
    requires records != [] && forall r :: r in records ==> WellFormed(r)
    ensures |Chain(records)| >= HEADER_BYTES
  {
    assert records[0] in records;
  }

  /** The whole buffer: a chain without reparse points is read back if and only if
      its last record fits, however much or little follows the chain. */
  lemma RoundTrip(records: seq<Record>, tail: seq<Byte>)
    requires records != [] && forall r :: r in records ==> WellFormed(r)
    ensures var b := Chain(records) + tail;
            (LastFits(b, 0, records) ==> Walk(b, 0) == Answer(records)) &&
            (NoReparsePoint(records) ==>
               (Walk(b, 0) == Answer(records) <==> LastFits(b, 0, records)) &&
               (Walk(b, 0).Err? <==> !LastFits(b, 0, records)))
  {
    var b := Chain(records) + tail;
    assert b[0..|Chain(records)|] == Chain(records);
    hide Walk, Chain, LastFits;
    WalkChain(b, 0, records);
    AnswerIs(records);
    assert forall r :: r in records[..|records| - 1] ==> r in records;
  }

  /** With nothing after the chain the last record fits exactly from 112 bytes on:
      a name of four units, or a shorter one with padding. */
  lemma {:induction false} FullBuffer(records: seq<Record>)
    requires records != [] && forall r :: r in records ==> WellFormed(r)
    ensures LastFits(Chain(records), 0, records) <==> Size(records[|records| - 1]) >= RECORD_BYTES
    ensures |Chain(records)| == LastStart(records) + Size(records[|records| - 1])
  {
    assert records[0] in records;
    if |records| > 1 {
      FullBuffer(records[1..]);
    }
  }

  /** One reparse point anywhere in the chain refuses the directory; otherwise the
      answer holds every record but the dots. */
  lemma {:induction false} AnswerIs(records: seq<Record>)
    ensures if NoReparsePoint(records) then Answer(records).Ok? else Answer(records) == Err(ReparsePoint)
    ensures NoReparsePoint(records) ==>
              forall e :: e in Answer(records).entries <==>
                exists r :: r in records && !IsDots(r.name) && e == Entry(r.name, KindOf(r.attributes))
  {
    hide Has, IsDots, KindOf;
    if records != [] {
      var r, rest := records[0], records[1..];
      assert forall x :: x in records <==> x == r || x in rest;
      AnswerIs(rest);
    }
  }

  // ----- the same, with the formats written out -----

  /** The entries of written records: bit 4 of the attributes makes a directory. */
  function Listed(records: seq<Record>): seq<Entry> {
    if records == [] then []
    else
      var r := records[0];
      (if r.name == [46] || r.name == [46, 46] then []
       else [Entry(r.name, if r.attributes / 16 % 2 == 1 then Directory else File)]) +
      Listed(records[1..])
  }

  /** Bit 10 makes a reparse point. */
  predicate IsLink(r: Record) {
    r.name != [46] && r.name != [46, 46] && r.attributes / 1024 % 2 == 1
  }

  predicate AnyLink(records: seq<Record>) {
    exists r :: r in records && IsLink(r)
  }

  lemma {:induction false} AnswerIsListed(records: seq<Record>)
    ensures Answer(records) == if AnyLink(records) then Err(ReparsePoint) else Ok(Listed(records))
    ensures NoReparsePoint(records) <==> !AnyLink(records)
  {
    if records != [] {
      var r, rest := records[0], records[1..];
      assert forall x :: x in records <==> x == r || x in rest;
      AnswerIsListed(rest);
      if !AnyLink(rest) {
        assert AnyLink(records) <==> IsLink(r);
      }
    }
  }

  /** A written directory of any records, followed by anything: the walk answers its
      entries in order, directories marked as such, "." and ".." left out, or refuses a
      reparse point, if 112 bytes are left from the start of the last record on, and
      refuses the buffer otherwise. */
  lemma ListingIsReadBack(records: seq<Record>, tail: seq<Byte>)
    requires records != [] && forall r :: r in records ==> WellFormed(r)
    ensures var b := Chain(records) + tail;
            Walk(b, 0) ==
            if LastStart(records) + 112 > |b| then
              Err(if AnyLink(records[..|records| - 1]) then ReparsePoint else InvalidPath)
            else if AnyLink(records) then Err(ReparsePoint)
            else Ok(Listed(records))
  {
    var b := Chain(records) + tail;
    assert b[0..|Chain(records)|] == Chain(records);
    hide Walk, Chain, LastStart, Answer, AnyLink, NoReparsePoint, Listed;
    WalkChain(b, 0, records);
    AnswerIsListed(records);
    AnswerIsListed(records[..|records| - 1]);
  }

  /** What the walk refuses in a buffer of any origin, at the byte offsets of the
      structure: a short rest, an odd name length, a name or a next record that does
      not fit, a next record inside the header. */
  lemma MalformedIsRefused(b: seq<Byte>, at: nat)
    ensures at + 112 > |b| ==> Walk(b, at) == Err(InvalidPath)
    ensures at + 112 <= |b| ==>
              var name := (b[at + 60] as int) + 0x100 * (b[at + 61] as int) +
                          0x1_0000 * ((b[at + 62] as int) + 0x100 * (b[at + 63] as int));
              var next := (b[at] as int) + 0x100 * (b[at + 1] as int) +
                          0x1_0000 * ((b[at + 2] as int) + 0x100 * (b[at + 3] as int));
              (name % 2 == 1 || at + 104 + name > |b| ==> Walk(b, at) == Err(InvalidPath)) &&
              (0 < next < 104 || (next != 0 && at + next >= |b|) ==> Walk(b, at).Err?)
  {
    hide IsDots, Has, KindOf, Prepend;
  }
}
