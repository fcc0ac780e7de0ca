// File trees as flat maps from paths to nodes, and the copy manifest of
// crates/core-profiles/src/migration.rs.

module FileTree {
  import opened Words
  import opened Names

  type Path = seq<Name>

  datatype Node = File(content: seq<Byte>) | Directory | Reparse

  type Tree = map<Path, Node>

  function Parent(p: Path): Path
    requires p != []
  {
    p[..|p| - 1]
  }

  /** Every entry lies in a directory. */
  ghost predicate Closed(t: Tree) {
    forall p :: p in t && p != [] ==> Parent(p) in t && t[Parent(p)] == Directory
  }

  function Children(t: Tree, p: Path): set<Name> {
    set q | q in t && q != [] && Parent(q) == p :: q[|q| - 1]
  }

  lemma ChildrenAre(t: Tree, p: Path, n: Name)
    ensures n in Children(t, p) <==> p + [n] in t
  {
    if p + [n] in t {
      assert Parent(p + [n]) == p && (p + [n])[|p|] == n;
    }
    if n in Children(t, p) {
      var q :| q in t && q != [] && Parent(q) == p && q[|q| - 1] == n;
      assert q == p + [n];
    }
  }

  lemma {:induction false} ClosedUp(t: Tree, p: Path, q: Path)
    requires Closed(t) && q in t && p < q
    ensures p + [q[|p|]] in t && p in t && t[p] == Directory
    decreases |q|
  {
    if |q| == |p| + 1 {
      assert q == p + [q[|p|]] && Parent(q) == p;
    } else {
      ClosedUp(t, p, Parent(q));
    }
  }

  /** A bound on the depth of a tree, for termination. */
  ghost function Height(t: Tree): (h: nat)
    ensures forall p :: p in t ==> |p| <= h
    decreases t.Keys
  {
    if t == map[] then 0
    else
      var p :| p in t;
      var h := Height(t - {p});
      if |p| <= h then h else |p|
  }

  /** The order in which the system enumerates each directory. */
  type Listing = Path -> seq<Name>

  /** Whatever the order, it enumerates every directory completely and once. */
  ghost predicate Lists(listing: Listing, t: Tree) {
    forall p :: p in t ==> Enumerates(listing(p), Children(t, p)) && Distinct(listing(p))
  }
}

module Manifest {
  import opened Words
  import opened Names
  import opened FileTree

  /** SHA-256, taken to be injective. */
  datatype Digest = OfFile(content: seq<Byte>) | OfManifest(tokens: seq<Token>)

  datatype Token = Raw(value: nat) | Hex(digest: Digest)

  datatype Line = Line(path: Path, size: nat, digest: Digest)

  datatype Receipt = Receipt(copiedFiles: nat, copiedBytes: nat, manifestDigest: Digest)

  ghost function Sum(lines: seq<Line>): nat {
    if lines == [] then 0 else Sum(lines[..|lines| - 1]) + lines[|lines| - 1].size
  }

  const SEPARATOR: Unit := 92

  function Joined(p: Path): Name {
    if p == [] then [] else if |p| == 1 then p[0] else Joined(Parent(p)) + [SEPARATOR] + p[|p| - 1]
  }

  function Slashes(s: string): string {
    seq(|s|, i requires 0 <= i < |s| => if s[i] == '\\' then '/' else s[i])
  }

  /** `display_relative_path` */
  function DisplayedPath(p: Path): string {
    Slashes(Display(Joined(p)))
  }

  function Chars(s: string): seq<Token> {
    seq(|s|, i requires 0 <= i < |s| => Raw(s[i] as int))
  }

  function LittleEndian(n: nat, width: nat): (bytes: seq<Token>)
    ensures |bytes| == width
  {
    if width == 0 then [] else [Raw(n % 256)] + LittleEndian(n / 256, width - 1)
  }

  function LineTokens(line: Line): seq<Token> {
    Chars(DisplayedPath(line.path)) + [Raw(0)] + LittleEndian(line.size, 8) + [Hex(line.digest)] + [Raw(10)]
  }

  function Tokens(lines: seq<Line>): seq<Token> {
    if lines == [] then [] else LineTokens(lines[0]) + Tokens(lines[1..])
  }

  ghost function ReceiptOf(lines: seq<Line>): Receipt {
    Receipt(|lines|, Sat(Sum(lines)), OfManifest(Tokens(lines)))
  }

  /** A name as Windows allows it: no slash, no backslash, no NUL. */
  predicate PlainName(n: Name) {
    n != [] && forall i :: 0 <= i < |n| ==> n[i] != 47 && n[i] != SEPARATOR && n[i] != 0
  }

  /** What a line of a copy made by this program looks like. */
  ghost predicate PlainLine(line: Line) {
    line.path != [] && line.size <= U64_MAX && forall i :: 0 <= i < |line.path| ==> PlainName(line.path[i])
  }

  lemma {:induction false} TokensAppend(lines: seq<Line>, line: Line)
    ensures Tokens(lines + [line]) == Tokens(lines) + LineTokens(line)
  {
    hide LineTokens;
    if lines == [] {
      assert Tokens([line][1..]) == [];
      assert lines + [line] == [line];
    } else {
      var all := lines + [line];
      assert all[1..] == lines[1..] + [line] && all[0] == lines[0];
      TokensAppend(lines[1..], line);
      assert Tokens(all) == LineTokens(lines[0]) + (Tokens(lines[1..]) + LineTokens(line));
    }
  }

  function Power(b: nat, e: nat): nat {
    if e == 0 then 1 else b * Power(b, e - 1)
  }

  lemma {:induction false} LittleEndianInjective(a: nat, b: nat, width: nat)
    requires LittleEndian(a, width) == LittleEndian(b, width)
    requires a < Power(256, width) && b < Power(256, width)
    ensures a == b
  {
    if width > 0 {
      var x, y := LittleEndian(a, width), LittleEndian(b, width);
      assert x[0] == Raw(a % 256) && y[0] == Raw(b % 256);
      assert x[1..] == LittleEndian(a / 256, width - 1) && y[1..] == LittleEndian(b / 256, width - 1);
      LittleEndianInjective(a / 256, b / 256, width - 1);
    }
  }

  lemma EightBytes()
    ensures Power(256, 8) == U64_MAX + 1
  {
    assert Power(256, 2) == 0x1_0000;
    assert Power(256, 4) == 256 * (256 * Power(256, 2));
    assert Power(256, 6) == 256 * (256 * Power(256, 4));
    assert Power(256, 8) == 256 * (256 * Power(256, 6));
  }

  lemma HasSeparator(p: Path)
    requires p != [] && forall n :: n in p ==> PlainName(n)
    ensures SEPARATOR in Joined(p) <==> |p| > 1
  {
    assert p[|p| - 1] in p;
    if |p| > 1 {
      assert Joined(p)[|Joined(Parent(p))|] == SEPARATOR;
    }
  }

  lemma LastSeparator(p: Path)
    requires |p| > 1 && forall n :: n in p ==> PlainName(n)
    ensures var i := |Joined(Parent(p))|;
            i < |Joined(p)| && Joined(p)[i] == SEPARATOR &&
            forall k :: i < k < |Joined(p)| ==> Joined(p)[k] != SEPARATOR
  {
    var i, a := |Joined(Parent(p))|, p[|p| - 1];
    assert a in p;
    forall k | i < k < |Joined(p)| ensures Joined(p)[k] != SEPARATOR {
      assert Joined(p)[k] == a[k - i - 1];
    }
  }

  lemma {:induction false} JoinedInjective(p: Path, q: Path)
    requires p != [] && q != [] && Joined(p) == Joined(q)
    requires forall n :: n in p || n in q ==> PlainName(n)
    ensures p == q
    decreases |p|
  {
    var a, b := p[|p| - 1], q[|q| - 1];
    assert a in p && b in q;
    HasSeparator(p);
    HasSeparator(q);
    if |p| > 1 {
      var s, i, j := Joined(p), |Joined(Parent(p))|, |Joined(Parent(q))|;
      LastSeparator(p);
      LastSeparator(q);
      assert s[..i] == Joined(Parent(p)) && s[..j] == Joined(Parent(q)) && s[i + 1..] == a && s[j + 1..] == b;
      JoinedInjective(Parent(p), Parent(q));
      assert p == Parent(p) + [a] && q == Parent(q) + [b];
    } else {
      assert p == [Joined(p)] && q == [Joined(q)];
    }
  }

  lemma {:induction false} JoinedPlain(p: Path)
    requires forall n :: n in p ==> PlainName(n)
    ensures 0 !in Joined(p) && 47 !in Joined(p)
  {
    if p != [] {
      assert p[|p| - 1] in p;
      if |p| > 1 {
        JoinedPlain(Parent(p));
      }
    }
  }

  /** Every name of the path is displayed without U+FFFD. */
  predicate Readable(p: Path) {
    forall i :: 0 <= i < |p| ==> REPLACEMENT !in Display(p[i])
  }

  /** No name of the path holds an unpaired surrogate. */
  predicate Unbroken(p: Path) {
    forall i :: 0 <= i < |p| ==> Paired(p[i])
  }

  /** The displayed names, joined. */
  function Shown(p: Path): string {
    if p == [] then "" else if |p| == 1 then Display(p[0]) else Shown(Parent(p)) + "\\" + Display(p[|p| - 1])
  }

  lemma {:induction false} DisplayJoined(p: Path)
    ensures Display(Joined(p)) == Shown(p)
  {
    if |p| > 1 {
      var last, separator := p[|p| - 1], [SEPARATOR];
      DisplayJoined(Parent(p));
      assert Display(separator + last) == "\\" + Display(last) by { assert (separator + last)[1..] == last; }
      DisplayAppend(Joined(Parent(p)), separator + last);
      assert Joined(p) == Joined(Parent(p)) + (separator + last);
    }
  }

  /** The displayed names with slashes between them. */
  function SlashJoined(p: Path): string {
    if p == [] then "" else if |p| == 1 then Display(p[0]) else SlashJoined(Parent(p)) + "/" + Display(p[|p| - 1])
  }

  lemma PlainDisplay(n: Name)
    requires PlainName(n)
    ensures Slashes(Display(n)) == Display(n)
  {
    if '\\' in Display(n) {
      DisplayShows(n, 92);
    }
    assert forall i :: 0 <= i < |Display(n)| ==> Display(n)[i] in Display(n);
  }

  lemma {:induction false} SlashesShown(p: Path)
    requires forall n :: n in p ==> PlainName(n)
    ensures Slashes(Shown(p)) == SlashJoined(p)
  {
    if p != [] {
      assert p[|p| - 1] in p;
      PlainDisplay(p[|p| - 1]);
      if |p| > 1 {
        SlashesShown(Parent(p));
        hide Display;
        assert Shown(p) == Shown(Parent(p)) + "\\" + Display(p[|p| - 1]);
      }
    }
  }

  /** A line shows the names of its path, joined by slashes. */
  lemma DisplayedIsJoined(p: Path)
    requires forall n :: n in p ==> PlainName(n)
    ensures DisplayedPath(p) == SlashJoined(p)
  {
    DisplayJoined(p);
    SlashesShown(p);
  }

  lemma {:induction false} ShownAlike(p: Path, q: Path)
    requires |p| == |q| && forall i :: 0 <= i < |p| ==> Display(p[i]) == Display(q[i])
    ensures Shown(p) == Shown(q)
  {
    if |p| > 1 {
      ShownAlike(Parent(p), Parent(q));
    }
  }

  lemma {:induction false} ShownReadable(p: Path)
    ensures REPLACEMENT in Shown(p) <==> !Readable(p)
  {
    if |p| > 1 {
      ShownReadable(Parent(p));
      assert p == Parent(p) + [p[|p| - 1]];
    }
  }

  lemma {:induction false} JoinedPaired(p: Path)
    requires Unbroken(p)
    ensures Paired(Joined(p))
  {
    if |p| > 1 {
      JoinedPaired(Parent(p));
      assert Paired([SEPARATOR]) by { assert [SEPARATOR][1..] == []; }
      PairedAppend(Joined(Parent(p)), [SEPARATOR]);
      PairedAppend(Joined(Parent(p)) + [SEPARATOR], p[|p| - 1]);
    }
  }

  lemma DisplayedPlain(p: Path)
    requires forall n :: n in p ==> PlainName(n)
    ensures '\0' !in DisplayedPath(p) && '/' !in Display(Joined(p))
  {
    JoinedPlain(p);
    if '/' in Display(Joined(p)) {
      DisplayShows(Joined(p), 47);
    }
    if '\0' in DisplayedPath(p) {
      var i :| 0 <= i < |DisplayedPath(p)| && DisplayedPath(p)[i] == '\0';
      assert Display(Joined(p))[i] == '\0';
      DisplayShows(Joined(p), 0);
    }
  }

  lemma SlashesInjective(s: string, t: string)
    requires '/' !in s && '/' !in t && Slashes(s) == Slashes(t)
    ensures s == t
  {
    assert |Slashes(s)| == |s| && |Slashes(t)| == |t|;
    forall i | 0 <= i < |s| ensures s[i] == t[i] {
      assert Slashes(s)[i] == Slashes(t)[i];
      assert s[i] in s && t[i] in t;
    }
  }

  /** The displayed form tells paths apart if neither holds an unpaired surrogate or
      one of them is displayed without U+FFFD. */
  lemma DisplayedPathInjective(p: Path, q: Path)
    requires p != [] && q != [] && DisplayedPath(p) == DisplayedPath(q)
    requires forall n :: n in p || n in q ==> PlainName(n)
    requires Readable(p) || (Unbroken(p) && Unbroken(q))
    ensures p == q
  {
    DisplayedPlain(p);
    DisplayedPlain(q);
    SlashesInjective(Display(Joined(p)), Display(Joined(q)));
    if Readable(p) {
      DisplayJoined(p);
      ShownReadable(p);
      ReadableIsPaired(Joined(p));
      ReadableIsPaired(Joined(q));
    } else {
      JoinedPaired(p);
      JoinedPaired(q);
    }
    DisplayInjective(Joined(p), Joined(q));
    JoinedInjective(p, q);
  }

  /** Otherwise another path looks the same. */
  lemma PathLookalike(p: Path) returns (q: Path)
    requires !Readable(p) && forall n :: n in p ==> PlainName(n)
    ensures q != p && q != [] && DisplayedPath(q) == DisplayedPath(p) && forall n :: n in q ==> PlainName(n)
  {
    hide Display, Joined, Lookalike, Shown, Slashes, PlainName;
    var i :| 0 <= i < |p| && REPLACEMENT in Display(p[i]);
    var m := Lookalike(p[i]);
    assert p[i] in p;
    PlainLookalike(p[i]);
    q := p[i := m];
    assert q[i] != p[i];
    ShownAlike(p, q);
    DisplayJoined(p);
    DisplayJoined(q);
  }

  lemma PlainLookalike(n: Name)
    requires PlainName(n) && REPLACEMENT in Display(n)
    ensures PlainName(Lookalike(n)) && Lookalike(n) != n && Display(Lookalike(n)) == Display(n)
  {
    var m := Lookalike(n);
    LooksAlike(n);
    hide Display;
    forall i | 0 <= i < |m| ensures m[i] != 47 && m[i] != SEPARATOR && m[i] != 0 {
      assert m[i] in m;
    }
  }

  lemma NoTokens(lines: seq<Line>)
    ensures Tokens(lines) == [] <==> lines == []
  {
  }

  ghost predicate PlainLines(lines: seq<Line>) {
    forall l :: l in lines ==> PlainLine(l)
  }

  ghost predicate AllReadable(lines: seq<Line>) {
    forall l :: l in lines ==> Readable(l.path)
  }

  ghost predicate AllUnbroken(lines: seq<Line>) {
    forall l :: l in lines ==> Unbroken(l.path)
  }

  /** The manifest hash tells two manifests apart if neither holds an unpaired
      surrogate or one of them is displayed without U+FFFD. */
  lemma {:induction false} ManifestInjective(a: seq<Line>, b: seq<Line>)
    requires PlainLines(a) && PlainLines(b) && Tokens(a) == Tokens(b)
    requires AllReadable(a) || (AllUnbroken(a) && AllUnbroken(b))
    ensures a == b
  {
    NoTokens(a);
    NoTokens(b);
    if a != [] {
      assert a[0] in a && b[0] in b;
      hide PlainLine, Readable, Unbroken, Tokens;
      FirstLine(a[0], Tokens(a[1..]), b[0], Tokens(b[1..])) by { TokensSplit(a); TokensSplit(b); }
      SamePath(a[0], b[0]);
      ManifestInjective(a[1..], b[1..]);
      assert a == [a[0]] + a[1..] && b == [b[0]] + b[1..];
    }
  }

  lemma TokensSplit(lines: seq<Line>)
    requires lines != []
    ensures Tokens(lines) == LineTokens(lines[0]) + Tokens(lines[1..])
  {
  }

  lemma SamePath(a: Line, b: Line)
    requires PlainLine(a) && PlainLine(b) && DisplayedPath(a.path) == DisplayedPath(b.path)
    requires Readable(a.path) || (Unbroken(a.path) && Unbroken(b.path))
    ensures a.path == b.path
  {
    DisplayedPathInjective(a.path, b.path);
  }

  /** A manifest shares its hash with no other exactly if no path in it is displayed
      with U+FFFD. */
  lemma HashTellsApart(a: seq<Line>)
    requires PlainLines(a)
    ensures AllReadable(a) <==> forall b :: PlainLines(b) && Tokens(b) == Tokens(a) ==> b == a
  {
    hide PlainLine, Readable, Tokens;
    if AllReadable(a) {
      forall b | PlainLines(b) && Tokens(b) == Tokens(a) ensures b == a {
        ManifestInjective(a, b);
      }
    } else {
      var l :| l in a && !Readable(l.path);
      var i :| 0 <= i < |a| && a[i] == l;
      var q := PathLookalike(l.path) by { PlainPath(l); }
      var m := l.(path := q);
      PlainPath(l);
      PlainAgain(m);
      var b := a[i := m];
      ReplacedTokens(a, i, m);
      assert b[i] != a[i] && PlainLines(b);
    }
  }

  lemma PlainPath(l: Line)
    requires PlainLine(l)
    ensures l.size <= U64_MAX && forall n :: n in l.path ==> PlainName(n)
  {
  }

  lemma PlainAgain(l: Line)
    requires l.path != [] && l.size <= U64_MAX && forall n :: n in l.path ==> PlainName(n)
    ensures PlainLine(l)
  {
    assert forall i :: 0 <= i < |l.path| ==> l.path[i] in l.path;
  }

  lemma {:induction false} ReplacedTokens(lines: seq<Line>, i: nat, l: Line)
    requires i < |lines| && LineTokens(l) == LineTokens(lines[i])
    ensures Tokens(lines[i := l]) == Tokens(lines)
  {
    hide LineTokens;
    if i == 0 {
      assert lines[i := l][1..] == lines[1..];
    } else {
      assert lines[i := l][1..] == lines[1..][i - 1 := l];
      ReplacedTokens(lines[1..], i - 1, l);
    }
  }

  /** A line can be read off the front of a manifest, up to how its path is displayed. */
  lemma FirstLine(a: Line, restA: seq<Token>, b: Line, restB: seq<Token>)
    requires PlainLine(a) && PlainLine(b) && LineTokens(a) + restA == LineTokens(b) + restB
    ensures DisplayedPath(a.path) == DisplayedPath(b.path) && a.size == b.size && a.digest == b.digest && restA == restB
  {
    var s, t := LineTokens(a) + restA, LineTokens(b) + restB;
    var m, n := |DisplayedPath(a.path)|, |DisplayedPath(b.path)|;
    DisplayedPlain(a.path);
    DisplayedPlain(b.path);
    assert s[m] == Raw(0) && t[n] == Raw(0);
    assert forall i :: 0 <= i < m ==> s[i] == Raw(DisplayedPath(a.path)[i] as int);
    assert forall i :: 0 <= i < n ==> t[i] == Raw(DisplayedPath(b.path)[i] as int);
    assert m == n;
    forall i | 0 <= i < m ensures DisplayedPath(a.path)[i] == DisplayedPath(b.path)[i] {
      assert s[i] == t[i];
    }
    assert DisplayedPath(a.path) == DisplayedPath(b.path);
    assert s[m + 1..m + 9] == LittleEndian(a.size, 8) && t[m + 1..m + 9] == LittleEndian(b.size, 8);
    EightBytes();
    LittleEndianInjective(a.size, b.size, 8);
    assert s[m + 9] == Hex(a.digest) && t[m + 9] == Hex(b.digest);
    assert restA == s[m + 11..] && restB == t[m + 11..];
  }
}
