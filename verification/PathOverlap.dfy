// Path acceptance and the textual overlap test of crates/core-profiles/src/migration.rs.

module PathOverlap {
  import opened Words
  import opened Faults

  const SEPARATOR: char := '\\'

  // ----- splitting and joining at the separator -----

  /** One more character in front of parts. */
  function Glue(c: char, parts: seq<string>): (r: seq<string>)
    requires parts != []
    ensures r != []
  {
    if c == SEPARATOR then [""] + parts else [[c] + parts[0]] + parts[1..]
  }

  function Split(s: string): (parts: seq<string>)
    ensures parts != []
  {
    if s == "" then [""] else Glue(s[0], Split(s[1..]))
  }

  function Join(parts: seq<string>): string
    requires parts != []
  {
    if |parts| == 1 then parts[0] else parts[0] + [SEPARATOR] + Join(parts[1..])
  }

  ghost predicate Plain(parts: seq<string>) {
    forall p :: p in parts ==> SEPARATOR !in p
  }

  lemma GlueAppend(c: char, x: seq<string>, y: seq<string>)
    requires x != []
    ensures Glue(c, x + y) == Glue(c, x) + y
  {
    assert (x + y)[1..] == x[1..] + y;
  }

  lemma GlueJoins(c: char, parts: seq<string>)
    requires parts != []
    ensures Join(Glue(c, parts)) == [c] + Join(parts)
    ensures Plain(parts) ==> Plain(Glue(c, parts))
  {
    var r := Glue(c, parts);
    assert parts[0] in parts;
    if c == SEPARATOR {
      assert r[1..] == parts && "" + [SEPARATOR] + Join(parts) == [c] + Join(parts);
    } else {
      assert r[1..] == parts[1..];
      if |parts| > 1 {
        assert [c] + parts[0] + [SEPARATOR] + Join(parts[1..]) == [c] + (parts[0] + [SEPARATOR] + Join(parts[1..]));
      }
    }
  }

  lemma {:induction false} SplitPlain(s: string)
    ensures Plain(Split(s)) && Join(Split(s)) == s
  {
    hide Glue;
    if s != "" {
      SplitPlain(s[1..]);
      GlueJoins(s[0], Split(s[1..]));
      assert s == [s[0]] + s[1..];
    }
  }

  lemma {:induction false} SplitAppend(a: string, b: string)
    ensures Split(a + [SEPARATOR] + b) == Split(a) + Split(b)
  {
    var s := a + [SEPARATOR] + b;
    if a == "" {
      assert s[1..] == b;
    } else {
      hide Glue;
      assert s[1..] == a[1..] + [SEPARATOR] + b;
      SplitAppend(a[1..], b);
      GlueAppend(a[0], Split(a[1..]), Split(b));
    }
  }

  lemma {:induction false} SplitWord(s: string)
    requires SEPARATOR !in s
    ensures Split(s) == [s]
  {
    if s != "" {
      SplitWord(s[1..]);
      assert s == [s[0]] + s[1..];
    }
  }

  lemma {:induction false} SplitJoin(parts: seq<string>)
    requires parts != [] && Plain(parts)
    ensures Split(Join(parts)) == parts
  {
    assert parts[0] in parts;
    SplitWord(parts[0]);
    if |parts| > 1 {
      SplitJoin(parts[1..]);
      SplitAppend(parts[0], Join(parts[1..]));
      assert parts == [parts[0]] + parts[1..];
    } else {
      assert parts == [parts[0]];
    }
  }

  /** Textual prefix plus separator is exactly list prefix. */
  lemma JoinPrefix(x: seq<string>, y: seq<string>)
    requires x != [] && y != [] && Plain(x) && Plain(y)
    ensures Join(x) == Join(y) <==> x == y
    ensures Join(x) + [SEPARATOR] <= Join(y) <==> x < y
  {
    SplitJoin(x);
    SplitJoin(y);
    if Join(x) + [SEPARATOR] <= Join(y) {
      var rest := Join(y)[|Join(x)| + 1..];
      assert Join(y) == Join(x) + [SEPARATOR] + rest;
      SplitAppend(Join(x), rest);
    }
    if x < y {
      JoinAppend(x, y[|x|..]);
      assert y == x + y[|x|..];
      assert Join(y) == Join(x) + [SEPARATOR] + Join(y[|x|..]);
    }
  }

  lemma {:induction false} JoinAppend(x: seq<string>, y: seq<string>)
    requires x != [] && y != []
    ensures Join(x + y) == Join(x) + [SEPARATOR] + Join(y)
  {
    if |x| > 1 {
      JoinAppend(x[1..], y);
      assert (x + y)[1..] == x[1..] + y;
      assert Join(x + y) == x[0] + [SEPARATOR] + (Join(x[1..]) + [SEPARATOR] + Join(y));
    } else {
      assert (x + y)[1..] == y;
    }
  }

  // ----- accepted paths -----

  predicate AsciiLetter(c: char) {
    'a' <= c <= 'z' || 'A' <= c <= 'Z'
  }

  function AsciiUpper(s: string): string {
    seq(|s|, i requires 0 <= i < |s| => if 'a' <= s[i] <= 'z' then s[i] - 'a' + 'A' else s[i])
  }

  const DEVICES: set<string> := {"CON", "PRN", "AUX", "NUL", "CONIN$", "CONOUT$"}

  const PORTS: string := "123456789\U{b9}\U{b2}\U{b3}"

  predicate Reserved(stem: string) {
    stem in DEVICES || (|stem| == 4 && stem[..3] in {"COM", "LPT"} && stem[3] in PORTS)
  }

  /** `validate_windows_component` */
  predicate ValidComponent(c: string) {
    c != "" && c[|c| - 1] != '.' && c[|c| - 1] != ' ' &&
    (forall i :: 0 <= i < |c| ==> c[i] > '\U{1f}' && c[i] !in "<>:\"/\\|?*") &&
    !Reserved(AsciiUpper(UpTo(c, {'.'})))
  }

  // ----- which components those are -----

  /** Equal up to the case of ASCII letters. */
  ghost predicate SameLetters(s: string, upper: string) {
    |s| == |upper| &&
    forall i :: 0 <= i < |s| ==> s[i] == upper[i] || ('A' <= upper[i] <= 'Z' && s[i] as int == upper[i] as int + 32)
  }

  /** The name of a device, in any case: a console, printer, clock or null name, or COM
      or LPT with a digit from 1 to 9, superscript one to three included. */
  ghost predicate IsDevice(stem: string) {
    SameLetters(stem, "CON") || SameLetters(stem, "PRN") || SameLetters(stem, "AUX") || SameLetters(stem, "NUL") ||
    SameLetters(stem, "CONIN$") || SameLetters(stem, "CONOUT$") ||
    (|stem| == 4 && (SameLetters(stem[..3], "COM") || SameLetters(stem[..3], "LPT")) &&
     ('1' <= stem[3] <= '9' || stem[3] as int == 0xb9 || stem[3] as int == 0xb2 || stem[3] as int == 0xb3))
  }

  lemma UpperIs(s: string, upper: string)
    requires forall i :: 0 <= i < |upper| ==> !('a' <= upper[i] <= 'z')
    ensures AsciiUpper(s) == upper <==> SameLetters(s, upper)
  {
    if SameLetters(s, upper) {
      assert forall i :: 0 <= i < |s| ==> AsciiUpper(s)[i] == upper[i];
    } else if |s| == |upper| {
      var i :| 0 <= i < |s| && !(s[i] == upper[i] || ('A' <= upper[i] <= 'Z' && s[i] as int == upper[i] as int + 32));
      assert AsciiUpper(s)[i] != upper[i];
    }
  }

  lemma ReservedIsDevice(stem: string)
    ensures Reserved(AsciiUpper(stem)) <==> IsDevice(stem)
  {
    UpperIs(stem, "CON");
    UpperIs(stem, "PRN");
    UpperIs(stem, "AUX");
    UpperIs(stem, "NUL");
    UpperIs(stem, "CONIN$");
    UpperIs(stem, "CONOUT$");
    hide SameLetters;
    if |stem| == 4 {
      PortIsDevice(stem);
    }
  }

  lemma PortIsDevice(stem: string)
    requires |stem| == 4
    ensures AsciiUpper(stem)[..3] == AsciiUpper(stem[..3])
    ensures AsciiUpper(stem)[..3] == "COM" <==> SameLetters(stem[..3], "COM")
    ensures AsciiUpper(stem)[..3] == "LPT" <==> SameLetters(stem[..3], "LPT")
    ensures AsciiUpper(stem)[3] in PORTS <==>
              '1' <= stem[3] <= '9' || stem[3] as int == 0xb9 || stem[3] as int == 0xb2 || stem[3] as int == 0xb3
  {
    UpperIs(stem[..3], "COM");
    UpperIs(stem[..3], "LPT");
    InPorts(AsciiUpper(stem)[3]);
  }

  lemma InPorts(c: char)
    ensures c in PORTS <==> '1' <= c <= '9' || c as int == 0xb9 || c as int == 0xb2 || c as int == 0xb3
  {
    assert PORTS[0] == '1' && PORTS[1] == '2' && PORTS[2] == '3' && PORTS[3] == '4' && PORTS[4] == '5';
    assert PORTS[5] == '6' && PORTS[6] == '7' && PORTS[7] == '8' && PORTS[8] == '9';
    assert PORTS[9] as int == 0xb9 && PORTS[10] as int == 0xb2 && PORTS[11] as int == 0xb3;
  }

  /** A component is valid exactly if it is not empty, does not end in a dot or blank,
      holds no control character and none of the nine excluded ones, and does not
      name a device up to its first dot. */
  lemma ComponentIs(c: string, stem: string)
    requires stem <= c && '.' !in stem && (|stem| < |c| ==> c[|stem|] == '.')
    ensures ValidComponent(c) <==>
              c != "" && c[|c| - 1] != '.' && c[|c| - 1] != ' ' && !IsDevice(stem) &&
              forall x :: x in c ==> x as int >= 32 && x != '<' && x != '>' && x != ':' && x != '"' && x != '/' &&
                                     x != '\\' && x != '|' && x != '?' && x != '*'
  {
    StemIs(c, stem);
    ReservedIsDevice(stem);
    hide Reserved, IsDevice;
    forall x ensures x in "<>:\"/\\|?*" <==>
      x == '<' || x == '>' || x == ':' || x == '"' || x == '/' || x == '\\' || x == '|' || x == '?' || x == '*'
    {
      InExcluded(x);
    }
    assert forall i :: 0 <= i < |c| ==> c[i] in c && (c[i] > '\U{1f}' <==> c[i] as int >= 32);
  }

  lemma InExcluded(x: char)
    ensures x in "<>:\"/\\|?*" <==>
      x == '<' || x == '>' || x == ':' || x == '"' || x == '/' || x == '\\' || x == '|' || x == '?' || x == '*'
  {
    var s := "<>:\"/\\|?*";
    assert s[0] == '<' && s[1] == '>' && s[2] == ':' && s[3] == '"' && s[4] == '/';
    assert s[5] == '\\' && s[6] == '|' && s[7] == '?' && s[8] == '*';
  }

  lemma NotLonger(c: string, a: string, b: string)
    requires a <= c && b <= c && '.' !in a && (|b| < |c| ==> c[|b|] == '.')
    ensures |a| <= |b|
  {
    assert forall i :: 0 <= i < |a| ==> c[i] == a[i] && a[i] in a;
  }

  lemma StemIs(c: string, stem: string)
    requires stem <= c && '.' !in stem && (|stem| < |c| ==> c[|stem|] == '.')
    ensures UpTo(c, {'.'}) == stem
  {
    var s := UpTo(c, {'.'});
    assert s <= c && '.' !in s && (|s| < |c| ==> c[|s|] == '.');
    hide UpTo;
    assert |s| <= |stem| by { NotLonger(c, s, stem); }
    assert |stem| <= |s| by { NotLonger(c, stem, s); }
  }

  /** An accepted path is a drive letter, a colon, a backslash and, joined by
      backslashes, valid components other than "." and "..". */
  lemma AcceptedIs(s: string)
    ensures Accepted(s) <==>
              |s| >= 3 && ('a' <= s[0] <= 'z' || 'A' <= s[0] <= 'Z') && s[1] == ':' && s[2] == '\\' &&
              (s[3..] == "" || forall c :: c in Split(s[3..]) ==> ValidComponent(c))
  {
    hide Reserved;
    if |s| >= 3 && s[1] == ':' && s[2] == '\\' && s[3..] != "" && forall c :: c in Split(s[3..]) ==> ValidComponent(c) {
      forall i | 3 <= i < |s| ensures s[i] != '/' {
        if s[i] == '/' {
          SplitHas(s[3..], i - 3);
        }
      }
      assert forall c :: c in Split(s[3..]) ==> c != "" && c != "." && c != "..";
    }
  }

  /** A character that is no separator ends up in one of the parts. */
  lemma {:induction false} SplitHas(s: string, i: nat)
    requires i < |s| && s[i] != SEPARATOR
    ensures exists c :: c in Split(s) && s[i] in c
  {
    var rest := Split(s[1..]);
    if i == 0 {
      assert Split(s)[0] == [s[0]] + rest[0] && Split(s)[0] in Split(s);
      assert s[0] in Split(s)[0];
    } else {
      SplitHas(s[1..], i - 1);
      var c :| c in rest && s[i] in c;
      var k :| 0 <= k < |rest| && rest[k] == c;
      if s[0] == SEPARATOR {
        assert Split(s)[k + 1] == c;
      } else if k == 0 {
        assert Split(s)[0] == [s[0]] + c;
        assert s[i] in Split(s)[0];
      } else {
        assert Split(s)[k] == c;
      }
    }
  }

  /** `validate_raw_release_path` */
  predicate ValidRaw(s: string) {
    |s| >= 3 && AsciiLetter(s[0]) && s[1] == ':' && s[2] == SEPARATOR && '/' !in s &&
    (s[3..] != "" ==> forall c :: c in Split(s[3..]) ==> c != "" && c != "." && c != "..")
  }

  function Names(s: string): seq<string>
    requires |s| >= 3
  {
    if s[3..] == "" then [] else Split(s[3..])
  }

  predicate Accepted(s: string) {
    ValidRaw(s) && forall c :: c in Names(s) ==> ValidComponent(c)
  }

  lemma RawIsLong(s: string)
    requires ValidRaw(s)
    ensures |s| >= 3
  {
  }

  lemma PushName(root: string, before: seq<string>, name: string)
    ensures if before == [] then root + Join(before + [name]) == root + name
            else root + Join(before + [name]) == root + Join(before) + ([SEPARATOR] + name)
  {
    if before != [] {
      JoinAppend(before, [name]);
    }
  }

  /** `release_absolute_path`: the normalized path is rebuilt name by name. */
  method ReleaseAbsolutePath(s: string) returns (r: Option<string>)
    ensures r.Some? <==> Accepted(s)
    ensures r.Some? ==> r.value == s
  {
    hide ValidComponent, ValidRaw, Split, Join;
    if !ValidRaw(s) {
      return None;
    }
    RawIsLong(s);
    var names := Names(s);
    var normalized := s[..3];
    for i := 0 to |names|
      invariant forall j :: 0 <= j < i ==> ValidComponent(names[j])
      invariant normalized == if i == 0 then s[..3] else s[..3] + Join(names[..i])
    {
      if !ValidComponent(names[i]) {
        return None;
      }
      PushName(s[..3], names[..i], names[i]);
      assert names[..i + 1] == names[..i] + [names[i]];
      normalized := normalized + if i > 0 then [SEPARATOR] + names[i] else names[i];
    }
    SplitPlain(s[3..]);
    assert names[..|names|] == names && s[..3] + s[3..] == s;
    if normalized != s {
      return None;
    }
    return Some(normalized);
  }

  // ----- the overlap test -----

  /** What `str::to_lowercase` guarantees about the separator: it is a word boundary
      and nothing else becomes one. */
  ghost predicate RespectsSeparator(lower: string -> string) {
    (forall a, b :: lower(a + [SEPARATOR] + b) == lower(a) + [SEPARATOR] + lower(b)) &&
    forall a :: SEPARATOR !in a ==> SEPARATOR !in lower(a)
  }

  function TrimEnd(s: string): string {
    if s != "" && s[|s| - 1] == SEPARATOR then TrimEnd(s[..|s| - 1]) else s
  }

  function Replaced(s: string): string {
    seq(|s|, i requires 0 <= i < |s| => if s[i] == '/' then SEPARATOR else s[i])
  }

  /** `normalized_path_key` */
  function Key(s: string, lower: string -> string): string {
    lower(TrimEnd(Replaced(s)))
  }

  /** `paths_overlap` */
  predicate PathsOverlap(first: string, second: string, lower: string -> string) {
    var a, b := Key(first, lower), Key(second, lower);
    a == b || (a <= b && [SEPARATOR] <= b[|a|..]) || (b <= a && [SEPARATOR] <= a[|b|..])
  }

  /** The case-folded components: the drive and the names. */
  ghost function Folded(s: string, lower: string -> string): (parts: seq<string>)
    requires |s| >= 3
    ensures parts != []
  {
    Lowered([s[..2]] + Names(s), lower)
  }

  ghost function Lowered(parts: seq<string>, lower: string -> string): (r: seq<string>)
    ensures |r| == |parts|
  {
    seq(|parts|, i requires 0 <= i < |parts| => lower(parts[i]))
  }

  lemma {:induction false} LowerJoin(parts: seq<string>, lower: string -> string)
    requires parts != [] && Plain(parts) && RespectsSeparator(lower)
    ensures lower(Join(parts)) == Join(Lowered(parts, lower)) && Plain(Lowered(parts, lower))
  {
    if |parts| > 1 {
      LowerJoin(parts[1..], lower);
      assert Lowered(parts, lower)[1..] == Lowered(parts[1..], lower);
    }
  }

  lemma TrimmedRoot(s: string)
    requires |s| == 3 && s[2] == SEPARATOR && s[1] == ':'
    ensures TrimEnd(s) == s[..2]
  {
    assert s[..|s| - 1] == s[..2] && s[..2][1] == ':';
  }

  /** Trimming an accepted path leaves its components, joined. */
  lemma TrimmedIsJoined(s: string)
    requires Accepted(s)
    ensures TrimEnd(Replaced(s)) == Join([s[..2]] + Names(s)) && Plain([s[..2]] + Names(s))
  {
    var tail := s[3..];
    assert Replaced(s) == s;
    assert SEPARATOR !in s[..2] by { assert s[..2] == [s[0], s[1]]; }
    assert tail != "" ==> "" !in Split(tail);
    hide ValidComponent, AsciiLetter, Split, Join;
    if tail == "" {
      TrimmedRoot(s);
      assert [s[..2]] + Names(s) == [s[..2]];
      assert Join([s[..2]]) == s[..2] by { JoinOne(s[..2]); }
    } else {
      SplitPlain(tail);
      JoinAppend([s[..2]], Names(s));
      JoinOne(s[..2]);
      assert s == s[..2] + [SEPARATOR] + tail;
      TrailingSeparator(tail);
    }
  }

  lemma JoinOne(s: string)
    ensures Join([s]) == s
  {
  }

  /** The key of an accepted path is its folded components, joined. */
  lemma KeyIsFolded(s: string, lower: string -> string)
    requires Accepted(s) && RespectsSeparator(lower)
    ensures Key(s, lower) == Join(Folded(s, lower)) && Plain(Folded(s, lower))
  {
    TrimmedIsJoined(s);
    hide ValidComponent, Split, Join, TrimEnd, Replaced;
    LowerJoin([s[..2]] + Names(s), lower);
  }

  lemma TrailingSeparator(s: string)
    ensures s != "" && s[|s| - 1] == SEPARATOR ==> "" in Split(s)
  {
    if s != "" && s[|s| - 1] == SEPARATOR {
      var front := s[..|s| - 1];
      assert s == front + [SEPARATOR] + "";
      SplitAppend(front, "");
      assert Split("")[0] == "" && Split(s)[|Split(front)|] == "";
    }
  }

  /** The textual test holds exactly when one folded component list starts the other. */
  lemma OverlapIsExact(first: string, second: string, lower: string -> string)
    requires Accepted(first) && Accepted(second) && RespectsSeparator(lower)
    ensures PathsOverlap(first, second, lower) <==>
            Folded(first, lower) <= Folded(second, lower) || Folded(second, lower) <= Folded(first, lower)
  {
    KeyIsFolded(first, lower);
    KeyIsFolded(second, lower);
    var x, y := Folded(first, lower), Folded(second, lower);
    JoinPrefix(x, y);
    JoinPrefix(y, x);
    PrefixWithSeparator(Join(x), Join(y));
    PrefixWithSeparator(Join(y), Join(x));
  }

  lemma PrefixWithSeparator(a: string, b: string)
    ensures a <= b && [SEPARATOR] <= b[|a|..] <==> a + [SEPARATOR] <= b
  {
    if a + [SEPARATOR] <= b {
      assert b[..|a|] == (a + [SEPARATOR])[..|a|] == a;
      assert b[|a|] == SEPARATOR;
    }
    if a <= b && [SEPARATOR] <= b[|a|..] {
      assert b[|a|..][0] == SEPARATOR;
      assert b[..|a| + 1] == a + [SEPARATOR];
    }
  }
}
