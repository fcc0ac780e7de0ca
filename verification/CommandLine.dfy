// The command-line printer of crates/platform-win32/src/tokens.rs and, as its
// partner, the splitting rules documented for `CommandLineToArgvW`.

module CommandLine {
  import opened Words

  type Text = seq<Unit>

  const NUL: Unit := 0
  const TAB: Unit := 9
  const SPACE: Unit := 32
  const QUOTE: Unit := 34
  const BACKSLASH: Unit := 92

  function Slashes(n: nat): (s: Text)
    ensures |s| == n && forall i :: 0 <= i < n ==> s[i] == BACKSLASH
  {
    if n == 0 then [] else [BACKSLASH] + Slashes(n - 1)
  }

  lemma {:induction false} SlashesAdd(m: nat, n: nat)
    ensures Slashes(m) + Slashes(n) == Slashes(m + n)
  {
  }

  // ----- the printer -----

  predicate NeedsQuotes(s: Text) {
    s == [] || exists i :: 0 <= i < |s| && (s[i] == SPACE || s[i] == TAB || s[i] == QUOTE)
  }

  /** The text between the quotes, with `pending` backslashes still to be written. */
  function Escaped(s: Text, pending: nat): Text {
    if s == [] then Slashes(2 * pending)
    else if s[0] == BACKSLASH then Escaped(s[1..], pending + 1)
    else if s[0] == QUOTE then Slashes(2 * pending + 1) + [QUOTE] + Escaped(s[1..], 0)
    else Slashes(pending) + [s[0]] + Escaped(s[1..], 0)
  }

  function Quoted(s: Text): Text {
    if NeedsQuotes(s) then [QUOTE] + Escaped(s, 0) + [QUOTE] else s
  }

  function Tail(arguments: seq<Text>): Text {
    if arguments == [] then [] else [SPACE] + Quoted(arguments[0]) + Tail(arguments[1..])
  }

  /** `append_quoted_argument` */
  method AppendQuotedArgument(commandLine: Text, units: Text) returns (r: Text)
    ensures r == commandLine + Quoted(units)
  {
    r := commandLine;
    if !NeedsQuotes(units) {
      return r + units;
    }
    r := r + [QUOTE];
    ghost var all := r + Escaped(units, 0);
    var backslashes := 0;
    assert units[0..] == units;
    for i := 0 to |units|
      invariant r + Escaped(units[i..], backslashes) == all
    {
      var unit := units[i];
      assert units[i..][1..] == units[i + 1..];
      if unit == BACKSLASH {
        backslashes := backslashes + 1;
        continue;
      }
      if unit == QUOTE {
        r := r + Slashes(backslashes * 2 + 1) + [unit];
      } else {
        r := r + Slashes(backslashes) + [unit];
      }
      backslashes := 0;
    }
    r := r + Slashes(backslashes * 2) + [QUOTE];
  }

  lemma {:induction false} TailAppend(arguments: seq<Text>, last: Text)
    ensures Tail(arguments + [last]) == Tail(arguments) + [SPACE] + Quoted(last)
  {
    hide Quoted;
    if arguments == [] {
      assert arguments + [last] == [last] && [last][1..] == [];
    } else {
      TailAppend(arguments[1..], last);
      assert (arguments + [last])[1..] == arguments[1..] + [last];
    }
  }

  /** `build_windows_command_line` */
  method BuildWindowsCommandLine(application: Text, arguments: seq<Text>) returns (line: Text)
    ensures line == Quoted(application) + Tail(arguments) + [NUL]
  {
    hide Quoted;
    line := AppendQuotedArgument([], application);
    for i := 0 to |arguments|
      invariant line == Quoted(application) + Tail(arguments[..i])
    {
      TailAppend(arguments[..i], arguments[i]);
      assert arguments[..i + 1] == arguments[..i] + [arguments[i]];
      line := line + [SPACE];
      line := AppendQuotedArgument(line, arguments[i]);
    }
    assert arguments[..|arguments|] == arguments;
    line := line + [NUL];
  }

  // ----- the splitter -----

  // The rules are stated with the code units written out.

  /** Space or tab. */
  predicate Blank(u: Unit) {
    u == 32 || u == 9
  }

  datatype Scanned = Scanned(argument: Text, rest: Text)

  /** One argument: 2n backslashes before a quote are n backslashes and the quote
      delimits, 2n+1 are n backslashes and a literal quote, other backslashes are
      literal. `doubled`: inside quotes a doubled quote is a literal quote. */
  function Scan(s: Text, quoted: bool, slashes: nat, sofar: Text, doubled: bool): Scanned
    decreases |s|
  {
    if s == [] then Scanned(sofar + Slashes(slashes), s)
    else if s[0] == 92 then Scan(s[1..], quoted, slashes + 1, sofar, doubled)
    else if s[0] == 34 then
      var kept := sofar + Slashes(slashes / 2);
      if slashes % 2 == 1 then Scan(s[1..], quoted, 0, kept + [34], doubled)
      else if doubled && quoted && |s| > 1 && s[1] == 34 then Scan(s[2..], quoted, 0, kept + [34], doubled)
      else Scan(s[1..], !quoted, 0, kept, doubled)
    else if Blank(s[0]) && !quoted then Scanned(sofar + Slashes(slashes), s)
    else Scan(s[1..], quoted, 0, sofar + Slashes(slashes) + [s[0]], doubled)
  }

  lemma {:induction false} ScanShortens(s: Text, quoted: bool, slashes: nat, sofar: Text, doubled: bool)
    ensures var r := Scan(s, quoted, slashes, sofar, doubled).rest;
            |r| <= |s| && (s != [] && (quoted || !Blank(s[0])) ==> |r| < |s|)
    decreases |s|
  {
    if s != [] {
      if s[0] == 34 && |s| > 1 {
        ScanShortens(s[2..], quoted, 0, sofar + Slashes(slashes / 2) + [34], doubled);
        ScanShortens(s[1..], !quoted, 0, sofar + Slashes(slashes / 2), doubled);
      }
      ScanShortens(s[1..], quoted, slashes + 1, sofar, doubled);
      ScanShortens(s[1..], quoted, 0, sofar + Slashes(slashes / 2) + [34], doubled);
      ScanShortens(s[1..], quoted, 0, sofar + Slashes(slashes) + [s[0]], doubled);
    }
  }

  function Arguments(s: Text, doubled: bool): seq<Text>
    decreases |s|
  {
    if s == [] then []
    else if Blank(s[0]) then Arguments(s[1..], doubled)
    else
      ScanShortens(s, false, 0, [], doubled);
      var one := Scan(s, false, 0, [], doubled);
      [one.argument] + Arguments(one.rest, doubled)
  }

  /** `CommandLineToArgvW`: the program name knows no escapes. */
  function Split(line: Text, doubled: bool): seq<Text> {
    var s := UpTo(line, {0});
    if s == [] then []
    else if s[0] == 34 then
      var program := UpTo(s[1..], {34});
      [program] + Arguments(if |program| + 1 < |s| then s[|program| + 2..] else [], doubled)
    else
      var program := UpTo(s, {32, 9});
      [program] + Arguments(s[|program|..], doubled)
  }

  // ----- the round trip -----

  lemma {:induction false} UpToIs(a: Text, tail: Text, stops: set<Unit>)
    requires (forall u :: u in a ==> u !in stops) && (tail == [] || tail[0] in stops)
    ensures UpTo(a + tail, stops) == a
  {
    if a == [] {
      assert a + tail == tail;
    } else {
      assert (a + tail)[1..] == a[1..] + tail;
      UpToIs(a[1..], tail, stops);
    }
  }

  /** A run of backslashes is counted. */
  lemma {:induction false} ScanSlashes(k: nat, s: Text, quoted: bool, slashes: nat, sofar: Text, doubled: bool)
    ensures Scan(Slashes(k) + s, quoted, slashes, sofar, doubled) == Scan(s, quoted, slashes + k, sofar, doubled)
    decreases k
  {
    if k == 0 {
      assert Slashes(0) + s == s;
    } else {
      assert (Slashes(k) + s)[1..] == Slashes(k - 1) + s;
      ScanSlashes(k - 1, s, quoted, slashes + 1, sofar, doubled);
    }
  }

  predicate Ends(tail: Text) {
    tail == [] || tail[0] == SPACE
  }

  lemma ScanUnit(n: nat, u: Unit, rest: Text, sofar: Text, doubled: bool)
    requires u != QUOTE && u != BACKSLASH
    ensures Scan(Slashes(n) + [u] + rest, true, 0, sofar, doubled) ==
            Scan(rest, true, 0, sofar + Slashes(n) + [u], doubled)
  {
    var s := [u] + rest;
    assert Slashes(n) + [u] + rest == Slashes(n) + s && s[1..] == rest;
    ScanSlashes(n, s, true, 0, sofar, doubled);
  }

  lemma ScanLiteralQuote(n: nat, rest: Text, sofar: Text, doubled: bool)
    ensures Scan(Slashes(2 * n + 1) + [QUOTE] + rest, true, 0, sofar, doubled) ==
            Scan(rest, true, 0, sofar + Slashes(n) + [QUOTE], doubled)
  {
    var s := [QUOTE] + rest;
    assert Slashes(2 * n + 1) + [QUOTE] + rest == Slashes(2 * n + 1) + s && s[1..] == rest;
    ScanSlashes(2 * n + 1, s, true, 0, sofar, doubled);
  }

  lemma ScanClose(n: nat, tail: Text, sofar: Text, doubled: bool)
    requires Ends(tail)
    ensures Scan(Slashes(2 * n) + [QUOTE] + tail, true, 0, sofar, doubled) == Scanned(sofar + Slashes(n), tail)
  {
    var s := [QUOTE] + tail;
    assert Slashes(2 * n) + [QUOTE] + tail == Slashes(2 * n) + s && s[1..] == tail;
    ScanSlashes(2 * n, s, true, 0, sofar, doubled);
    assert sofar + Slashes(n) + Slashes(0) == sofar + Slashes(n);
  }

  /** Scanning what was escaped gives it back. */
  lemma {:induction false} ScanEscaped(s: Text, pending: nat, tail: Text, sofar: Text, doubled: bool)
    requires Ends(tail)
    ensures Scan(Escaped(s, pending) + [QUOTE] + tail, true, 0, sofar, doubled) ==
            Scanned(sofar + Slashes(pending) + s, tail)
    decreases |s|
  {
    hide Scan, Ends;
    if s == [] {
      ScanClose(pending, tail, sofar, doubled);
      assert sofar + Slashes(pending) + s == sofar + Slashes(pending);
    } else if s[0] == BACKSLASH {
      ScanEscaped(s[1..], pending + 1, tail, sofar, doubled);
      PendingSlash(sofar, pending, s);
    } else {
      var rest := Escaped(s[1..], 0) + [QUOTE] + tail;
      if s[0] == QUOTE {
        assert Escaped(s, pending) + [QUOTE] + tail == Slashes(2 * pending + 1) + [QUOTE] + rest;
        ScanLiteralQuote(pending, rest, sofar, doubled);
      } else {
        assert Escaped(s, pending) + [QUOTE] + tail == Slashes(pending) + [s[0]] + rest;
        ScanUnit(pending, s[0], rest, sofar, doubled);
      }
      ScanEscaped(s[1..], 0, tail, sofar + Slashes(pending) + [s[0]], doubled);
      NothingPending(sofar + Slashes(pending), s);
    }
  }

  lemma PendingSlash(sofar: Text, pending: nat, s: Text)
    requires s != [] && s[0] == BACKSLASH
    ensures sofar + Slashes(pending + 1) + s[1..] == sofar + Slashes(pending) + s
  {
    SlashesAdd(pending, 1);
    assert Slashes(1) == [s[0]] && s == [s[0]] + s[1..];
    assert Slashes(pending + 1) + s[1..] == Slashes(pending) + s;
  }

  lemma NothingPending(before: Text, s: Text)
    requires s != []
    ensures before + [s[0]] + Slashes(0) + s[1..] == before + s
  {
    assert s == [s[0]] + s[1..];
  }

  /** An argument without blanks or quotes is taken as it stands. */
  lemma {:induction false} ScanPlain(s: Text, slashes: nat, tail: Text, sofar: Text, doubled: bool)
    requires Ends(tail) && forall i :: 0 <= i < |s| ==> !Blank(s[i]) && s[i] != QUOTE
    ensures Scan(s + tail, false, slashes, sofar, doubled) == Scanned(sofar + Slashes(slashes) + s, tail)
    decreases |s|
  {
    if s == [] {
      assert s + tail == tail && sofar + Slashes(slashes) + s == sofar + Slashes(slashes);
    } else {
      assert (s + tail)[1..] == s[1..] + tail;
      if s[0] == BACKSLASH {
        ScanPlain(s[1..], slashes + 1, tail, sofar, doubled);
        PendingSlash(sofar, slashes, s);
      } else {
        ScanPlain(s[1..], 0, tail, sofar + Slashes(slashes) + [s[0]], doubled);
        NothingPending(sofar + Slashes(slashes), s);
      }
    }
  }

  lemma ScanOpen(rest: Text, doubled: bool)
    ensures Scan([QUOTE] + rest, false, 0, [], doubled) == Scan(rest, true, 0, [], doubled)
  {
    assert ([QUOTE] + rest)[1..] == rest && [] + Slashes(0) == [];
  }

  lemma ScanQuoted(s: Text, tail: Text, doubled: bool)
    requires Ends(tail)
    ensures Scan(Quoted(s) + tail, false, 0, [], doubled) == Scanned(s, tail)
    ensures Quoted(s) != [] && !Blank(Quoted(s)[0])
  {
    hide Escaped;
    assert [] + Slashes(0) + s == s;
    if NeedsQuotes(s) {
      var rest := Escaped(s, 0) + [QUOTE] + tail;
      ScanOpen(rest, doubled);
      assert Quoted(s) + tail == [QUOTE] + rest;
      hide Scan;
      ScanEscaped(s, 0, tail, [], doubled);
    } else {
      hide Scan;
      ScanPlain(s, 0, tail, [], doubled);
    }
  }

  lemma NoArguments(doubled: bool)
    ensures Arguments([], doubled) == []
  {
  }

  lemma OneArgument(printed: Text, argument: Text, tail: Text, doubled: bool)
    requires printed != [] && !Blank(printed[0])
    requires Scan(printed + tail, false, 0, [], doubled) == Scanned(argument, tail)
    ensures Arguments([SPACE] + printed + tail, doubled) == [argument] + Arguments(tail, doubled)
  {
    hide Scan;
    var s := [SPACE] + printed + tail;
    assert s[0] == SPACE && s[1..] == printed + tail && s[1] == printed[0];
  }

  /** Every argument list survives. */
  lemma {:induction false} ArgumentsRoundTrip(arguments: seq<Text>, doubled: bool)
    ensures Arguments(Tail(arguments), doubled) == arguments
    ensures Ends(Tail(arguments))
  {
    hide Scan, Quoted, Arguments;
    if arguments == [] {
      assert Arguments([], doubled) == [] by { NoArguments(doubled); }
    } else {
      var tail := Tail(arguments[1..]);
      ArgumentsRoundTrip(arguments[1..], doubled);
      ScanQuoted(arguments[0], tail, doubled);
      OneArgument(Quoted(arguments[0]), arguments[0], tail, doubled);
      assert arguments == [arguments[0]] + arguments[1..];
    }
  }

  // ----- exactly when a whole command line survives -----

  function Line(application: Text, arguments: seq<Text>): Text {
    Quoted(application) + Tail(arguments) + [NUL]
  }

  /** No text holds a NUL, and the program name, which knows no escapes, holds no
      quote and does not end in a backslash when it has to be quoted. */
  predicate Survives(application: Text, arguments: seq<Text>) {
    0 !in application && (forall a :: a in arguments ==> 0 !in a) && 34 !in application &&
    (32 in application || 9 in application ==> application[|application| - 1] != 92)
  }

  /** The backslashes at the end of `pending` backslashes and `s`. */
  function Trailing(s: Text, pending: nat): nat {
    if s == [] then pending else Trailing(s[1..], if s[0] == BACKSLASH then pending + 1 else 0)
  }

  lemma {:induction false} TrailingIs(s: Text, pending: nat)
    requires s != []
    ensures Trailing(s, pending) > 0 <==> s[|s| - 1] == BACKSLASH
  {
    if |s| > 1 {
      TrailingIs(s[1..], if s[0] == BACKSLASH then pending + 1 else 0);
    }
  }

  /** Without quotes only the trailing backslashes are written twice. */
  lemma {:induction false} EscapedWithoutQuotes(s: Text, pending: nat)
    requires QUOTE !in s
    ensures Escaped(s, pending) == Slashes(pending) + s + Slashes(Trailing(s, pending))
    decreases |s|
  {
    if s == [] {
      SlashesAdd(pending, pending);
      assert Slashes(pending) + s == Slashes(pending);
    } else if s[0] == BACKSLASH {
      EscapedWithoutQuotes(s[1..], pending + 1);
      PendingSlash([], pending, s);
      assert [] + Slashes(pending + 1) == Slashes(pending + 1) && [] + Slashes(pending) == Slashes(pending);
    } else {
      EscapedWithoutQuotes(s[1..], 0);
      NothingPending(Slashes(pending), s);
      var t := Slashes(Trailing(s[1..], 0));
      assert Slashes(pending) + [s[0]] + (Slashes(0) + s[1..] + t) == Slashes(pending) + [s[0]] + Slashes(0) + s[1..] + t;
    }
  }

  lemma {:induction false} EscapedNulFree(s: Text, pending: nat)
    requires NUL !in s
    ensures NUL !in Escaped(s, pending)
    decreases |s|
  {
    if s != [] {
      if s[0] == BACKSLASH {
        EscapedNulFree(s[1..], pending + 1);
      } else {
        EscapedNulFree(s[1..], 0);
      }
    }
  }

  lemma QuotedNulFree(s: Text)
    requires NUL !in s
    ensures NUL !in Quoted(s)
  {
    EscapedNulFree(s, 0);
  }

  lemma {:induction false} TailNulFree(arguments: seq<Text>)
    requires forall a :: a in arguments ==> NUL !in a
    ensures NUL !in Tail(arguments)
  {
    if arguments != [] {
      assert arguments[0] in arguments;
      QuotedNulFree(arguments[0]);
      TailNulFree(arguments[1..]);
    }
  }

  /** What reaches the splitter before the terminator. */
  lemma Terminated(application: Text, arguments: seq<Text>)
    requires NUL !in application && forall a :: a in arguments ==> NUL !in a
    ensures UpTo(Line(application, arguments), {NUL}) == Quoted(application) + Tail(arguments)
  {
    QuotedNulFree(application);
    TailNulFree(arguments);
    UpToIs(Quoted(application) + Tail(arguments), [NUL], {NUL});
  }

  lemma SplitPlainProgram(application: Text, arguments: seq<Text>, doubled: bool)
    requires NUL !in application && (forall a :: a in arguments ==> NUL !in a) && !NeedsQuotes(application)
    ensures Split(Line(application, arguments), doubled) == [application] + arguments
  {
    Terminated(application, arguments);
    ArgumentsRoundTrip(arguments, doubled);
    UpToIs(application, Tail(arguments), {SPACE, TAB});
    assert (application + Tail(arguments))[|application|..] == Tail(arguments);
  }

  /** The program name comes out as it was escaped: backslashes are not halved. */
  lemma SplitQuotedProgram(application: Text, arguments: seq<Text>, doubled: bool)
    requires NUL !in application && (forall a :: a in arguments ==> NUL !in a)
    requires NeedsQuotes(application) && QUOTE !in application
    ensures Split(Line(application, arguments), doubled) == [Escaped(application, 0)] + arguments
    ensures Escaped(application, 0) == application + Slashes(Trailing(application, 0))
  {
    var program, tail := Escaped(application, 0), Tail(arguments);
    Terminated(application, arguments);
    ArgumentsRoundTrip(arguments, doubled);
    EscapedWithoutQuotes(application, 0);
    assert Slashes(0) + application == application;
    NoQuoteInSlashes(application, Trailing(application, 0));
    hide Scan, Escaped, Trailing, Tail, Slashes, NeedsQuotes;
    assert Quoted(application) + tail == [QUOTE] + program + [QUOTE] + tail;
    SplitAtQuotes(Line(application, arguments), program, tail, doubled);
  }

  lemma NoQuoteInSlashes(s: Text, n: nat)
    requires QUOTE !in s
    ensures QUOTE !in s + Slashes(n)
  {
  }

  lemma SplitAtQuotes(line: Text, program: Text, tail: Text, doubled: bool)
    requires UpTo(line, {NUL}) == [QUOTE] + program + [QUOTE] + tail && QUOTE !in program
    ensures Split(line, doubled) == [program] + Arguments(tail, doubled)
  {
    hide Arguments;
    var s := [QUOTE] + program + [QUOTE] + tail;
    assert s[1..] == program + ([QUOTE] + tail) && s[|program| + 2..] == tail;
    UpToIs(program, [QUOTE] + tail, {QUOTE});
  }

  lemma {:induction false} ScanNulFree(s: Text, quoted: bool, slashes: nat, sofar: Text, doubled: bool)
    requires NUL !in s && NUL !in sofar
    ensures var r := Scan(s, quoted, slashes, sofar, doubled); NUL !in r.argument && NUL !in r.rest
    decreases |s|
  {
    if s != [] {
      if s[0] == QUOTE && |s| > 1 {
        ScanNulFree(s[2..], quoted, 0, sofar + Slashes(slashes / 2) + [QUOTE], doubled);
      }
      if s[0] == QUOTE {
        ScanNulFree(s[1..], !quoted, 0, sofar + Slashes(slashes / 2), doubled);
        ScanNulFree(s[1..], quoted, 0, sofar + Slashes(slashes / 2) + [QUOTE], doubled);
      } else if s[0] == BACKSLASH {
        ScanNulFree(s[1..], quoted, slashes + 1, sofar, doubled);
      } else {
        ScanNulFree(s[1..], quoted, 0, sofar + Slashes(slashes) + [s[0]], doubled);
      }
    }
  }

  lemma {:induction false} ArgumentsNulFree(s: Text, doubled: bool)
    requires NUL !in s
    ensures forall a :: a in Arguments(s, doubled) ==> NUL !in a
    decreases |s|
  {
    if s != [] {
      if Blank(s[0]) {
        ArgumentsNulFree(s[1..], doubled);
      } else {
        ScanShortens(s, false, 0, [], doubled);
        ScanNulFree(s, false, 0, [], doubled);
        ArgumentsNulFree(Scan(s, false, 0, [], doubled).rest, doubled);
      }
    }
  }

  lemma SplitNulFree(line: Text, doubled: bool)
    ensures forall a :: a in Split(line, doubled) ==> NUL !in a
  {
    hide Arguments, Scan;
    var s := UpTo(line, {NUL});
    assert NUL !in s;
    if s != [] {
      if s[0] == QUOTE {
        var program := UpTo(s[1..], {QUOTE});
        ArgumentsNulFree(if |program| + 1 < |s| then s[|program| + 2..] else [], doubled);
      } else {
        ArgumentsNulFree(s[|UpTo(s, {SPACE, TAB})|..], doubled);
      }
    }
  }

  lemma QuotedProgramNameHasNoQuote(application: Text, arguments: seq<Text>, doubled: bool)
    requires QUOTE in application
    ensures Split(Line(application, arguments), doubled) != []
    ensures QUOTE !in Split(Line(application, arguments), doubled)[0]
  {
    assert NeedsQuotes(application);
    assert Line(application, arguments)[0] == QUOTE;
  }

  /** The command line splits into what it was built from exactly when it `Survives`. */
  lemma RoundTrip(application: Text, arguments: seq<Text>, doubled: bool)
    ensures Split(Line(application, arguments), doubled) == [application] + arguments <==>
            Survives(application, arguments)
  {
    var split := Split(Line(application, arguments), doubled);
    var all := [application] + arguments;
    assert forall a :: a in all <==> a == application || a in arguments;
    SplitNulFree(Line(application, arguments), doubled);
    if NUL !in application && forall a :: a in arguments ==> NUL !in a {
      if QUOTE in application {
        QuotedProgramNameHasNoQuote(application, arguments, doubled);
        assert all[0] == application;
      } else if NeedsQuotes(application) {
        SplitQuotedProgram(application, arguments, doubled);
        assert split[0] == Escaped(application, 0) && all[0] == application;
        if application != [] {
          TrailingIs(application, 0);
        }
        assert Trailing(application, 0) == 0 ==> Slashes(0) == [] && application + [] == application;
      } else {
        SplitPlainProgram(application, arguments, doubled);
      }
    }
  }
}
