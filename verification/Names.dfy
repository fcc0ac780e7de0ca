// File names as UTF-16 code units, how they are displayed, and the order in which
// crates/platform-win32/src/secure_fs.rs lists them. A name stands for its
// case-folded form.

module Names {
  import opened Words

  type Name = seq<Unit>

  predicate High(u: Unit) {
    0xD800 <= u < 0xDC00
  }

  predicate Low(u: Unit) {
    0xDC00 <= u < 0xE000
  }

  /** The scalar value of a surrogate pair. */
  function Scalar(high: Unit, low: Unit): (c: char)
    requires High(high) && Low(low)
    ensures c as int == 0x1_0000 + 0x400 * (high - 0xD800) + (low - 0xDC00)
  {
    var h: int, l: int := high, low;
    (0x1_0000 + 0x400 * (h - 0xD800) + (l - 0xDC00)) as char
  }

  const REPLACEMENT: char := '\U{FFFD}'

  /** `to_string_lossy`: every unpaired surrogate is displayed as U+FFFD. */
  function Display(n: Name): string {
    if n == [] then ""
    else if |n| > 1 && High(n[0]) && Low(n[1]) then [Scalar(n[0], n[1])] + Display(n[2..])
    else if High(n[0]) || Low(n[0]) then [REPLACEMENT] + Display(n[1..])
    else [n[0] as char] + Display(n[1..])
  }

  /** The name holds no unpaired surrogate. */
  predicate Paired(n: Name) {
    n == [] ||
    if |n| > 1 && High(n[0]) && Low(n[1]) then Paired(n[2..])
    else !High(n[0]) && !Low(n[0]) && Paired(n[1..])
  }

  /** Without unpaired surrogates the displayed name tells names apart. */
  lemma {:induction false} DisplayInjective(a: Name, b: Name)
    requires Paired(a) && Paired(b) && Display(a) == Display(b)
    ensures a == b
    decreases |a|
  {
    if a != [] && b != [] {
      var x, y := Display(a), Display(b);
      if |a| > 1 && High(a[0]) && Low(a[1]) {
        assert x[0] == Scalar(a[0], a[1]) && x[1..] == Display(a[2..]);
        assert b[0] < 0x1_0000 && x[0] as int >= 0x1_0000;
        assert y[0] == Scalar(b[0], b[1]) && y[1..] == Display(b[2..]);
        DisplayInjective(a[2..], b[2..]);
        assert a == [a[0], a[1]] + a[2..] && b == [b[0], b[1]] + b[2..];
      } else {
        assert x[0] as int == a[0] && x[1..] == Display(a[1..]);
        assert y[0] as int < 0x1_0000;
        assert y[0] as int == b[0] && y[1..] == Display(b[1..]);
        DisplayInjective(a[1..], b[1..]);
        assert a == [a[0]] + a[1..] && b == [b[0]] + b[1..];
      }
    }
  }

  lemma {:induction false} PairedAppend(a: Name, b: Name)
    requires Paired(a) && Paired(b)
    ensures Paired(a + b)
    decreases |a|
  {
    if a == [] {
      assert a + b == b;
    } else if |a| > 1 && High(a[0]) && Low(a[1]) {
      PairedAppend(a[2..], b);
      assert (a + b)[2..] == a[2..] + b;
    } else {
      PairedAppend(a[1..], b);
      assert (a + b)[1..] == a[1..] + b;
    }
  }

  /** A character below the surrogates is displayed only where it stands. */
  lemma {:induction false} DisplayShows(n: Name, u: Unit)
    requires u < 0xD800 && u as char in Display(n)
    ensures u in n
    decreases |n|
  {
    if n != [] {
      var step := if |n| > 1 && High(n[0]) && Low(n[1]) then 2 else 1;
      if u as char == Display(n)[0] {
        assert u == n[0];
      } else {
        assert Display(n)[1..] == Display(n[step..]);
        assert u as char in Display(n)[1..];
        DisplayShows(n[step..], u);
      }
    }
  }

  lemma {:induction false} ReadableIsPaired(n: Name)
    requires REPLACEMENT !in Display(n)
    ensures Paired(n)
    decreases |n|
  {
    if n != [] {
      var step := if |n| > 1 && High(n[0]) && Low(n[1]) then 2 else 1;
      assert Display(n)[0] in Display(n) && Display(n)[1..] == Display(n[step..]);
      ReadableIsPaired(n[step..]);
    }
  }

  /** Another name that is displayed alike, if one of its characters is displayed as U+FFFD. */
  function Lookalike(n: Name): Name {
    if n == [] then []
    else if |n| > 1 && High(n[0]) && Low(n[1]) then n[..2] + Lookalike(n[2..])
    else if High(n[0]) || Low(n[0]) then [0xFFFD] + n[1..]
    else if n[0] == 0xFFFD && !(|n| > 1 && Low(n[1])) then [0xD800] + n[1..]
    else n[..1] + Lookalike(n[1..])
  }

  lemma {:induction false} LooksAlike(n: Name)
    requires REPLACEMENT in Display(n)
    ensures Display(Lookalike(n)) == Display(n) && Lookalike(n) != n
    ensures forall u :: u in Lookalike(n) ==> u in n || u >= 0xD800
    decreases |n|
  {
    var m := Lookalike(n);
    if |n| > 1 && High(n[0]) && Low(n[1]) {
      LooksAlike(n[2..]);
      assert m[2..] == Lookalike(n[2..]) && n[2..] != m[2..];
    } else if High(n[0]) || Low(n[0]) {
      assert m[1..] == n[1..] && m[0] != n[0];
    } else if n[0] == 0xFFFD && !(|n| > 1 && Low(n[1])) {
      assert m[1..] == n[1..] && m[0] != n[0];
    } else {
      assert Display(n)[1..] == Display(n[1..]);
      if n[0] == 0xFFFD {
        assert Display(n[1..])[0] == REPLACEMENT;
      }
      LooksAlike(n[1..]);
      assert m[1..] == Lookalike(n[1..]) && n[1..] != m[1..];
    }
  }

  /** A name is displayed like no other exactly when U+FFFD is not displayed. */
  lemma DisplayTellsApart(n: Name)
    ensures (forall m :: Display(m) == Display(n) ==> m == n) <==> REPLACEMENT !in Display(n)
  {
    if REPLACEMENT in Display(n) {
      LooksAlike(n);
    } else {
      forall m | Display(m) == Display(n) ensures m == n {
        ReadableIsPaired(m);
        ReadableIsPaired(n);
        DisplayInjective(m, n);
      }
    }
  }

  /** The display of a name is that of its parts, unless a surrogate pair is cut. */
  lemma {:induction false} DisplayAppend(a: Name, b: Name)
    requires b != [] ==> !Low(b[0])
    ensures Display(a + b) == Display(a) + Display(b)
    decreases |a|
  {
    if a == [] {
      assert a + b == b;
    } else {
      var step, s := if |a| > 1 && High(a[0]) && Low(a[1]) then 2 else 1, a + b;
      assert s[step..] == a[step..] + b && s[0] == a[0];
      DisplayAppend(a[step..], b);
      if |a| > 1 { assert s[1] == a[1]; }
    }
  }

  // Two names that differ only in an unpaired surrogate.
  const TWIN: Name := [0x61, 0xD800]
  const OTHER_TWIN: Name := [0x61, 0xD801]

  lemma TwinsLookAlike()
    ensures TWIN != OTHER_TWIN && Display(TWIN) == Display(OTHER_TWIN) && !Paired(TWIN)
  {
    assert TWIN[1..] == [0xD800] && TWIN[1..][1..] == [];
    assert OTHER_TWIN[1..] == [0xD801] && OTHER_TWIN[1..][1..] == [];
    assert Display([0xD800]) == [REPLACEMENT] + Display([]) && Display([0xD801]) == [REPLACEMENT] + Display([]);
    assert TWIN[1] != OTHER_TWIN[1];
  }

  // ----- the order of a listing -----

  /** The order of sort keys. */
  predicate Below(a: string, b: string) {
    b != [] && (a == [] || a[0] < b[0] || (a[0] == b[0] && Below(a[1..], b[1..])))
  }

  lemma {:induction false} BelowTotal(a: string, b: string)
    ensures !(Below(a, b) && Below(b, a)) && (a == b <==> !Below(a, b) && !Below(b, a))
  {
    if a != [] && b != [] {
      BelowTotal(a[1..], b[1..]);
      assert a == [a[0]] + a[1..] && b == [b[0]] + b[1..];
    }
  }

  lemma {:induction false} BelowTransitive(a: string, b: string, c: string)
    requires Below(a, b) && Below(b, c)
    ensures Below(a, c)
  {
    if a != [] && a[0] == b[0] && b[0] == c[0] {
      BelowTransitive(a[1..], b[1..], c[1..]);
    }
  }

  ghost predicate Enumerates(names: seq<Name>, s: set<Name>) {
    forall n :: n in names <==> n in s
  }

  ghost predicate Distinct(names: seq<Name>) {
    forall i, j :: 0 <= i < j < |names| ==> names[i] != names[j]
  }

  /** No later key is below an earlier one. */
  ghost predicate Ordered(names: seq<Name>) {
    forall i, j :: 0 <= i < j < |names| ==> !Below(Display(names[j]), Display(names[i]))
  }

  /** No two of the names have the same key. */
  ghost predicate KeysDiffer(names: seq<Name>) {
    forall a, b :: a in names && b in names && Display(a) == Display(b) ==> a == b
  }

  /** A name goes behind the names whose key is not above its own. */
  function Inserted(sorted: seq<Name>, name: Name): seq<Name> {
    if sorted == [] || Below(Display(name), Display(sorted[0])) then [name] + sorted
    else [sorted[0]] + Inserted(sorted[1..], name)
  }

  /** `sort_by_key`, stable: names with equal keys stay in the order they came. */
  function Sorted(names: seq<Name>): seq<Name> {
    if names == [] then [] else Inserted(Sorted(names[..|names| - 1]), names[|names| - 1])
  }

  lemma {:induction false} InsertedSorts(sorted: seq<Name>, name: Name)
    requires Ordered(sorted)
    ensures Ordered(Inserted(sorted, name)) && multiset(Inserted(sorted, name)) == multiset(sorted) + multiset{name}
  {
    if sorted != [] {
      var first, rest := sorted[0], sorted[1..];
      assert sorted == [first] + rest;
      if Below(Display(name), Display(first)) {
        forall j | 0 <= j < |sorted| ensures !Below(Display(sorted[j]), Display(name)) {
          BelowTotal(Display(name), Display(first));
          if Below(Display(sorted[j]), Display(name)) {
            BelowTransitive(Display(sorted[j]), Display(name), Display(first));
          }
        }
      } else {
        var longer := Inserted(rest, name);
        InsertedSorts(rest, name);
        forall j | 0 <= j < |longer| ensures !Below(Display(longer[j]), Display(first)) {
          assert longer[j] in multiset(longer);
          assert longer[j] == name || longer[j] in rest;
        }
      }
    }
  }

  /** Sorting orders the names and keeps each of them. */
  lemma {:induction false} SortedSorts(names: seq<Name>)
    ensures Ordered(Sorted(names)) && multiset(Sorted(names)) == multiset(names)
  {
    if names != [] {
      var rest, last := names[..|names| - 1], names[|names| - 1];
      assert names == rest + [last];
      SortedSorts(rest);
      InsertedSorts(Sorted(rest), last);
    }
  }

  lemma SortedEnumerates(names: seq<Name>, s: set<Name>)
    requires Enumerates(names, s) && Distinct(names)
    ensures Enumerates(Sorted(names), s) && Distinct(Sorted(names))
  {
    SortedSorts(names);
    SameMembers(Sorted(names), names);
  }

  lemma SameMembers(a: seq<Name>, b: seq<Name>)
    requires multiset(a) == multiset(b)
    ensures forall n :: n in a <==> n in b
    ensures Distinct(b) ==> Distinct(a)
  {
    forall n ensures n in a <==> n in b {
      assert n in a <==> n in multiset(a);
      assert n in b <==> n in multiset(b);
    }
    if Distinct(b) {
      forall i, j | 0 <= i < j < |a| ensures a[i] != a[j] {
        AtMostOnce(b, a[i]);
        TwiceIn(a, i, j);
      }
    }
  }

  lemma {:induction false} AtMostOnce(names: seq<Name>, n: Name)
    requires Distinct(names)
    ensures multiset(names)[n] <= 1
  {
    if names != [] {
      var rest, last := names[..|names| - 1], names[|names| - 1];
      assert names == rest + [last];
      AtMostOnce(rest, n);
      if n == last {
        assert n !in rest;
      }
    }
  }

  lemma TwiceIn(names: seq<Name>, i: nat, j: nat)
    requires i < j < |names|
    ensures names[i] == names[j] ==> multiset(names)[names[i]] >= 2
  {
    assert names == names[..i] + [names[i]] + names[i + 1..j] + [names[j]] + names[j + 1..];
  }

  /** Names that are displayed differently have one sorted list. */
  lemma OneOrder(a: seq<Name>, b: seq<Name>)
    requires Distinct(a) && Distinct(b) && (forall n :: n in a <==> n in b) && KeysDiffer(a)
    ensures Sorted(a) == Sorted(b)
  {
    SortedSorts(a);
    SortedSorts(b);
    SameMembers(Sorted(a), a);
    SameMembers(Sorted(b), b);
    OrderedUnique(Sorted(a), Sorted(b));
  }

  lemma {:induction false} OrderedUnique(a: seq<Name>, b: seq<Name>)
    requires Ordered(a) && Ordered(b) && Distinct(a) && Distinct(b) && KeysDiffer(a)
    requires forall n :: n in a <==> n in b
    ensures a == b
  {
    if a == [] || b == [] {
      if a != [] { HeadIn(a); }
      if b != [] { HeadIn(b); }
    } else {
      SameLeast(a, b);
      var a', b' := a[1..], b[1..];
      assert a == [a[0]] + a' && b == [b[0]] + b';
      assert a[0] !in a' && b[0] !in b';
      forall n ensures n in a' <==> n in b' {
        assert n in a' <==> n in a && n != a[0];
        assert n in b' <==> n in b && n != b[0];
      }
      OrderedUnique(a', b');
    }
  }

  lemma HeadIn(a: seq<Name>)
    requires a != []
    ensures a[0] in a
  {
  }

  lemma SameLeast(a: seq<Name>, b: seq<Name>)
    requires Ordered(a) && Ordered(b) && KeysDiffer(a) && (forall n :: n in a <==> n in b) && a != [] && b != []
    ensures a[0] == b[0]
  {
    HeadIn(a);
    HeadIn(b);
    BelowTotal(Display(a[0]), Display(b[0]));
  }

  lemma {:induction false} SortedStays(names: seq<Name>)
    requires Ordered(names)
    ensures Sorted(names) == names
  {
    if names != [] {
      var rest, last := names[..|names| - 1], names[|names| - 1];
      SortedStays(rest);
      InsertedLast(rest, last);
      assert names == rest + [last];
    }
  }

  lemma {:induction false} InsertedLast(sorted: seq<Name>, name: Name)
    requires forall i :: 0 <= i < |sorted| ==> !Below(Display(name), Display(sorted[i]))
    ensures Inserted(sorted, name) == sorted + [name]
  {
    if sorted != [] {
      InsertedLast(sorted[1..], name);
      assert sorted == [sorted[0]] + sorted[1..];
    }
  }

  lemma SwappedStays(s: seq<Name>, i: nat, j: nat)
    requires i < |s| && j < |s| && Display(s[i]) == Display(s[j]) && Ordered(s) && s[i] != s[j]
    ensures Ordered(s[i := s[j]][j := s[i]]) && s[i := s[j]][j := s[i]] != s
    ensures multiset(s[i := s[j]][j := s[i]]) == multiset(s)
  {
    hide Display, Below;
    assert s[i := s[j]][j := s[i]][i] != s[i];
    var t := s[i := s[j]][j := s[i]];
    assert forall k :: 0 <= k < |s| ==> Display(t[k]) == Display(s[k]);
  }

  /** Two lookalikes can come in an order that changes the sorted list. */
  lemma OrderMatters(names: seq<Name>) returns (other: seq<Name>)
    requires Distinct(names) && !KeysDiffer(names)
    ensures multiset(other) == multiset(names) && Sorted(other) != Sorted(names)
  {
    hide Display, Sorted, Ordered, Distinct;
    SortedSorts(names);
    var s := Sorted(names);
    SameMembers(s, names);
    var a, b :| a in names && b in names && Display(a) == Display(b) && a != b;
    assert a in s && b in s;
    var i :| 0 <= i < |s| && s[i] == a;
    var j :| 0 <= j < |s| && s[j] == b;
    other := s[i := b][j := a];
    SwappedStays(s, i, j);
    SortedStays(other);
  }

  /** The order the system lists a directory in does not matter exactly if no two
      names are displayed alike. */
  lemma OrderIsImmaterial(names: seq<Name>)
    requires Distinct(names)
    ensures KeysDiffer(names) <==> forall other :: multiset(other) == multiset(names) ==> Sorted(other) == Sorted(names)
  {
    hide Sorted;
    if KeysDiffer(names) {
      forall other | multiset(other) == multiset(names) ensures Sorted(other) == Sorted(names) {
        SameMembers(other, names);
        OneOrder(names, other);
      }
    } else {
      var other := OrderMatters(names);
    }
  }

  /** The stable sort keeps lookalikes in the order they come. */
  lemma TwinsKeepTheirOrder()
    ensures Sorted([TWIN, OTHER_TWIN]) == [TWIN, OTHER_TWIN] && Sorted([OTHER_TWIN, TWIN]) == [OTHER_TWIN, TWIN]
  {
    TwinsLookAlike();
    hide Display;
    SortTwo(TWIN, OTHER_TWIN);
    SortTwo(OTHER_TWIN, TWIN);
  }

  lemma SortTwo(a: Name, b: Name)
    requires Display(a) == Display(b)
    ensures Sorted([a, b]) == [a, b]
  {
    hide Display;
    BelowTotal(Display(a), Display(b));
    assert [a, b][..1] == [a] && [a][..0] == [];
    assert Sorted([a]) == Inserted([], a) == [a];
    assert [a][1..] == [] && Inserted([], b) == [b];
  }
}
