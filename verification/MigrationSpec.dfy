// What a profile migration is meant to copy and to record:
// crates/core-profiles/src/migration.rs.

module MigrationSpec {
  import opened Words
  import opened Names
  import opened FileTree
  import opened Manifest

  datatype Plan = Plan(roaming: bool, personal: bool)

  /** A name in ASCII letters. */
  function Wide(s: string): (n: Name)
    requires forall i :: 0 <= i < |s| ==> s[i] <= '~'
    ensures |n| == |s| && forall i :: 0 <= i < |s| ==> n[i] == s[i] as int
  {
    seq(|s|, i requires 0 <= i < |s| => s[i] as int)
  }

  const APPDATA_ROAMING: Path := [Wide("appdata"), Wide("roaming")]
  const PROTECT: Path := APPDATA_ROAMING + [Wide("microsoft"), Wide("protect")]
  const PERSONAL_FOLDERS: seq<Path> :=
    [[Wide("documents")], [Wide("desktop")], [Wide("downloads")], [Wide("favorites")], [Wide("pictures")]]

  function Roots(plan: Plan): seq<Path> {
    (if plan.roaming then [APPDATA_ROAMING] else []) + (if plan.personal then PERSONAL_FOLDERS else [])
  }

  // ----- what the two scopes of a plan mean, folder by folder -----

  ghost predicate Selects(plan: Plan, root: Path) {
    (plan.roaming && root == [Wide("appdata"), Wide("roaming")]) ||
    (plan.personal &&
     (root == [Wide("documents")] || root == [Wide("desktop")] || root == [Wide("downloads")] ||
      root == [Wide("favorites")] || root == [Wide("pictures")]))
  }

  lemma RootsAreSelected(plan: Plan)
    ensures forall r :: r in Roots(plan) <==> Selects(plan, r)
  {
    var f := PERSONAL_FOLDERS;
    assert f == [f[0], f[1], f[2], f[3], f[4]];
    hide Wide;
    forall r ensures r in f <==> r == f[0] || r == f[1] || r == f[2] || r == f[3] || r == f[4] {
    }
  }

  /** The path is one of a selected folder that exists, one below it or its parent. */
  ghost predicate InSelection(t: Tree, plan: Plan, q: Path) {
    q in t && exists root :: Selects(plan, root) && Present(t, root) && (q <= root || root < q)
  }

  /** Below the target, which was not there, stand exact copies of the selection and
      nothing else; everything else is as before. */
  ghost predicate SelectionCopied(before: Tree, after: Tree, target: Path, t: Tree, plan: Plan) {
    target !in before && target in after && after[target] == Directory &&
    (forall q :: q != [] ==> (target + q in after <==> InSelection(t, plan, q))) &&
    (forall q :: q != [] && target + q in after ==> q in t && after[target + q] == t[q]) &&
    (forall x :: !(target <= x) ==> (x in after <==> x in before) && (x in before ==> after[x] == before[x]))
  }

  /** The source has a directory of DPAPI keys. */
  ghost predicate HasProtectedKeys(t: Tree) {
    Present(t, [Wide("appdata"), Wide("roaming"), Wide("microsoft"), Wide("protect")])
  }

  lemma ProtectedKeys(t: Tree)
    ensures Present(t, PROTECT) <==> HasProtectedKeys(t)
  {
    hide Wide, Present;
    assert PROTECT == [Wide("appdata"), Wide("roaming"), Wide("microsoft"), Wide("protect")];
  }

  /** Every component of `root` is a directory. */
  ghost predicate Present(t: Tree, root: Path) {
    forall k :: 1 <= k <= |root| ==> root[..k] in t && t[root[..k]] == Directory
  }

  /** Some component of `root` exists and is no directory. */
  ghost predicate Blocked(t: Tree, root: Path) {
    exists k :: 1 <= k <= |root| && root[..k] in t && t[root[..k]] != Directory
  }

  predicate CanCopy(n: Node) {
    n == Directory || (n.File? && |n.content| <= U64_MAX)
  }

  ghost function Under(t: Tree, p: Path): set<Path> {
    set q | q in t && p < q
  }

  ghost predicate Copyable(t: Tree, p: Path) {
    forall q :: q in Under(t, p) ==> CanCopy(t[q])
  }

  /** A path to be copied: below a root that exists, or one of its components. */
  ghost predicate Wanted(t: Tree, roots: seq<Path>, q: Path) {
    q != [] && q in t && exists r :: r in roots && Present(t, r) && (q <= r || r < q)
  }

  ghost function WantedPaths(t: Tree, roots: seq<Path>): set<Path> {
    set q | q in t && Wanted(t, roots, q)
  }

  ghost function WantedFiles(t: Tree, roots: seq<Path>): set<Path> {
    set q | q in t && Wanted(t, roots, q) && t[q].File?
  }

  /** The copies of `paths` below `target`. */
  ghost function At(target: Path, paths: set<Path>): set<Path> {
    set q | q in paths :: target + q
  }

  lemma AtUnion(target: Path, a: set<Path>, b: set<Path>)
    ensures At(target, a + b) == At(target, a) + At(target, b)
  {
    forall x ensures x in At(target, a + b) <==> x in At(target, a) + At(target, b) {
      if x in At(target, a + b) {
        var q :| q in a + b && x == target + q;
        assert q in a || q in b;
      }
    }
  }

  lemma AtIn(target: Path, paths: set<Path>, q: Path)
    ensures target + q in At(target, paths) <==> q in paths
  {
    if target + q in At(target, paths) {
      var r :| r in paths && target + q == target + r;
      assert (target + q)[|target|..] == q && (target + r)[|target|..] == r;
    }
  }

  /** `after` is `before` with exact copies of `paths` below `target`. */
  ghost predicate Copied(before: Tree, after: Tree, target: Path, t: Tree, paths: set<Path>) {
    after.Keys == before.Keys + At(target, paths) &&
    (forall x :: x in before ==> x in after && after[x] == before[x]) &&
    (forall q :: q in paths ==> q in t && target + q in after && after[target + q] == t[q])
  }

  lemma CopiedTwice(a: Tree, b: Tree, c: Tree, target: Path, t: Tree, s1: set<Path>, s2: set<Path>)
    requires Copied(a, b, target, t, s1) && Copied(b, c, target, t, s2)
    ensures Copied(a, c, target, t, s1 + s2)
  {
    AtUnion(target, s1, s2);
    forall q | q in s1 ensures target + q in c && c[target + q] == t[q] {
      assert target + q in b;
    }
  }

  /** Copying the wanted paths copies the selection. */
  lemma SelectionIsCopied(before: Tree, after: Tree, target: Path, t: Tree, plan: Plan)
    requires target !in before && forall x :: x in before ==> !(target < x)
    requires Copied(before[target := Directory], after, target, t, WantedPaths(t, Roots(plan)))
    ensures SelectionCopied(before, after, target, t, plan)
  {
    var paths := WantedPaths(t, Roots(plan));
    RootsAreSelected(plan);
    hide Roots, Selects, Present;
    forall q ensures q in paths <==> q != [] && InSelection(t, plan, q) {
    }
    hide WantedPaths, InSelection;
    forall q | q != [] ensures target + q in after <==> q in paths {
      AtIn(target, paths, q);
      assert target < target + q;
    }
    forall x | x in At(target, paths) ensures target <= x {
    }
  }

  // ----- manifests -----

  ghost function FileLine(p: Path, content: seq<Byte>): Line {
    Line(p, |content|, OfFile(content))
  }

  ghost function EntryManifest(listing: Listing, t: Tree, q: Path): seq<Line>
    requires q in t
    decreases Height(t) - |q|, 2, 0
  {
    match t[q]
    case File(content) => [FileLine(q, content)]
    case Directory => TreeManifest(listing, t, q)
    case Reparse => []
  }

  ghost function NamesManifest(listing: Listing, t: Tree, p: Path, names: seq<Name>): seq<Line>
    requires p in t
    decreases Height(t) - |p|, 0, |names|
  {
    if names == [] then []
    else
      NamesManifest(listing, t, p, names[..|names| - 1]) +
      var q := p + [names[|names| - 1]];
      if q in t then EntryManifest(listing, t, q) else []
  }

  /** What copying the tree below `p` records. */
  ghost function TreeManifest(listing: Listing, t: Tree, p: Path): seq<Line>
    requires p in t
    decreases Height(t) - |p|, 1, 0
  {
    NamesManifest(listing, t, p, Sorted(listing(p)))
  }

  ghost function PlanManifest(listing: Listing, t: Tree, roots: seq<Path>): seq<Line> {
    if roots == [] then []
    else
      PlanManifest(listing, t, roots[..|roots| - 1]) + RootManifest(listing, t, roots[|roots| - 1])
  }

  ghost function RootManifest(listing: Listing, t: Tree, root: Path): seq<Line> {
    if root in t && Present(t, root) then TreeManifest(listing, t, root) else []
  }

  ghost predicate Listed(lines: seq<Line>, q: Path) {
    exists i :: 0 <= i < |lines| && lines[i].path == q
  }

  ghost predicate Unrepeated(lines: seq<Line>) {
    forall i, j :: 0 <= i < j < |lines| ==> lines[i].path != lines[j].path
  }

  /** The lines describe exactly the files among `paths`, each once. */
  ghost predicate Describes(lines: seq<Line>, t: Tree, paths: set<Path>) {
    Unrepeated(lines) &&
    (forall i :: 0 <= i < |lines| ==>
       lines[i].path in paths && lines[i].path in t && t[lines[i].path].File? &&
       lines[i] == FileLine(lines[i].path, t[lines[i].path].content)) &&
    (forall q :: q in paths && q in t && t[q].File? ==> Listed(lines, q))
  }

  lemma DescribesBoth(a: seq<Line>, b: seq<Line>, t: Tree, s1: set<Path>, s2: set<Path>)
    requires Describes(a, t, s1) && Describes(b, t, s2) && s1 !! s2
    ensures Describes(a + b, t, s1 + s2)
  {
    forall q | q in s1 + s2 && q in t && t[q].File? ensures Listed(a + b, q) {
      if q in s1 {
        assert Listed(a, q);
        var i :| 0 <= i < |a| && a[i].path == q;
        assert (a + b)[i].path == q;
      } else {
        assert Listed(b, q);
        var i :| 0 <= i < |b| && b[i].path == q;
        assert (a + b)[|a| + i].path == q;
      }
    }
  }

  /** What lies at or below one of `names` in `p`. */
  ghost function Subtrees(t: Tree, p: Path, names: seq<Name>): set<Path> {
    set q | q in t && p < q && q[|p|] in names
  }

  lemma {:induction false} EntryDescribed(listing: Listing, t: Tree, q: Path)
    requires Closed(t) && Lists(listing, t) && q in t
    ensures Describes(EntryManifest(listing, t, q), t, Under(t, q) + {q})
    decreases Height(t) - |q|, 2, 0
  {
    match t[q]
    case File(content) =>
      assert EntryManifest(listing, t, q)[0].path == q;
      NothingBelow(t, q);
    case Directory =>
      TreeDescribed(listing, t, q);
      NoLinesFor(TreeManifest(listing, t, q), t, q);
    case Reparse =>
      NothingBelow(t, q);
  }

  lemma NothingBelow(t: Tree, q: Path)
    requires Closed(t) && q in t && t[q] != Directory
    ensures Under(t, q) == {}
  {
    forall x | x in Under(t, q) ensures false {
      ClosedUp(t, q, x);
    }
  }

  lemma NoLinesFor(lines: seq<Line>, t: Tree, q: Path)
    requires Describes(lines, t, Under(t, q)) && q in t && t[q] == Directory
    ensures Describes(lines, t, Under(t, q) + {q})
  {
  }

  lemma {:induction false} NamesDescribed(listing: Listing, t: Tree, p: Path, names: seq<Name>)
    requires Closed(t) && Lists(listing, t) && p in t && Distinct(names) && forall n :: n in names ==> n in Children(t, p)
    ensures Describes(NamesManifest(listing, t, p, names), t, Subtrees(t, p, names))
    decreases Height(t) - |p|, 0, |names|
  {
    hide Describes, Lists, Closed, EntryManifest, Under, Children;
    if names == [] {
      NoneDescribed(t, p, names);
    } else {
      var rest, last := names[..|names| - 1], names[|names| - 1];
      assert last in names && names == rest + [last];
      ChildrenAre(t, p, last);
      NamesDescribed(listing, t, p, rest);
      EntryDescribed(listing, t, p + [last]);
      LastNotBefore(names);
      BelowSplit(t, p, rest, last);
      DescribesBoth(NamesManifest(listing, t, p, rest), EntryManifest(listing, t, p + [last]), t,
                    Subtrees(t, p, rest), Under(t, p + [last]) + {p + [last]});
    }
  }

  lemma NoneDescribed(t: Tree, p: Path, names: seq<Name>)
    requires names == []
    ensures Describes([], t, Subtrees(t, p, names))
  {
  }

  lemma LastNotBefore(names: seq<Name>)
    requires Distinct(names) && names != []
    ensures names[|names| - 1] !in names[..|names| - 1]
  {
  }

  lemma BelowSplit(t: Tree, p: Path, rest: seq<Name>, last: Name)
    requires p + [last] in t
    ensures Subtrees(t, p, rest + [last]) == Subtrees(t, p, rest) + (Under(t, p + [last]) + {p + [last]})
    ensures last !in rest ==> Subtrees(t, p, rest) !! (Under(t, p + [last]) + {p + [last]})
  {
    var child := p + [last];
    forall q ensures q in Subtrees(t, p, [last]) <==> q in Under(t, child) + {child} {
      if q in t && p < q && q[|p|] == last {
        assert q[..|p| + 1] == child;
        assert |q| == |p| + 1 ==> q == child;
      }
      if q in Under(t, child) {
        assert q[|p|] == child[|p|] && p < q;
      }
    }
    assert Subtrees(t, p, rest + [last]) == Subtrees(t, p, rest) + Subtrees(t, p, [last]);
  }

  lemma BelowAll(t: Tree, p: Path, names: seq<Name>)
    requires Closed(t) && Enumerates(names, Children(t, p))
    ensures Subtrees(t, p, names) == Under(t, p)
  {
    forall q | q in Under(t, p) ensures q in Subtrees(t, p, names) {
      ClosedUp(t, p, q);
      ChildrenAre(t, p, q[|p|]);
    }
  }

  lemma {:induction false} TreeDescribed(listing: Listing, t: Tree, p: Path)
    requires Closed(t) && Lists(listing, t) && p in t
    ensures Describes(TreeManifest(listing, t, p), t, Under(t, p))
    decreases Height(t) - |p|, 1, 0
  {
    var names := Sorted(listing(p));
    SortedEnumerates(listing(p), Children(t, p));
    NamesDescribed(listing, t, p, names);
    BelowAll(t, p, names);
  }

  ghost predicate Apart(roots: seq<Path>) {
    (forall r :: r in roots ==> r != []) &&
    forall i, j :: 0 <= i < j < |roots| ==> roots[i] != [] && roots[j] != [] && roots[i][0] != roots[j][0]
  }

  lemma RootsApart(plan: Plan)
    ensures Apart(Roots(plan))
  {
    var a := Wide("appdata");
    var d, e, f, g, h := Wide("documents"), Wide("desktop"), Wide("downloads"), Wide("favorites"), Wide("pictures");
    assert a[0] == 97 && d[0] == 100 && e[0] == 100 && f[0] == 100 && g[0] == 102 && h[0] == 112;
    assert d[1] == 111 && e[1] == 101 && f[1] == 111 && d[2] == 99 && f[2] == 119;
  }

  ghost function BelowRoots(t: Tree, roots: seq<Path>): set<Path> {
    set q | q in t && exists r :: r in roots && Present(t, r) && r < q
  }

  lemma BelowRootsSplit(t: Tree, rest: seq<Path>, last: Path)
    requires Closed(t) && Apart(rest + [last])
    ensures last in t && Present(t, last) ==>
              BelowRoots(t, rest + [last]) == BelowRoots(t, rest) + Under(t, last) && BelowRoots(t, rest) !! Under(t, last)
    ensures !(last in t && Present(t, last)) ==> BelowRoots(t, rest + [last]) == BelowRoots(t, rest)
  {
    var roots := rest + [last];
    forall r, q | r in rest && q in t ensures !(r < q && last < q) {
      var i :| 0 <= i < |rest| && rest[i] == r;
      assert roots[i] == r && roots[|rest|] == last;
    }
    forall q | q in t && last < q ensures last in t {
      ClosedUp(t, last, q);
    }
    hide Present;
    assert forall r :: r in roots <==> r in rest || r == last;
  }

  lemma {:induction false} PlanDescribed(listing: Listing, t: Tree, roots: seq<Path>)
    requires Closed(t) && Lists(listing, t) && Apart(roots)
    ensures Describes(PlanManifest(listing, t, roots), t, BelowRoots(t, roots))
  {
    hide Describes, TreeManifest, Present, BelowRoots, Closed, Lists;
    if roots == [] {
      NothingDescribed(t, roots);
    } else {
      var rest, last := roots[..|roots| - 1], roots[|roots| - 1];
      assert roots == rest + [last];
      PlanDescribed(listing, t, rest);
      BelowRootsSplit(t, rest, last);
      if last in t && Present(t, last) {
        TreeDescribed(listing, t, last);
        DescribesBoth(PlanManifest(listing, t, rest), TreeManifest(listing, t, last), t, BelowRoots(t, rest), Under(t, last));
      } else {
        assert PlanManifest(listing, t, roots) == PlanManifest(listing, t, rest);
      }
    }
  }

  lemma NothingDescribed(t: Tree, roots: seq<Path>)
    requires roots == []
    ensures Describes([], t, BelowRoots(t, roots))
  {
  }

  lemma ComponentIsDirectory(t: Tree, r: Path, q: Path)
    requires Present(t, r) && q <= r && q != []
    ensures q in t && t[q] == Directory
  {
    assert r[..|q|] == q;
  }

  /** The manifest of a plan describes exactly the wanted files, each once. */
  lemma PlanManifestCovers(listing: Listing, t: Tree, plan: Plan)
    requires Closed(t) && Lists(listing, t)
    ensures Describes(PlanManifest(listing, t, Roots(plan)), t, WantedPaths(t, Roots(plan)))
    ensures |PlanManifest(listing, t, Roots(plan))| == |WantedFiles(t, Roots(plan))|
  {
    hide Lists, PlanManifest, Roots, Present, Closed;
    var roots := Roots(plan);
    RootsApart(plan);
    PlanDescribed(listing, t, roots);
    forall q | q in WantedFiles(t, roots) ensures q in BelowRoots(t, roots) {
      var r :| r in roots && Present(t, r) && (q <= r || r < q);
      if q <= r {
        ComponentIsDirectory(t, r, q);
      }
    }
    assert forall r :: r in roots ==> r != [];
    Counted(PlanManifest(listing, t, roots), t, roots);
  }

  lemma Counted(lines: seq<Line>, t: Tree, roots: seq<Path>)
    requires Describes(lines, t, BelowRoots(t, roots))
    requires forall q :: q in WantedFiles(t, roots) ==> q in BelowRoots(t, roots)
    ensures Describes(lines, t, WantedPaths(t, roots)) && |lines| == |WantedFiles(t, roots)|
  {
    hide Present;
    forall q ensures q in WantedFiles(t, roots) <==> Listed(lines, q) {
    }
    CountLines(lines, WantedFiles(t, roots));
  }

  lemma {:induction false} CountLines(lines: seq<Line>, paths: set<Path>)
    requires Unrepeated(lines) && forall q :: q in paths <==> Listed(lines, q)
    ensures |lines| == |paths|
  {
    if lines == [] {
      assert paths == {};
    } else {
      var rest, last := lines[..|lines| - 1], lines[|lines| - 1];
      assert Listed(lines, last.path);
      forall q ensures q in paths - {last.path} <==> Listed(rest, q) {
        if Listed(rest, q) {
          var i :| 0 <= i < |rest| && rest[i].path == q;
          assert lines[i].path == q;
        }
        if q in paths && q != last.path {
          var i :| 0 <= i < |lines| && lines[i].path == q;
          assert rest[i].path == q;
        }
      }
      CountLines(rest, paths - {last.path});
    }
  }

  /** The sizes of the files among `paths`, added up. */
  ghost function Total(t: Tree, paths: set<Path>): nat {
    if paths == {} then 0
    else
      var q :| q in paths;
      Size(t, q) + Total(t, paths - {q})
  }

  ghost function Size(t: Tree, q: Path): nat {
    if q in t && t[q].File? then |t[q].content| else 0
  }

  lemma {:induction false} TotalOf(t: Tree, paths: set<Path>, q: Path)
    requires q in paths
    ensures Total(t, paths) == Size(t, q) + Total(t, paths - {q})
  {
    var x :| x in paths && Total(t, paths) == Size(t, x) + Total(t, paths - {x});
    if x != q {
      TotalOf(t, paths - {x}, q);
      TotalOf(t, paths - {q}, x);
      assert paths - {x} - {q} == paths - {q} - {x};
    }
  }

  lemma {:induction false} SumIsTotal(lines: seq<Line>, t: Tree, paths: set<Path>)
    requires Unrepeated(lines) && forall q :: q in paths <==> Listed(lines, q)
    requires forall i :: 0 <= i < |lines| ==> lines[i].size == Size(t, lines[i].path)
    ensures Sum(lines) == Total(t, paths)
  {
    if lines == [] {
      assert paths == {};
    } else {
      var rest, last := lines[..|lines| - 1], lines[|lines| - 1];
      assert Listed(lines, last.path);
      forall q ensures q in paths - {last.path} <==> Listed(rest, q) {
        if Listed(rest, q) {
          var i :| 0 <= i < |rest| && rest[i].path == q;
          assert lines[i].path == q;
        }
        if q in paths && q != last.path {
          var i :| 0 <= i < |lines| && lines[i].path == q;
          assert rest[i].path == q;
        }
      }
      SumIsTotal(rest, t, paths - {last.path});
      TotalOf(t, paths, last.path);
    }
  }

  lemma CountedBytes(lines: seq<Line>, t: Tree, roots: seq<Path>)
    requires Describes(lines, t, WantedPaths(t, roots))
    ensures Sum(lines) == Total(t, WantedFiles(t, roots))
  {
    hide Present;
    forall q ensures q in WantedFiles(t, roots) <==> Listed(lines, q) {
    }
    SumIsTotal(lines, t, WantedFiles(t, roots));
  }

  ghost function SelectedFiles(t: Tree, plan: Plan): set<Path> {
    set q | q in t && q != [] && InSelection(t, plan, q) && t[q].File?
  }

  lemma SelectedAreWanted(t: Tree, plan: Plan)
    ensures WantedFiles(t, Roots(plan)) == SelectedFiles(t, plan)
  {
    RootsAreSelected(plan);
    hide Roots, Selects, Present;
  }

  /** The receipt gives the number of selected files and their total size. */
  lemma ReceiptIs(listing: Listing, t: Tree, plan: Plan)
    requires Closed(t) && Lists(listing, t)
    ensures var files, r := SelectedFiles(t, plan), ReceiptOf(PlanManifest(listing, t, Roots(plan)));
            r.copiedFiles == |files| &&
            r.copiedBytes == if Total(t, files) <= 0xFFFF_FFFF_FFFF_FFFF then Total(t, files) else 0xFFFF_FFFF_FFFF_FFFF
  {
    hide Roots, Selects, Present, PlanManifest, SelectedFiles, WantedFiles, WantedPaths, Describes, Total, Closed, Lists, Tokens;
    PlanManifestCovers(listing, t, plan);
    CountedBytes(PlanManifest(listing, t, Roots(plan)), t, Roots(plan));
    SelectedAreWanted(t, plan);
  }

  // ----- what each root contributes -----

  ghost function Components(root: Path): set<Path> {
    set k | 1 <= k <= |root| :: root[..k]
  }

  ghost function RootPaths(t: Tree, root: Path): set<Path> {
    if Present(t, root) then Components(root) + Under(t, root) else {}
  }

  /** Nothing stands where the copies of `paths` go. */
  ghost predicate Vacant(fs: Tree, target: Path, paths: set<Path>) {
    forall q :: q in paths ==> target + q !in fs
  }

  lemma StillVacant(before: Tree, fs: Tree, target: Path, t: Tree, copied: set<Path>, next: set<Path>)
    requires Vacant(before, target, next) && Copied(before, fs, target, t, copied) && copied !! next
    ensures Vacant(fs, target, next)
  {
    forall q | q in next ensures target + q !in fs {
      AtIn(target, copied, q);
    }
  }

  lemma WantedStep(t: Tree, roots: seq<Path>, i: nat)
    requires i < |roots| && Apart(roots)
    ensures WantedPaths(t, roots[..i + 1]) == WantedPaths(t, roots[..i]) + RootPaths(t, roots[i])
    ensures WantedPaths(t, roots[..i]) !! RootPaths(t, roots[i])
  {
    var root := roots[i];
    assert roots[..i + 1] == roots[..i] + [root];
    assert forall r :: r in roots[..i + 1] <==> r in roots[..i] || r == root;
    assert root in roots;
    InRootPaths(t, root);
    hide RootPaths, Present;
    forall q | q in WantedPaths(t, roots[..i]) ensures q !in RootPaths(t, root) {
      var r :| r in roots[..i] && Present(t, r) && (q <= r || r < q);
      var j :| 0 <= j < i && roots[j] == r;
      assert q[0] == r[0] && r[0] != root[0];
    }
    forall q ensures q in WantedPaths(t, roots[..i + 1]) <==> q in WantedPaths(t, roots[..i]) + RootPaths(t, root) {
    }
  }

  lemma InRootPaths(t: Tree, root: Path)
    requires root != []
    ensures forall q :: q in RootPaths(t, root) <==> q != [] && q in t && Present(t, root) && (q <= root || root < q)
    ensures forall q :: q in RootPaths(t, root) ==> q[0] == root[0]
  {
    if Present(t, root) {
      forall q | q in t && q != [] && q <= root ensures q in Components(root) {
        assert root[..|q|] == q;
      }
    }
  }

  /** A missing component means that the root is neither present nor blocked. */
  lemma MissingComponent(t: Tree, root: Path, k: nat)
    requires Closed(t) && 1 <= k <= |root| && root[..k] !in t
    requires forall j :: 1 <= j < k ==> root[..j] in t && t[root[..j]] == Directory
    ensures !Present(t, root) && !Blocked(t, root)
  {
    forall j | 1 <= j <= |root| ensures root[..j] in t ==> j < k {
      if root[..j] in t && j > k {
        assert root[..k] == root[..j][..k];
        ClosedUp(t, root[..k], root[..j]);
      }
    }
  }

  /** Exactly when an undisturbed copy of `root` succeeds. */
  ghost predicate CopyableRoot(t: Tree, root: Path) {
    !Blocked(t, root) && (Present(t, root) ==> Copyable(t, root))
  }

  // ----- what a receipt says about the copy -----

  ghost predicate PlainNames(t: Tree) {
    forall q, n :: q in t && n in q ==> PlainName(n)
  }

  /** A source whose wanted files a migration can copy. */
  ghost predicate Recordable(listing: Listing, t: Tree, plan: Plan) {
    Closed(t) && Lists(listing, t) && PlainNames(t) &&
    forall q :: q in WantedFiles(t, Roots(plan)) ==> CanCopy(t[q])
  }

  ghost predicate ReadableFiles(t: Tree, plan: Plan) {
    forall q :: q in WantedFiles(t, Roots(plan)) ==> Readable(q)
  }

  ghost predicate UnbrokenFiles(t: Tree, plan: Plan) {
    forall q :: q in WantedFiles(t, Roots(plan)) ==> Unbroken(q)
  }

  /** `manifest_sha256` of a whole migration. */
  ghost function ManifestHash(listing: Listing, t: Tree, plan: Plan): Digest {
    ReceiptOf(PlanManifest(listing, t, Roots(plan))).manifestDigest
  }

  lemma LinesArePlain(listing: Listing, t: Tree, plan: Plan)
    requires Recordable(listing, t, plan)
    ensures PlainLines(PlanManifest(listing, t, Roots(plan)))
    ensures ReadableFiles(t, plan) ==> AllReadable(PlanManifest(listing, t, Roots(plan)))
    ensures UnbrokenFiles(t, plan) ==> AllUnbroken(PlanManifest(listing, t, Roots(plan)))
  {
    var lines, roots := PlanManifest(listing, t, Roots(plan)), Roots(plan);
    PlanManifestCovers(listing, t, plan);
    forall i | 0 <= i < |lines| ensures PlainLine(lines[i]) && lines[i].path in WantedFiles(t, roots) {
      var q := lines[i].path;
      assert q in WantedFiles(t, roots) && q != [];
      assert forall k :: 0 <= k < |q| ==> q[k] in q;
    }
  }

  lemma OneWay(listing: Listing, t: Tree, listing': Listing, u: Tree, plan: Plan, q: Path)
    requires Recordable(listing, t, plan) && Recordable(listing', u, plan)
    requires PlanManifest(listing, t, Roots(plan)) == PlanManifest(listing', u, Roots(plan))
    requires q in WantedFiles(t, Roots(plan))
    ensures q in WantedFiles(u, Roots(plan)) && t[q] == u[q]
  {
    PlanManifestCovers(listing, t, plan);
    PlanManifestCovers(listing', u, plan);
    var lines := PlanManifest(listing, t, Roots(plan));
    assert Listed(lines, q);
    var i :| 0 <= i < |lines| && lines[i].path == q;
    assert lines[i] == FileLine(q, t[q].content) && lines[i] == FileLine(q, u[q].content);
  }

  /** Two migrations with the same manifest hash copied the same files with the same
      contents, if one of them displays its names without U+FFFD or neither has an
      unpaired surrogate in a name. */
  lemma EqualReceiptsEqualFiles(listing: Listing, t: Tree, listing': Listing, u: Tree, plan: Plan)
    requires Recordable(listing, t, plan) && Recordable(listing', u, plan)
    requires ReadableFiles(t, plan) || (UnbrokenFiles(t, plan) && UnbrokenFiles(u, plan))
    requires ManifestHash(listing, t, plan) == ManifestHash(listing', u, plan)
    ensures WantedFiles(t, Roots(plan)) == WantedFiles(u, Roots(plan))
    ensures forall q :: q in WantedFiles(t, Roots(plan)) ==> t[q] == u[q]
  {
    hide Wanted, PlanManifest, Recordable, ReadableFiles, UnbrokenFiles, PlainLines, AllReadable, AllUnbroken, Tokens;
    LinesArePlain(listing, t, plan);
    LinesArePlain(listing', u, plan);
    ManifestInjective(PlanManifest(listing, t, Roots(plan)), PlanManifest(listing', u, Roots(plan)));
    forall q ensures q in WantedFiles(t, Roots(plan)) ==> q in WantedFiles(u, Roots(plan)) && t[q] == u[q] {
      if q in WantedFiles(t, Roots(plan)) { OneWay(listing, t, listing', u, plan, q); }
    }
    forall q ensures q in WantedFiles(u, Roots(plan)) ==> q in WantedFiles(t, Roots(plan)) {
      if q in WantedFiles(u, Roots(plan)) { OneWay(listing', u, listing, t, plan, q); }
    }
  }

  // ----- names that are displayed alike -----

  const DOCUMENTS: Path := [Wide("documents")]

  /** A profile with nothing but one document. */
  function OneDocument(n: Name, content: seq<Byte>): Tree {
    map[[] := Directory, DOCUMENTS := Directory, DOCUMENTS + [n] := File(content)]
  }

  function OneListing(n: Name): Listing {
    p => if p == [] then DOCUMENTS else if p == DOCUMENTS then [n] else []
  }

  const PERSONAL: Plan := Plan(false, true)

  lemma OneDocumentIsClosed(n: Name, content: seq<Byte>)
    ensures Closed(OneDocument(n, content)) && DOCUMENTS + [n] in OneDocument(n, content)
    ensures OneDocument(n, content)[DOCUMENTS + [n]] == File(content)
  {
    hide Wide;
    assert Parent(DOCUMENTS) == [] && Parent(DOCUMENTS + [n]) == DOCUMENTS;
  }

  lemma OneDocumentIsListed(n: Name, content: seq<Byte>)
    ensures Lists(OneListing(n), OneDocument(n, content))
  {
    hide Wide, Children;
    var t, listing := OneDocument(n, content), OneListing(n);
    forall p | p in t ensures Enumerates(listing(p), Children(t, p)) && Distinct(listing(p)) {
      forall m ensures m in listing(p) <==> m in Children(t, p) {
        ChildrenAre(t, p, m);
        OneDocumentHas(n, content, p, m);
      }
    }
  }

  lemma OneDocumentHas(n: Name, content: seq<Byte>, p: Path, m: Name)
    ensures p + [m] in OneDocument(n, content) <==> (p == [] && m == DOCUMENTS[0]) || (p == DOCUMENTS && m == n)
  {
    hide Wide;
    assert Parent(p + [m]) == p && (p + [m])[|p|] == m;
    assert Parent(DOCUMENTS + [n]) == DOCUMENTS && (DOCUMENTS + [n])[1] == n && Parent(DOCUMENTS) == [];
  }

  lemma OneDocumentIsWanted(n: Name, content: seq<Byte>)
    ensures WantedFiles(OneDocument(n, content), Roots(PERSONAL)) == {DOCUMENTS + [n]}
  {
    hide Wide;
    var t, q, roots := OneDocument(n, content), DOCUMENTS + [n], Roots(PERSONAL);
    assert DOCUMENTS[..1] == DOCUMENTS && DOCUMENTS != q && DOCUMENTS < q && DOCUMENTS == roots[0];
    assert Present(t, DOCUMENTS) && Wanted(t, roots, q);
  }

  lemma OneDocumentIsPlain(n: Name, content: seq<Byte>)
    requires PlainName(n)
    ensures PlainNames(OneDocument(n, content))
  {
    var d := Wide("documents");
    assert |d| == 9 && forall i :: 0 <= i < 9 ==> d[i] == "documents"[i] as int;
    assert PlainName(d);
    hide PlainName, Wide;
  }

  lemma OneDocumentIsRecordable(n: Name, content: seq<Byte>)
    requires PlainName(n) && |content| <= U64_MAX
    ensures Recordable(OneListing(n), OneDocument(n, content), PERSONAL)
  {
    OneDocumentIsPlain(n, content);
    OneDocumentIsClosed(n, content);
    OneDocumentIsListed(n, content);
    OneDocumentIsWanted(n, content);
    hide Lists, Closed, Roots, OneListing, OneDocument, Wide, PlainNames, WantedFiles;
  }

  lemma OneDocumentIsRecorded(n: Name, content: seq<Byte>)
    requires PlainName(n) && |content| <= U64_MAX
    ensures PlanManifest(OneListing(n), OneDocument(n, content), Roots(PERSONAL)) == [FileLine(DOCUMENTS + [n], content)]
  {
    OneDocumentIsClosed(n, content);
    OneDocumentIsListed(n, content);
    OneDocumentIsWanted(n, content);
    hide PlanManifest, Lists, Closed, Roots, OneListing, OneDocument, Wide, WantedFiles, FileLine;
    OneFileManifest(OneListing(n), OneDocument(n, content), PERSONAL, DOCUMENTS + [n]);
  }

  lemma OneFileManifest(listing: Listing, t: Tree, plan: Plan, q: Path)
    requires Closed(t) && Lists(listing, t) && WantedFiles(t, Roots(plan)) == {q} && q in t && t[q].File?
    ensures PlanManifest(listing, t, Roots(plan)) == [FileLine(q, t[q].content)]
  {
    var roots := Roots(plan);
    WantedFileIsWanted(t, roots, q);
    hide PlanManifest, Lists, Closed, Roots, Describes, WantedPaths, WantedFiles;
    PlanManifestCovers(listing, t, plan);
    OneLine(PlanManifest(listing, t, roots), t, WantedPaths(t, roots), q);
  }

  lemma WantedFileIsWanted(t: Tree, roots: seq<Path>, q: Path)
    ensures q in WantedFiles(t, roots) ==> q in WantedPaths(t, roots)
  {
  }

  lemma OneLine(lines: seq<Line>, t: Tree, paths: set<Path>, q: Path)
    requires Describes(lines, t, paths) && |lines| == 1 && q in t && t[q].File? && q in paths
    ensures lines == [FileLine(q, t[q].content)]
  {
    assert Listed(lines, q);
  }

  /** Two names that are displayed alike share one hash. */
  lemma LookalikesShareAHash(m: Name, n: Name, content: seq<Byte>)
    requires PlainName(m) && PlainName(n) && Display(m) == Display(n) && m != n && |content| <= U64_MAX
    ensures ManifestHash(OneListing(m), OneDocument(m, content), PERSONAL) ==
            ManifestHash(OneListing(n), OneDocument(n, content), PERSONAL)
    ensures WantedFiles(OneDocument(m, content), Roots(PERSONAL)) != WantedFiles(OneDocument(n, content), Roots(PERSONAL))
  {
    hide OneDocument, OneListing, WantedFiles, PlanManifest, Recordable, Display, Joined, Shown, Roots, Wide, Slashes;
    OneDocumentIsWanted(m, content);
    OneDocumentIsWanted(n, content);
    OneDocumentIsRecordable(m, content);
    OneDocumentIsRecordable(n, content);
    OneDocumentIsRecorded(m, content);
    OneDocumentIsRecorded(n, content);
    var p, q := DOCUMENTS + [m], DOCUMENTS + [n];
    assert p[1] != q[1] && p in {p} && p !in {q};
    ShownAlike(p, q);
    DisplayJoined(p);
    DisplayJoined(q);
    var a, b := FileLine(p, content), FileLine(q, content);
    ReplacedTokens([a], 0, b);
    assert [a][0 := b] == [b];
  }

  /** `a` followed by one or another unpaired surrogate is such a pair of names. */
  lemma TwinsShareAHash(content: seq<Byte>)
    requires |content| <= U64_MAX
    ensures ManifestHash(OneListing(TWIN), OneDocument(TWIN, content), PERSONAL) ==
            ManifestHash(OneListing(OTHER_TWIN), OneDocument(OTHER_TWIN, content), PERSONAL)
    ensures WantedFiles(OneDocument(TWIN, content), Roots(PERSONAL)) !=
            WantedFiles(OneDocument(OTHER_TWIN, content), Roots(PERSONAL))
  {
    TwinsLookAlike();
    LookalikesShareAHash(TWIN, OTHER_TWIN, content);
  }

  // ----- the order of a listing -----

  /** No two names in one directory are displayed alike. */
  ghost predicate SiblingsDiffer(t: Tree) {
    forall p, a, b :: p + [a] in t && p + [b] in t && Display(a) == Display(b) ==> a == b
  }

  lemma SortedAlike(l1: Listing, l2: Listing, t: Tree, p: Path)
    requires Lists(l1, t) && Lists(l2, t) && SiblingsDiffer(t) && p in t
    ensures Sorted(l1(p)) == Sorted(l2(p))
  {
    forall a | a in l1(p) ensures p + [a] in t {
      ChildrenAre(t, p, a);
    }
    OneOrder(l1(p), l2(p));
  }

  lemma {:induction false} EntrySame(l1: Listing, l2: Listing, t: Tree, q: Path)
    requires Lists(l1, t) && Lists(l2, t) && SiblingsDiffer(t) && q in t
    ensures EntryManifest(l1, t, q) == EntryManifest(l2, t, q)
    decreases Height(t) - |q|, 2, 0
  {
    hide Lists, SiblingsDiffer;
    if t[q] == Directory {
      SortedAlike(l1, l2, t, q);
      NamesSame(l1, l2, t, q, Sorted(l1(q)));
    }
  }

  lemma {:induction false} NamesSame(l1: Listing, l2: Listing, t: Tree, p: Path, names: seq<Name>)
    requires Lists(l1, t) && Lists(l2, t) && SiblingsDiffer(t) && p in t
    ensures NamesManifest(l1, t, p, names) == NamesManifest(l2, t, p, names)
    decreases Height(t) - |p|, 0, |names|
  {
    hide Lists, SiblingsDiffer, EntryManifest;
    if names != [] {
      var q := p + [names[|names| - 1]];
      NamesSame(l1, l2, t, p, names[..|names| - 1]);
      if q in t {
        EntrySame(l1, l2, t, q);
      }
    }
  }

  /** The manifest is the same whatever order the system lists directories in. */
  lemma {:induction false} SameManifest(l1: Listing, l2: Listing, t: Tree, roots: seq<Path>)
    requires Lists(l1, t) && Lists(l2, t) && SiblingsDiffer(t)
    ensures PlanManifest(l1, t, roots) == PlanManifest(l2, t, roots)
  {
    hide Lists, SiblingsDiffer;
    if roots != [] {
      var root := roots[|roots| - 1];
      SameManifest(l1, l2, t, roots[..|roots| - 1]);
      if root in t {
        SortedAlike(l1, l2, t, root);
        NamesSame(l1, l2, t, root, Sorted(l1(root)));
      }
    }
  }
}
