// The stack of created objects of a migration and its removal in reverse order:
// `CopyTransaction::rollback` of crates/core-profiles/src/migration.rs and
// `rollback_created` of crates/platform-win32/src/secure_fs.rs.

module CreatedObjects {
  import opened FileTree

  /** `x` lies directly in one of `entries`. */
  ghost predicate Inside(x: Path, entries: seq<Path>) {
    x != [] && Parent(x) in entries
  }

  /** The target at the bottom, distinct entries, each above the directory it is in. */
  ghost predicate Stacked(target: Path, created: seq<Path>) {
    created == [] ||
    var rest, top := created[..|created| - 1], created[|created| - 1];
    Stacked(target, rest) && top !in rest && target <= top && if rest == [] then top == target else Inside(top, rest)
  }

  /** Everything in `base` is untouched and the stack holds new entries. */
  ghost predicate Tracked(base: Tree, fs: Tree, target: Path, created: seq<Path>) {
    Stacked(target, created) &&
    (forall x :: x in base ==> x in fs && fs[x] == base[x]) &&
    (forall x :: x in created ==> x in fs && x !in base)
  }

  /** New entries the stack does not hold. */
  ghost function Strays(base: Tree, fs: Tree, created: seq<Path>): set<Path> {
    set x | x in fs && x !in base && x !in created
  }

  /** Nothing was created that the stack does not hold. */
  ghost predicate Registered(base: Tree, fs: Tree, created: seq<Path>) {
    Strays(base, fs, created) == {}
  }

  /** Every stray lies in an entry of the stack, so the removal of that entry will
      report it; only the target itself may stand alone. */
  ghost predicate Held(base: Tree, fs: Tree, target: Path, created: seq<Path>) {
    forall x :: x in Strays(base, fs, created) ==> (x == target && created == []) || Inside(x, created)
  }

  predicate HasChild(fs: Tree, p: Path) {
    exists x :: x in fs && x != [] && Parent(x) == p
  }

  lemma Push(base: Tree, fs: Tree, target: Path, created: seq<Path>, p: Path, n: Node)
    requires Tracked(base, fs, target, created) && Registered(base, fs, created) && p !in fs
    requires if created == [] then p == target else Inside(p, created) && target <= p
    ensures Tracked(base, fs[p := n], target, created + [p]) && Registered(base, fs[p := n], created + [p])
    ensures Tracked(base, fs[p := n], target, created) && Held(base, fs[p := n], target, created)
  {
    var after := created + [p];
    assert after[..|after| - 1] == created;
    forall x ensures x in fs && x !in base ==> x in created {
      NotStray(base, fs, created, x);
    }
  }

  lemma PushedStray(base: Tree, fs: Tree, created: seq<Path>, p: Path, n: Node)
    requires p !in base && p !in created
    ensures !Registered(base, fs[p := n], created)
  {
    assert p in Strays(base, fs[p := n], created);
  }

  /** Writing to a created file. */
  lemma Rewrite(base: Tree, fs: Tree, target: Path, created: seq<Path>, p: Path, n: Node)
    requires Tracked(base, fs, target, created) && Registered(base, fs, created) && p in created
    ensures Tracked(base, fs[p := n], target, created) && Registered(base, fs[p := n], created)
  {
    assert Strays(base, fs[p := n], created) == Strays(base, fs, created);
  }

  lemma NotStray(base: Tree, fs: Tree, created: seq<Path>, x: Path)
    requires Registered(base, fs, created)
    ensures x in fs && x !in base ==> x in created
  {
    assert x !in Strays(base, fs, created);
  }

  lemma {:induction false} ParentStacked(target: Path, created: seq<Path>, x: Path)
    requires Stacked(target, created) && x in created
    ensures target <= x && (x == target || Inside(x, created))
  {
    var rest, top := created[..|created| - 1], created[|created| - 1];
    assert created == rest + [top];
    if x in rest {
      ParentStacked(target, rest, x);
    }
  }

  /** Last in, first out: every entry is empty when its turn comes. */
  lemma TopIsEmpty(base: Tree, fs: Tree, target: Path, created: seq<Path>)
    requires Tracked(base, fs, target, created) && Registered(base, fs, created) && created != []
    requires Closed(base)
    ensures !HasChild(fs, created[|created| - 1])
  {
    var rest, top := created[..|created| - 1], created[|created| - 1];
    assert created == rest + [top];
    forall x | x in fs && x != [] ensures Parent(x) != top {
      NotStray(base, fs, created, x);
      if x in rest {
        ParentStacked(target, rest, x);
      }
    }
  }

  /** What the removal of the top entry must keep. */
  ghost predicate Accounted(base: Tree, fs: Tree, target: Path, created: seq<Path>, failed: bool) {
    (failed ==> Strays(base, fs, created) != {}) &&
    forall x :: x in Strays(base, fs, created) ==>
      Inside(x, created) || (failed && Above(x, target, Strays(base, fs, created)))
  }

  ghost predicate Above(x: Path, target: Path, left: set<Path>) {
    x == target || (x != [] && Parent(x) in left)
  }

  lemma Removed(base: Tree, fs: Tree, target: Path, rest: seq<Path>, top: Path, failed: bool)
    requires Tracked(base, fs, target, rest + [top]) && Accounted(base, fs, target, rest + [top], failed)
    requires !HasChild(fs, top)
    ensures Tracked(base, fs - {top}, target, rest) && Accounted(base, fs - {top}, target, rest, failed)
    ensures Strays(base, fs - {top}, rest) == Strays(base, fs, rest + [top])
  {
    var created := rest + [top];
    assert created[..|created| - 1] == rest;
    var strays := Strays(base, fs, created);
    assert forall x :: x in created <==> x in rest || x == top;
    assert Strays(base, fs - {top}, rest) == strays;
    forall x | x in strays ensures Inside(x, created) ==> Inside(x, rest) {
      assert x == [] || Parent(x) != top;
    }
  }

  lemma Stuck(base: Tree, fs: Tree, target: Path, rest: seq<Path>, top: Path, failed: bool)
    requires Tracked(base, fs, target, rest + [top]) && Accounted(base, fs, target, rest + [top], failed)
    ensures Tracked(base, fs, target, rest) && Accounted(base, fs, target, rest, true)
    ensures Strays(base, fs, rest) == Strays(base, fs, rest + [top]) + {top}
  {
    var created := rest + [top];
    assert created[..|created| - 1] == rest && top in created;
    var strays, left := Strays(base, fs, created), Strays(base, fs, rest);
    assert forall x :: x in created <==> x in rest || x == top;
    assert left == strays + {top};
    forall x | x in left ensures Inside(x, rest) || Above(x, target, left) {
      assert x in strays ==> Inside(x, created) || Above(x, target, strays);
    }
  }

  /** Following parents, something left behind means the target is left behind. */
  lemma {:induction false} UpToTarget(strays: set<Path>, target: Path, x: Path)
    requires x in strays && forall y :: y in strays ==> Above(y, target, strays)
    ensures target in strays
    decreases |x|
  {
    if x != target {
      UpToTarget(strays, target, Parent(x));
    }
  }

  lemma NothingLeft(base: Tree, fs: Tree, target: Path, failed: bool)
    requires Tracked(base, fs, target, []) && Accounted(base, fs, target, [], failed)
    ensures if failed then target in fs && target !in base else fs == base
  {
    var strays := Strays(base, fs, []);
    if failed {
      var x :| x in strays;
      UpToTarget(strays, target, x);
    } else {
      assert Registered(base, fs, []);
      forall x | x in fs ensures x in base {
        NotStray(base, fs, [], x);
      }
    }
  }
}
