/**
 * `cleanup_project`: a top-down walk (`os.walk`) of a directory tree that
 * removes the cache directories `__pycache__`, `.pytest_cache` and
 * `.mypy_cache` whole, without walking into them, and removes the compiled
 * files `*.pyc` and `*.pyo`. It reports the removed directories and files.
 *
 * The tree is an immutable value and every removal succeeds. The order of a
 * directory's children is the order the walk lists them in.
 */
module Cleanup {
  import opened Text
  import opened Files

  predicate IsCacheDir(name: string) {
    name == "__pycache__" || name == ".pytest_cache" || name == ".mypy_cache"
  }

  predicate IsCompiled(name: string) {
    EndsWith(name, ".pyc") || EndsWith(name, ".pyo")
  }

  /** The two kinds of removal, reported in two separate lists. */
  datatype Target = CacheDirs | CompiledFiles

  /** An entry called `name`, a directory when `isDir`, is removed as a `k`. */
  predicate Targeted(k: Target, isDir: bool, name: string) {
    match k
    case CacheDirs => isDir && IsCacheDir(name)
    case CompiledFiles => !isDir && IsCompiled(name)
  }

  /** Removed wherever the walk finds it. */
  predicate Doomed(t: Tree) {
    Targeted(CacheDirs, t.Dir?, t.name) || Targeted(CompiledFiles, t.Dir?, t.name)
  }

  // ---------------------------------------------------------------------------
  // The walk
  // ---------------------------------------------------------------------------

  /** The children left after the walk: doomed entries dropped, every other directory cleaned in turn. */
  function Prune(cs: seq<Tree>): seq<Tree>
    decreases cs
  {
    if |cs| == 0 then []
    else
      var c := cs[0];
      var rest := Prune(cs[1..]);
      if Doomed(c) then rest
      else if c.Dir? then [Dir(c.name, Prune(c.children))] + rest
      else [c] + rest
  }

  /** What the walk removes as `k` in the directory `root` itself: `root/name` per targeted child, in listing order. */
  function LevelRemoved(root: string, cs: seq<Tree>, k: Target): seq<string> {
    if |cs| == 0 then []
    else
      (if Targeted(k, cs[0].Dir?, cs[0].name) then [Join(root, cs[0].name)] else [])
        + LevelRemoved(root, cs[1..], k)
  }

  /**
   * The report of the walk from `root`: the directory's own removals first,
   * then, for each directory it keeps, in order, the report of the walk below it.
   */
  function Removed(root: string, cs: seq<Tree>, k: Target): seq<string>
    decreases cs, 1
  {
    LevelRemoved(root, cs, k) + RemovedBelow(root, cs, k)
  }

  /** The reports of the kept subdirectories, in order; a removed directory is never walked. */
  function RemovedBelow(root: string, cs: seq<Tree>, k: Target): seq<string>
    decreases cs, 0
  {
    if |cs| == 0 then []
    else
      var c := cs[0];
      (if c.Dir? && !IsCacheDir(c.name) then Removed(Join(root, c.name), c.children, k) else [])
        + RemovedBelow(root, cs[1..], k)
  }

  // ---------------------------------------------------------------------------
  // Entries of a tree, listed with their paths
  // ---------------------------------------------------------------------------

  /** An entry: the names on its path below the walked directory, and whether it is a directory. */
  datatype Entry = Entry(path: seq<string>, isDir: bool)

  /** Every entry below a directory, parents before their contents. */
  function Listing(cs: seq<Tree>): (es: seq<Entry>)
    ensures forall i :: 0 <= i < |es| ==> |es[i].path| > 0
    decreases cs
  {
    if |cs| == 0 then []
    else
      var c := cs[0];
      [Entry([c.name], c.Dir?)] + (if c.Dir? then Under(c.name, Listing(c.children)) else []) + Listing(cs[1..])
  }

  /** The entries of the directory `n`, seen from its parent. */
  function Under(n: string, es: seq<Entry>): (r: seq<Entry>)
    ensures |r| == |es|
    ensures forall i :: 0 <= i < |es| ==> r[i] == Entry([n] + es[i].path, es[i].isDir)
  {
    if |es| == 0 then [] else [Entry([n] + es[0].path, es[0].isDir)] + Under(n, es[1..])
  }

  /** No proper ancestor on the path, each of them a directory, is a cache directory. */
  predicate AncestorsKept(p: seq<string>) {
    |p| <= 1 || (!IsCacheDir(p[0]) && AncestorsKept(p[1..]))
  }

  function Last(p: seq<string>): string
    requires |p| > 0
  {
    p[|p| - 1]
  }

  /** The walk reaches the entry and leaves it in place. */
  predicate Survives(e: Entry) {
    && |e.path| > 0
    && AncestorsKept(e.path)
    && !Targeted(CacheDirs, e.isDir, Last(e.path))
    && !Targeted(CompiledFiles, e.isDir, Last(e.path))
  }

  /** The walk reaches the entry and removes it as a `k`. */
  predicate Hit(k: Target, e: Entry) {
    |e.path| > 0 && AncestorsKept(e.path) && Targeted(k, e.isDir, Last(e.path))
  }

  function Filter<T>(s: seq<T>, f: T -> bool): (r: seq<T>)
    ensures forall i :: 0 <= i < |r| ==> f(r[i])
  {
    if |s| == 0 then []
    else
      assert s == [s[0]] + s[1..];
      (if f(s[0]) then [s[0]] else []) + Filter(s[1..], f)
  }

  function Hits(es: seq<Entry>, k: Target): seq<Entry> {
    Filter(es, (e: Entry) => Hit(k, e))
  }

  function PathsOf(root: string, es: seq<Entry>): (ps: seq<string>)
    ensures |ps| == |es|
    ensures forall i :: 0 <= i < |es| ==> ps[i] == PathString(root, es[i].path)
  {
    if |es| == 0 then [] else [PathString(root, es[0].path)] + PathsOf(root, es[1..])
  }

  /** Nothing in the tree would be removed. */
  predicate Clean(cs: seq<Tree>)
    decreases cs
  {
    forall i :: 0 <= i < |cs| ==> !Doomed(cs[i]) && (cs[i].Dir? ==> Clean(cs[i].children))
  }

  // ---------------------------------------------------------------------------
  // cleanup_project
  // ---------------------------------------------------------------------------

  /**
   * `cleanup_project(top)` on the tree found at `top`: the tree afterwards,
   * the removed directories and the removed files. A non-directory at `top`
   * is not walked. The root is never removed; afterwards the tree lists
   * exactly the entries of the original that the walk reaches and keeps, in
   * their order; the two reports are exactly the paths of the entries the walk
   * reaches and removes, each once.
   */
  function CleanupProject(top: string, t: Tree): (r: (Tree, seq<string>, seq<string>))
    ensures r.0.name == t.name && r.0.Dir? == t.Dir?
    ensures t.File? ==> r == (t, [], [])
    ensures t.Dir? ==> Listing(r.0.children) == Filter(Listing(t.children), Survives)
    ensures t.Dir? ==> multiset(r.1) == multiset(PathsOf(top, Hits(Listing(t.children), CacheDirs)))
    ensures t.Dir? ==> multiset(r.2) == multiset(PathsOf(top, Hits(Listing(t.children), CompiledFiles)))
  {
    match t
    case File(_) => (t, [], [])
    case Dir(n, cs) =>
      ListingPrune(cs);
      RemovedSpec(top, cs, CacheDirs);
      RemovedSpec(top, cs, CompiledFiles);
      (Dir(n, Prune(cs)), Removed(top, cs, CacheDirs), Removed(top, cs, CompiledFiles))
  }

  // ---------------------------------------------------------------------------
  // Lemmas
  // ---------------------------------------------------------------------------

  lemma {:induction false} FilterConcat<T>(a: seq<T>, b: seq<T>, f: T -> bool)
    ensures Filter(a + b, f) == Filter(a, f) + Filter(b, f)
    decreases |a|
  {
    if |a| > 0 {
      assert (a + b)[1..] == a[1..] + b;
      FilterConcat(a[1..], b, f);
    } else {
      assert a + b == b;
    }
  }

  lemma {:induction false} UnderConcat(n: string, a: seq<Entry>, b: seq<Entry>)
    ensures Under(n, a + b) == Under(n, a) + Under(n, b)
  {
    var ab := a + b;
    var l := Under(n, ab);
    var r := Under(n, a) + Under(n, b);
    assert |l| == |r|;
    forall i | 0 <= i < |l| ensures l[i] == r[i] {
      if i < |a| {
        assert ab[i] == a[i];
      } else {
        assert ab[i] == b[i - |a|];
      }
    }
  }

  lemma {:induction false} PathsOfConcat(root: string, a: seq<Entry>, b: seq<Entry>)
    ensures PathsOf(root, a + b) == PathsOf(root, a) + PathsOf(root, b)
  {
    var ab := a + b;
    var pa := PathsOf(root, a);
    var pb := PathsOf(root, b);
    var l := PathsOf(root, ab);
    var r := pa + pb;
    assert |l| == |r|;
    forall i | 0 <= i < |l| ensures l[i] == r[i] {
      var e := if i < |a| then a[i] else b[i - |a|];
      assert ab[i] == e;
      assert r[i] == PathString(root, e.path);
    }
    assert l == r;
  }

  lemma {:induction false} PathsOfUnder(root: string, n: string, es: seq<Entry>)
    ensures PathsOf(root, Under(n, es)) == PathsOf(Join(root, n), es)
  {
    var l := PathsOf(root, Under(n, es));
    var r := PathsOf(Join(root, n), es);
    forall i | 0 <= i < |l| ensures l[i] == r[i] {
      assert ([n] + es[i].path)[1..] == es[i].path;
    }
  }

  /** Seen from the parent, an entry's ancestors are kept iff the parent `n` is kept and they were. */
  lemma AncestorsKeptUnder(n: string, p: seq<string>)
    requires |p| > 0
    ensures AncestorsKept([n] + p) == (!IsCacheDir(n) && AncestorsKept(p))
    ensures Last([n] + p) == Last(p)
  {
    var q := [n] + p;
    assert q[0] == n && q[1..] == p;
  }

  lemma FilterSingle<T>(x: T, f: T -> bool)
    ensures Filter([x], f) == if f(x) then [x] else []
  {
    assert [x][1..] == [];
  }

  /** Filtering the entries of directory `n` by a test that fails below a cache directory. */
  lemma {:induction false} FilterUnder(n: string, es: seq<Entry>, f: Entry -> bool)
    requires forall e :: e in es ==> f(Entry([n] + e.path, e.isDir)) == (!IsCacheDir(n) && f(e))
    ensures Filter(Under(n, es), f) == if IsCacheDir(n) then [] else Under(n, Filter(es, f))
    decreases |es|
  {
    if |es| > 0 {
      var e := es[0];
      var t := es[1..];
      assert es == [e] + t;
      assert forall x :: x in t ==> x in es;
      FilterUnder(n, t, f);
      FilterUnderStep(n, e, t, f);
    }
  }

  /** One entry in front of entries for which `FilterUnder` holds. */
  lemma FilterUnderStep(n: string, e: Entry, t: seq<Entry>, f: Entry -> bool)
    requires f(Entry([n] + e.path, e.isDir)) == (!IsCacheDir(n) && f(e))
    requires Filter(Under(n, t), f) == if IsCacheDir(n) then [] else Under(n, Filter(t, f))
    ensures Filter(Under(n, [e] + t), f) == if IsCacheDir(n) then [] else Under(n, Filter([e] + t, f))
  {
    var e' := Entry([n] + e.path, e.isDir);
    UnderConcat(n, [e], t);
    assert Under(n, [e]) == [e'];
    FilterConcat([e'], Under(n, t), f);
    FilterSingle(e', f);
    if !IsCacheDir(n) {
      FilterConcat([e], t, f);
      FilterSingle(e, f);
      UnderConcat(n, Filter([e], f), Filter(t, f));
    }
  }

  lemma FilterUnderSurvives(n: string, es: seq<Entry>)
    requires forall i :: 0 <= i < |es| ==> |es[i].path| > 0
    ensures Filter(Under(n, es), Survives) == if IsCacheDir(n) then [] else Under(n, Filter(es, Survives))
  {
    forall e | e in es ensures Survives(Entry([n] + e.path, e.isDir)) == (!IsCacheDir(n) && Survives(e)) {
      AncestorsKeptUnder(n, e.path);
    }
    FilterUnder(n, es, Survives);
  }

  lemma FilterUnderHits(n: string, es: seq<Entry>, k: Target)
    requires forall i :: 0 <= i < |es| ==> |es[i].path| > 0
    ensures Hits(Under(n, es), k) == if IsCacheDir(n) then [] else Under(n, Hits(es, k))
  {
    var f := (e: Entry) => Hit(k, e);
    forall e | e in es ensures f(Entry([n] + e.path, e.isDir)) == (!IsCacheDir(n) && f(e)) {
      AncestorsKeptUnder(n, e.path);
    }
    FilterUnder(n, es, f);
  }

  /** The tree after the walk lists exactly the surviving entries of the original, in order. */
  lemma {:induction false} ListingPrune(cs: seq<Tree>)
    ensures Listing(Prune(cs)) == Filter(Listing(cs), Survives)
    decreases cs
  {
    if |cs| > 0 {
      var c := cs[0];
      var rest := cs[1..];
      var head := [Entry([c.name], c.Dir?)];
      var sub := if c.Dir? then Under(c.name, Listing(c.children)) else [];
      ListingPrune(rest);
      assert Listing(cs) == head + sub + Listing(rest);
      FilterConcat(head + sub, Listing(rest), Survives);
      FilterConcat(head, sub, Survives);
      assert Last([c.name]) == c.name;
      assert Survives(head[0]) == !Doomed(c);
      assert Filter(head, Survives) == if Doomed(c) then [] else head;
      if c.Dir? {
        ListingPrune(c.children);
        FilterUnderSurvives(c.name, Listing(c.children));
        if !Doomed(c) {
          var p := Dir(c.name, Prune(c.children));
          assert Prune(cs) == [p] + Prune(rest);
          assert ([p] + Prune(rest))[1..] == Prune(rest);
        }
      } else if !Doomed(c) {
        assert Prune(cs) == [c] + Prune(rest);
        assert ([c] + Prune(rest))[1..] == Prune(rest);
      }
    }
  }

  /** What the walk from `root` removes as `k` at the child `c` itself. */
  function OwnRemoval(root: string, c: Tree, k: Target): seq<string> {
    if Targeted(k, c.Dir?, c.name) then [Join(root, c.name)] else []
  }

  /** What the walk from `root` removes as `k` below the child `c`: nothing below a cache directory or a file. */
  function BelowRemoval(root: string, c: Tree, k: Target): seq<string>
    decreases c, 0
  {
    if c.Dir? && !IsCacheDir(c.name) then Removed(Join(root, c.name), c.children, k) else []
  }

  /** The paths of the entries inside the child `c` that the walk from `root` would remove as `k`. */
  function InsideHits(root: string, c: Tree, k: Target): seq<string> {
    PathsOf(root, Hits(if c.Dir? then Under(c.name, Listing(c.children)) else [], k))
  }

  /** The report from `root` splits into the first child's part and the rest's report. */
  lemma RemovedUnfold(root: string, cs: seq<Tree>, k: Target)
    requires |cs| > 0
    ensures multiset(Removed(root, cs, k)) ==
      multiset(OwnRemoval(root, cs[0], k)) + multiset(BelowRemoval(root, cs[0], k)) + multiset(Removed(root, cs[1..], k))
  {
    var rest := cs[1..];
    var own := OwnRemoval(root, cs[0], k);
    var below := BelowRemoval(root, cs[0], k);
    var level := LevelRemoved(root, rest, k);
    var deeper := RemovedBelow(root, rest, k);
    assert LevelRemoved(root, cs, k) == own + level;
    assert RemovedBelow(root, cs, k) == below + deeper;
    assert Removed(root, rest, k) == level + deeper;
    assert multiset(own + level + (below + deeper)) == multiset(own) + multiset(below) + multiset(level + deeper);
  }

  /** The entries of the first child itself, of its contents, and of the later children. */
  lemma HitsUnfold(root: string, cs: seq<Tree>, k: Target)
    requires |cs| > 0
    ensures multiset(PathsOf(root, Hits(Listing(cs), k))) ==
      multiset(OwnRemoval(root, cs[0], k)) + multiset(InsideHits(root, cs[0], k)) + multiset(PathsOf(root, Hits(Listing(cs[1..]), k)))
  {
    var c := cs[0];
    var head := [Entry([c.name], c.Dir?)];
    var sub := if c.Dir? then Under(c.name, Listing(c.children)) else [];
    var tail := Listing(cs[1..]);
    var f := (e: Entry) => Hit(k, e);
    assert Listing(cs) == head + sub + tail;
    FilterConcat(head + sub, tail, f);
    FilterConcat(head, sub, f);
    PathsOfConcat(root, Hits(head, k) + Hits(sub, k), Hits(tail, k));
    PathsOfConcat(root, Hits(head, k), Hits(sub, k));
    OwnHit(root, c, k);
  }

  /** The child itself is reported, as `root/name`, exactly when it is targeted. */
  lemma OwnHit(root: string, c: Tree, k: Target)
    ensures PathsOf(root, Hits([Entry([c.name], c.Dir?)], k)) == OwnRemoval(root, c, k)
  {
    var e := Entry([c.name], c.Dir?);
    FilterSingle(e, (e: Entry) => Hit(k, e));
    assert Last(e.path) == c.name && AncestorsKept(e.path);
    assert PathString(root, [c.name]) == Join(root, c.name) by {
      assert [c.name][1..] == [];
    }
  }

  /** The reports list, each once and in some order, the paths of the entries the walk reaches and removes. */
  lemma {:induction false} RemovedSpec(root: string, cs: seq<Tree>, k: Target)
    ensures multiset(Removed(root, cs, k)) == multiset(PathsOf(root, Hits(Listing(cs), k)))
    decreases cs
  {
    if |cs| == 0 {
      assert Removed(root, cs, k) == [];
      assert Listing(cs) == [];
    } else {
      RemovedUnfold(root, cs, k);
      HitsUnfold(root, cs, k);
      RemovedSpec(root, cs[1..], k);
      SubtreeSpec(root, cs[0], k);
    }
  }

  /** The part of the report that comes from inside the child `c`. */
  lemma {:induction false} SubtreeSpec(root: string, c: Tree, k: Target)
    ensures multiset(BelowRemoval(root, c, k)) == multiset(InsideHits(root, c, k))
    decreases c
  {
    if c.Dir? {
      FilterUnderHits(c.name, Listing(c.children), k);
      if !IsCacheDir(c.name) {
        RemovedSpec(Join(root, c.name), c.children, k);
        PathsOfUnder(root, c.name, Hits(Listing(c.children), k));
      }
    }
  }

  lemma {:induction false} PruneIsClean(cs: seq<Tree>)
    ensures Clean(Prune(cs))
    decreases cs
  {
    if |cs| > 0 {
      var c := cs[0];
      PruneIsClean(cs[1..]);
      if !Doomed(c) && c.Dir? {
        PruneIsClean(c.children);
      }
      var p := Prune(cs);
      var rest := Prune(cs[1..]);
      forall i | 0 <= i < |p| ensures !Doomed(p[i]) && (p[i].Dir? ==> Clean(p[i].children)) {
        if !Doomed(c) && i > 0 {
          assert p[i] == rest[i - 1];
        }
      }
    }
  }

  lemma {:induction false} CleanIsFixed(root: string, cs: seq<Tree>, k: Target)
    requires Clean(cs)
    ensures Prune(cs) == cs
    ensures Removed(root, cs, k) == []
    decreases cs
  {
    if |cs| > 0 {
      var c := cs[0];
      assert Clean(cs[1..]) by {
        forall i | 0 <= i < |cs[1..]| ensures !Doomed(cs[1..][i]) && (cs[1..][i].Dir? ==> Clean(cs[1..][i].children)) {
          assert cs[1..][i] == cs[i + 1];
        }
      }
      CleanIsFixed(root, cs[1..], k);
      if c.Dir? {
        CleanIsFixed(Join(root, c.name), c.children, k);
        assert Prune(cs) == [Dir(c.name, c.children)] + cs[1..];
      }
      assert cs == [c] + cs[1..];
      assert LevelRemoved(root, cs, k) == LevelRemoved(root, cs[1..], k);
      assert RemovedBelow(root, cs, k) == RemovedBelow(root, cs[1..], k);
    }
  }

  /** Running cleanup again on its own result removes nothing and changes nothing. */
  lemma CleanupIdempotent(top: string, t: Tree)
    ensures var r := CleanupProject(top, t);
      CleanupProject(top, r.0) == (r.0, [], [])
  {
    if t.Dir? {
      PruneIsClean(t.children);
      CleanIsFixed(top, Prune(t.children), CacheDirs);
      CleanIsFixed(top, Prune(t.children), CompiledFiles);
    }
  }

  /** Afterwards no cache directory and no compiled file is left anywhere below the root. */
  lemma NothingLeft(top: string, t: Tree)
    requires t.Dir?
    ensures var r := CleanupProject(top, t);
      forall e :: e in Listing(r.0.children) ==>
        !Targeted(CacheDirs, e.isDir, Last(e.path)) && !Targeted(CompiledFiles, e.isDir, Last(e.path))
  {
    var r := CleanupProject(top, t);
    var l := Listing(r.0.children);
    assert l == Filter(Listing(t.children), Survives);
    forall e | e in l ensures !Targeted(CacheDirs, e.isDir, Last(e.path)) && !Targeted(CompiledFiles, e.isDir, Last(e.path)) {
      var i :| 0 <= i < |l| && l[i] == e;
      assert Survives(l[i]);
    }
  }
}
