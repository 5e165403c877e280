/**
 * `mkdoc`: a top-down walk (`os.walk`) of the current directory "." that
 * writes README_generated.md: a fixed header, then one section per visited
 * directory with its subdirectories and files in sorted order, all lines
 * joined by '\n'.
 *
 * The skip test for hidden directories splits the walked root on '/' and
 * asks whether any part starts with '.'. Every root the walk yields starts
 * with the part ".", so as written every directory is skipped and the file
 * holds the header alone. `MkDocAsWritten` models that; `MkDoc` is the
 * evidently intended command, which skips hidden directories and files like
 * `.git`: it ignores the "." part, so it documents exactly the directories
 * with no hidden name on their path, and it lists no hidden subdirectory or
 * file in their sections.
 */
module MkDoc {
  import opened Text
  import opened Files

  const OutputFile := "README_generated.md"
  const Header: seq<string> := ["# Project Documentation", "", "## Directory Structure", ""]
  const SectionMark := "### "
  const DirMark := "- **Directory:** "
  const FileMark := "- File: "

  /** A name a directory listing can return: non-empty, without '/', not "." itself. */
  predicate ValidName(n: string) {
    n != [] && '/' !in n && n != "."
  }

  predicate ValidPath(p: seq<string>) {
    forall i :: 0 <= i < |p| ==> ValidName(p[i])
  }

  predicate ValidTrees(cs: seq<Tree>)
    decreases cs
  {
    forall i :: 0 <= i < |cs| ==> ValidName(cs[i].name) && (cs[i].Dir? ==> ValidTrees(cs[i].children))
  }

  /** A hidden name starts with '.'. */
  predicate Hidden(n: string) {
    IsPrefix(".", n)
  }

  predicate NoneHidden(p: seq<string>) {
    forall i :: 0 <= i < |p| ==> !Hidden(p[i])
  }

  // ---------------------------------------------------------------------------
  // The walk
  // ---------------------------------------------------------------------------

  /**
   * One triple the walk yields: the names from "." down to the directory,
   * then the names of its subdirectories and of its files, in listing order.
   */
  datatype Step = Step(path: seq<string>, dirs: seq<string>, files: seq<string>)

  /** The `root` string of a step: "." joined with each name in turn. */
  function Root(s: Step): string {
    PathString(".", s.path)
  }

  function DirNames(cs: seq<Tree>): (ns: seq<string>)
    ensures forall n :: n in ns <==> exists i :: 0 <= i < |cs| && cs[i].Dir? && cs[i].name == n
  {
    if |cs| == 0 then []
    else
      var rest := DirNames(cs[1..]);
      assert forall n :: n in rest <==> exists i :: 1 <= i < |cs| && cs[i].Dir? && cs[i].name == n by {
        forall n | n in rest ensures exists i :: 1 <= i < |cs| && cs[i].Dir? && cs[i].name == n {
          var j :| 0 <= j < |cs[1..]| && cs[1..][j].Dir? && cs[1..][j].name == n;
          assert cs[j + 1] == cs[1..][j];
        }
        forall n | exists i :: 1 <= i < |cs| && cs[i].Dir? && cs[i].name == n ensures n in rest {
          var i :| 1 <= i < |cs| && cs[i].Dir? && cs[i].name == n;
          assert cs[1..][i - 1] == cs[i];
        }
      }
      (if cs[0].Dir? then [cs[0].name] else []) + rest
  }

  function FileNames(cs: seq<Tree>): (ns: seq<string>)
    ensures forall n :: n in ns <==> exists i :: 0 <= i < |cs| && cs[i].File? && cs[i].name == n
  {
    if |cs| == 0 then []
    else
      var rest := FileNames(cs[1..]);
      assert forall n :: n in rest <==> exists i :: 1 <= i < |cs| && cs[i].File? && cs[i].name == n by {
        forall n | n in rest ensures exists i :: 1 <= i < |cs| && cs[i].File? && cs[i].name == n {
          var j :| 0 <= j < |cs[1..]| && cs[1..][j].File? && cs[1..][j].name == n;
          assert cs[j + 1] == cs[1..][j];
        }
        forall n | exists i :: 1 <= i < |cs| && cs[i].File? && cs[i].name == n ensures n in rest {
          var i :| 1 <= i < |cs| && cs[i].File? && cs[i].name == n;
          assert cs[1..][i - 1] == cs[i];
        }
      }
      (if cs[0].File? then [cs[0].name] else []) + rest
  }

  /** `os.walk` from the directory at `p`: that directory first, then each subdirectory's walk in listing order. */
  function Walk(p: seq<string>, cs: seq<Tree>): seq<Step>
    decreases cs, 1
  {
    [Step(p, DirNames(cs), FileNames(cs))] + WalkBelow(p, cs)
  }

  function WalkBelow(p: seq<string>, cs: seq<Tree>): seq<Step>
    decreases cs, 0
  {
    if |cs| == 0 then []
    else
      (if cs[0].Dir? then Walk(p + [cs[0].name], cs[0].children) else []) + WalkBelow(p, cs[1..])
  }

  /** The reference walk: the same order, but it never enters a hidden directory. */
  function VisibleWalk(p: seq<string>, cs: seq<Tree>): seq<Step>
    decreases cs, 1
  {
    [Step(p, DirNames(cs), FileNames(cs))] + VisibleBelow(p, cs)
  }

  function VisibleBelow(p: seq<string>, cs: seq<Tree>): seq<Step>
    decreases cs, 0
  {
    if |cs| == 0 then []
    else
      (if cs[0].Dir? && !Hidden(cs[0].name) then VisibleWalk(p + [cs[0].name], cs[0].children) else [])
        + VisibleBelow(p, cs[1..])
  }

  // ---------------------------------------------------------------------------
  // The skip test
  // ---------------------------------------------------------------------------

  /** `root.split(os.sep)` */
  function Parts(s: Step): seq<string> {
    SplitOn(Root(s), '/')
  }

  /** The test as written: some part of the root, "." included, starts with '.'. */
  predicate SkippedAsWritten(s: Step) {
    exists i | 0 <= i < |Parts(s)| :: Hidden(Parts(s)[i])
  }

  /** The test as intended: some part other than the starting "." starts with '.'. */
  predicate Skipped(s: Step) {
    exists i | 0 <= i < |Parts(s)| :: Parts(s)[i] != "." && Hidden(Parts(s)[i])
  }

  function KeptAsWritten(steps: seq<Step>): seq<Step> {
    if |steps| == 0 then []
    else (if SkippedAsWritten(steps[0]) then [] else [steps[0]]) + KeptAsWritten(steps[1..])
  }

  function Kept(steps: seq<Step>): seq<Step> {
    if |steps| == 0 then []
    else (if Skipped(steps[0]) then [] else [steps[0]]) + Kept(steps[1..])
  }

  // ---------------------------------------------------------------------------
  // The document
  // ---------------------------------------------------------------------------

  /** `os.path.relpath(root, ".")` for a root the walk yields. */
  function Rel(p: seq<string>): string {
    if p == [] then "." else JoinWith(p, "/")
  }

  function Marked(mark: string, ns: seq<string>): (ls: seq<string>)
    ensures |ls| == |ns|
    ensures forall i :: 0 <= i < |ns| ==> ls[i] == mark + ns[i]
  {
    if |ns| == 0 then [] else [mark + ns[0]] + Marked(mark, ns[1..])
  }

  /** The lines of one directory's section, ending in an empty line. */
  function Section(s: Step): seq<string> {
    [SectionMark + Rel(s.path)] + Marked(DirMark, Sort(s.dirs)) + Marked(FileMark, Sort(s.files)) + [""]
  }

  function Sections(steps: seq<Step>): seq<string> {
    if |steps| == 0 then [] else Section(steps[0]) + Sections(steps[1..])
  }

  /** The names of a listing that are not hidden, in listing order. */
  function Shown(ns: seq<string>): (vs: seq<string>)
    ensures forall n :: n in vs <==> n in ns && !Hidden(n)
    ensures forall n :: !Hidden(n) ==> multiset(vs)[n] == multiset(ns)[n]
  {
    if |ns| == 0 then []
    else
      assert ns == [ns[0]] + ns[1..];
      (if Hidden(ns[0]) then [] else [ns[0]]) + Shown(ns[1..])
  }

  /** A step as the corrected command reports it: its hidden subdirectories and files are not listed. */
  function Unhidden(s: Step): Step {
    Step(s.path, Shown(s.dirs), Shown(s.files))
  }

  function UnhiddenAll(steps: seq<Step>): (rs: seq<Step>)
    ensures |rs| == |steps|
    ensures forall i :: 0 <= i < |steps| ==> rs[i] == Unhidden(steps[i])
  {
    if |steps| == 0 then [] else [Unhidden(steps[0])] + UnhiddenAll(steps[1..])
  }

  /**
   * A report line that names a hidden entry: a listed subdirectory or file
   * whose name starts with '.', or a section whose path has such a name
   * below the starting ".".
   */
  predicate NamesHidden(l: string) {
    || (IsPrefix(DirMark, l) && Hidden(l[|DirMark|..]))
    || (IsPrefix(FileMark, l) && Hidden(l[|FileMark|..]))
    || (IsPrefix(SectionMark, l) && exists part :: part in SplitOn(l[|SectionMark|..], '/') && part != "." && Hidden(part))
  }

  /** The command as written, on the entries of the current directory. */
  function MkDocAsWritten(cs: seq<Tree>): (w: Write<string>)
    ensures w.path == OutputFile
    ensures ValidTrees(cs) ==> w.content == "# Project Documentation\n\n## Directory Structure\n"
  {
    var steps := Walk([], cs);
    KeptAsWrittenTop(cs);
    HeaderText();
    assert ValidTrees(cs) ==> Header + Sections(KeptAsWritten(steps)) == Header;
    Write(OutputFile, JoinWith(Header + Sections(KeptAsWritten(steps)), "\n"))
  }

  /**
   * The command as intended: the sections are those of the walk that never
   * enters a hidden directory, each without its hidden entries.
   */
  function MkDoc(cs: seq<Tree>): (w: Write<string>)
    ensures w.path == OutputFile
    ensures ValidTrees(cs) ==> w.content == JoinWith(Header + Sections(UnhiddenAll(VisibleWalk([], cs))), "\n")
  {
    var steps := Walk([], cs);
    KeptTop(cs);
    Write(OutputFile, JoinWith(Header + Sections(UnhiddenAll(Kept(steps))), "\n"))
  }

  // ---------------------------------------------------------------------------
  // Lemmas
  // ---------------------------------------------------------------------------

  lemma {:induction false} PathStringSnoc(root: string, p: seq<string>, x: string)
    ensures PathString(root, p + [x]) == Join(PathString(root, p), x)
    decreases |p|
  {
    if |p| > 0 {
      assert (p + [x])[1..] == p[1..] + [x];
      PathStringSnoc(Join(root, p[0]), p[1..], x);
    } else {
      assert [x][1..] == [];
    }
  }

  /** Dropping the last name of a valid path leaves a valid path. */
  lemma ValidPathInit(p: seq<string>)
    requires ValidPath(p) && p != []
    ensures ValidPath(p[..|p| - 1]) && ValidName(p[|p| - 1])
    ensures p == p[..|p| - 1] + [p[|p| - 1]]
  {
    var q := p[..|p| - 1];
    forall i | 0 <= i < |q| ensures ValidName(q[i]) {
      assert q[i] == p[i];
    }
  }

  /**
   * The root of a walk step below "." is "./" followed by its names joined
   * with '/', so `os.path.relpath` gives back `Rel` of the names.
   */
  lemma {:induction false} RootString(p: seq<string>)
    requires ValidPath(p)
    ensures PathString(".", p) == if p == [] then "." else "./" + Rel(p)
    ensures var r := PathString(".", p); |r| > 0 && r[|r| - 1] != '/'
    decreases |p|
  {
    if p != [] {
      var q := p[..|p| - 1];
      var x := p[|p| - 1];
      ValidPathInit(p);
      RootString(q);
      assert q + [x] == p;
      RootStep(q, x);
    }
  }

  /** One more name below a root: a '/' and the name are appended. */
  lemma RootStep(q: seq<string>, x: string)
    requires ValidName(x)
    requires PathString(".", q) == if q == [] then "." else "./" + Rel(q)
    requires var r := PathString(".", q); |r| > 0 && r[|r| - 1] != '/'
    ensures PathString(".", q + [x]) == "./" + Rel(q + [x])
    ensures var r := PathString(".", q + [x]); |r| > 0 && r[|r| - 1] != '/'
  {
    var r := PathString(".", q);
    PathStringSnoc(".", q, x);
    JoinRelative(r, x);
    var u := r + "/" + x;
    assert u[|u| - 1] == x[|x| - 1];
    if q != [] {
      RootStepBelow(q, x);
    } else {
      RootStepFirst(x);
    }
  }

  lemma RootStepFirst(x: string)
    ensures "." + "/" + x == "./" + Rel([x])
  {
    assert "." + "/" == "./";
  }

  lemma RootStepBelow(q: seq<string>, x: string)
    requires q != []
    ensures "./" + Rel(q) + "/" + x == "./" + Rel(q + [x])
  {
    JoinWithSnoc(q, x, "/");
  }

  /** Splitting the root of a walk step on '/' gives "." followed by the names. */
  lemma {:induction false} RootParts(p: seq<string>)
    requires ValidPath(p)
    ensures SplitOn(PathString(".", p), '/') == ["."] + p
    decreases |p|
  {
    if p == [] {
      IndexOfAbsent(".", '/');
    } else {
      var q := p[..|p| - 1];
      var x := p[|p| - 1];
      ValidPathInit(p);
      RootParts(q);
      RootString(q);
      assert q + [x] == p;
      RootPartsStep(q, x);
    }
  }

  lemma RootPartsStep(q: seq<string>, x: string)
    requires ValidName(x)
    requires SplitOn(PathString(".", q), '/') == ["."] + q
    requires var r := PathString(".", q); |r| > 0 && r[|r| - 1] != '/'
    ensures SplitOn(PathString(".", q + [x]), '/') == ["."] + (q + [x])
  {
    var r := PathString(".", q);
    PathStringSnoc(".", q, x);
    JoinRelative(r, x);
    assert PathString(".", q + [x]) == r + ['/'] + x;
    SplitOnAppend(r, '/', x);
    assert ["."] + q + [x] == ["."] + (q + [x]);
  }

  /** As written, every step of a walk from "." is skipped: its first part is "." itself. */
  lemma SkippedAsWrittenAlways(s: Step)
    requires ValidPath(s.path)
    ensures SkippedAsWritten(s)
  {
    RootParts(s.path);
    assert Parts(s)[0] == ".";
  }

  /** As intended, a step is skipped exactly when one of its names is hidden. */
  lemma SkippedIff(s: Step)
    requires ValidPath(s.path)
    ensures Skipped(s) <==> !NoneHidden(s.path)
  {
    RootParts(s.path);
    var parts := Parts(s);
    assert parts == ["."] + s.path;
    if !NoneHidden(s.path) {
      var i :| 0 <= i < |s.path| && Hidden(s.path[i]);
      assert parts[i + 1] == s.path[i];
    }
    if Skipped(s) {
      var i :| 0 <= i < |parts| && parts[i] != "." && Hidden(parts[i]);
      assert s.path[i - 1] == parts[i];
    }
  }

  lemma {:induction false} KeptConcat(a: seq<Step>, b: seq<Step>)
    ensures Kept(a + b) == Kept(a) + Kept(b)
    decreases |a|
  {
    if |a| > 0 {
      assert (a + b)[1..] == a[1..] + b;
      KeptConcat(a[1..], b);
    } else {
      assert a + b == b;
    }
  }

  lemma {:induction false} KeptAsWrittenConcat(a: seq<Step>, b: seq<Step>)
    ensures KeptAsWritten(a + b) == KeptAsWritten(a) + KeptAsWritten(b)
    decreases |a|
  {
    if |a| > 0 {
      assert (a + b)[1..] == a[1..] + b;
      KeptAsWrittenConcat(a[1..], b);
    } else {
      assert a + b == b;
    }
  }

  lemma ValidPathSnoc(p: seq<string>, n: string)
    requires ValidPath(p) && ValidName(n)
    ensures ValidPath(p + [n])
    ensures NoneHidden(p + [n]) == (NoneHidden(p) && !Hidden(n))
  {
    var q := p + [n];
    if NoneHidden(q) {
      forall i | 0 <= i < |p| ensures !Hidden(p[i]) {
        assert q[i] == p[i];
      }
      assert q[|p|] == n;
    }
  }

  /** As written, nothing the walk yields from a valid tree is kept. */
  lemma {:induction false} KeptAsWrittenWalk(p: seq<string>, cs: seq<Tree>)
    requires ValidPath(p) && ValidTrees(cs)
    ensures KeptAsWritten(Walk(p, cs)) == []
    decreases cs, 1
  {
    var s := Step(p, DirNames(cs), FileNames(cs));
    KeptAsWrittenConcat([s], WalkBelow(p, cs));
    SkippedAsWrittenAlways(s);
    assert KeptAsWritten([s]) == [] by {
      assert [s][1..] == [];
    }
    KeptAsWrittenBelow(p, cs);
  }

  lemma {:induction false} KeptAsWrittenBelow(p: seq<string>, cs: seq<Tree>)
    requires ValidPath(p) && ValidTrees(cs)
    ensures KeptAsWritten(WalkBelow(p, cs)) == []
    decreases cs, 0
  {
    if |cs| > 0 {
      var c := cs[0];
      var first := if c.Dir? then Walk(p + [c.name], c.children) else [];
      assert ValidTrees(cs[1..]) by {
        forall i | 0 <= i < |cs[1..]| ensures ValidName(cs[1..][i].name) && (cs[1..][i].Dir? ==> ValidTrees(cs[1..][i].children)) {
          assert cs[1..][i] == cs[i + 1];
        }
      }
      KeptAsWrittenConcat(first, WalkBelow(p, cs[1..]));
      KeptAsWrittenBelow(p, cs[1..]);
      if c.Dir? {
        ValidPathSnoc(p, c.name);
        KeptAsWrittenWalk(p + [c.name], c.children);
      }
    }
  }

  /** The header alone, joined. */
  lemma HeaderText()
    ensures JoinWith(Header, "\n") == "# Project Documentation\n\n## Directory Structure\n"
  {
    var l2: seq<string> := ["## Directory Structure", ""];
    var l1: seq<string> := [""] + l2;
    assert Header == ["# Project Documentation"] + l1;
    JoinWithCons("## Directory Structure", [""], "\n");
    JoinWithCons("", l2, "\n");
    JoinWithCons("# Project Documentation", l1, "\n");
    HeaderLiteral();
  }

  lemma HeaderLiteral()
    ensures "# Project Documentation" + "\n" + ("" + "\n" + ("## Directory Structure" + "\n" + ""))
      == "# Project Documentation\n\n## Directory Structure\n"
  {
    HeaderLastLine();
    HeaderFirstLines();
  }

  lemma HeaderLastLine()
    ensures "" + "\n" + ("## Directory Structure" + "\n" + "") == "\n## Directory Structure\n"
  {
    assert "## Directory Structure" + "\n" + "" == "## Directory Structure\n";
  }

  lemma HeaderFirstLines()
    ensures "# Project Documentation" + "\n" + "\n## Directory Structure\n" == "# Project Documentation\n\n## Directory Structure\n"
  {
  }

  lemma KeptAsWrittenTop(cs: seq<Tree>)
    ensures ValidTrees(cs) ==> KeptAsWritten(Walk([], cs)) == []
  {
    if ValidTrees(cs) {
      KeptAsWrittenWalk([], cs);
    }
  }

  lemma KeptTop(cs: seq<Tree>)
    ensures ValidTrees(cs) ==> Kept(Walk([], cs)) == VisibleWalk([], cs)
  {
    if ValidTrees(cs) {
      KeptWalk([], cs);
    }
  }

  /** As intended, the kept steps are exactly those of the walk that never enters a hidden directory. */
  lemma {:induction false} KeptWalk(p: seq<string>, cs: seq<Tree>)
    requires ValidPath(p) && ValidTrees(cs)
    ensures Kept(Walk(p, cs)) == if NoneHidden(p) then VisibleWalk(p, cs) else []
    decreases cs, 1
  {
    var s := Step(p, DirNames(cs), FileNames(cs));
    KeptConcat([s], WalkBelow(p, cs));
    SkippedIff(s);
    assert Kept([s]) == if NoneHidden(p) then [s] else [] by {
      assert [s][1..] == [];
    }
    KeptBelow(p, cs);
  }

  lemma {:induction false} KeptBelow(p: seq<string>, cs: seq<Tree>)
    requires ValidPath(p) && ValidTrees(cs)
    ensures Kept(WalkBelow(p, cs)) == if NoneHidden(p) then VisibleBelow(p, cs) else []
    decreases cs, 0
  {
    if |cs| > 0 {
      var c := cs[0];
      var first := if c.Dir? then Walk(p + [c.name], c.children) else [];
      assert ValidTrees(cs[1..]) by {
        forall i | 0 <= i < |cs[1..]| ensures ValidName(cs[1..][i].name) && (cs[1..][i].Dir? ==> ValidTrees(cs[1..][i].children)) {
          assert cs[1..][i] == cs[i + 1];
        }
      }
      KeptConcat(first, WalkBelow(p, cs[1..]));
      KeptBelow(p, cs[1..]);
      if c.Dir? {
        ValidPathSnoc(p, c.name);
        KeptWalk(p + [c.name], c.children);
      }
    }
  }

  /**
   * A section opens with the directory's path relative to ".", lists every
   * subdirectory and then every file, each once and in sorted order, and
   * ends with an empty line.
   */
  lemma SectionContents(s: Step)
    ensures var r := Section(s);
      && |r| == |s.dirs| + |s.files| + 2
      && r[0] == SectionMark + Rel(s.path)
      && r[|r| - 1] == ""
      && exists ds, fs ::
        && |ds| == |s.dirs| && |fs| == |s.files|
        && Sorted(ds) && multiset(ds) == multiset(s.dirs)
        && Sorted(fs) && multiset(fs) == multiset(s.files)
        && r[1..1 + |ds|] == Marked(DirMark, ds)
        && r[1 + |ds|..|r| - 1] == Marked(FileMark, fs)
  {
    var ds := Sort(s.dirs);
    var fs := Sort(s.files);
    var a := Marked(DirMark, ds);
    var b := Marked(FileMark, fs);
    assert |ds| == |s.dirs| by {
      assert |multiset(ds)| == |multiset(s.dirs)|;
    }
    assert |fs| == |s.files| by {
      assert |multiset(fs)| == |multiset(s.files)|;
    }
    FourParts(SectionMark + Rel(s.path), a, b, "");
  }

  lemma FourParts<T>(h: T, a: seq<T>, b: seq<T>, z: T)
    ensures var r := [h] + a + b + [z];
      && |r| == |a| + |b| + 2 && r[0] == h && r[|r| - 1] == z
      && r[1..1 + |a|] == a && r[1 + |a|..|r| - 1] == b
  {
    var r := [h] + a + b + [z];
    assert r[1..1 + |a|] == a by {
      forall i | 0 <= i < |a| ensures r[1 + i] == a[i] {
      }
    }
    assert r[1 + |a|..|r| - 1] == b by {
      forall i | 0 <= i < |b| ensures r[1 + |a| + i] == b[i] {
      }
    }
  }

  // ---------------------------------------------------------------------------
  // Nothing hidden in the corrected report
  // ---------------------------------------------------------------------------

  /** No line of the corrected report names a hidden directory or file. */
  lemma ReportHidesNothing(cs: seq<Tree>)
    requires ValidTrees(cs)
    ensures forall l :: l in Header + Sections(UnhiddenAll(VisibleWalk([], cs))) ==> !NamesHidden(l)
  {
    HeaderHidesNothing();
    VisiblePaths([], cs);
    SectionsHideNothing(VisibleWalk([], cs));
  }

  lemma HeaderHidesNothing()
    ensures forall l :: l in Header ==> !NamesHidden(l)
  {
    var h0, h2 := "# Project Documentation", "## Directory Structure";
    DiffersAt(DirMark, h0, 0);
    DiffersAt(FileMark, h0, 0);
    DiffersAt(SectionMark, h0, 1);
    DiffersAt(DirMark, h2, 0);
    DiffersAt(FileMark, h2, 0);
    DiffersAt(SectionMark, h2, 2);
  }

  /** `l` does not start with `p` when they differ at position `k`, or `l` ends before it. */
  lemma DiffersAt(p: string, l: string, k: nat)
    requires k < |p| && (k < |l| ==> l[k] != p[k])
    ensures !IsPrefix(p, l)
  {
    if |p| <= |l| {
      assert l[..|p|][k] == l[k];
    }
  }

  /** A name that does not start with '.' is not hidden. */
  lemma NotHidden(n: string)
    requires n != [] && n[0] != '.'
    ensures !Hidden(n)
  {
    DiffersAt(".", n, 0);
  }

  /** Every step of the reference walk from a visible path has a visible path. */
  lemma {:induction false} VisiblePaths(p: seq<string>, cs: seq<Tree>)
    requires ValidPath(p) && NoneHidden(p) && ValidTrees(cs)
    ensures forall s :: s in VisibleWalk(p, cs) ==> ValidPath(s.path) && NoneHidden(s.path)
    decreases cs, 1
  {
    VisibleBelowPaths(p, cs);
  }

  lemma {:induction false} VisibleBelowPaths(p: seq<string>, cs: seq<Tree>)
    requires ValidPath(p) && NoneHidden(p) && ValidTrees(cs)
    ensures forall s :: s in VisibleBelow(p, cs) ==> ValidPath(s.path) && NoneHidden(s.path)
    decreases cs, 0
  {
    if |cs| > 0 {
      var c := cs[0];
      assert ValidTrees(cs[1..]) by {
        forall i | 0 <= i < |cs[1..]| ensures ValidName(cs[1..][i].name) && (cs[1..][i].Dir? ==> ValidTrees(cs[1..][i].children)) {
          assert cs[1..][i] == cs[i + 1];
        }
      }
      VisibleBelowPaths(p, cs[1..]);
      if c.Dir? && !Hidden(c.name) {
        ValidPathSnoc(p, c.name);
        VisiblePaths(p + [c.name], c.children);
      }
    }
  }

  lemma {:induction false} SectionsHideNothing(steps: seq<Step>)
    requires forall s :: s in steps ==> ValidPath(s.path) && NoneHidden(s.path)
    ensures forall l :: l in Sections(UnhiddenAll(steps)) ==> !NamesHidden(l)
    decreases |steps|
  {
    if |steps| > 0 {
      var rs := UnhiddenAll(steps);
      assert rs[1..] == UnhiddenAll(steps[1..]);
      assert steps[0] in steps;
      SectionHidesNothing(steps[0]);
      SectionsHideNothing(steps[1..]);
    }
  }

  /** A section of a visible directory, without its hidden entries, names nothing hidden. */
  lemma SectionHidesNothing(s: Step)
    requires ValidPath(s.path) && NoneHidden(s.path)
    ensures forall l :: l in Section(Unhidden(s)) ==> !NamesHidden(l)
  {
    var u := Unhidden(s);
    var ds, fs := Sort(u.dirs), Sort(u.files);
    assert Section(u) == [SectionMark + Rel(s.path)] + Marked(DirMark, ds) + Marked(FileMark, fs) + [""];
    HeadingLine(s.path);
    SortedShown(s.dirs);
    SortedShown(s.files);
    DirLines(ds);
    FileLines(fs);
    DiffersAt(DirMark, "", 0);
    DiffersAt(FileMark, "", 0);
    DiffersAt(SectionMark, "", 0);
  }

  /** Sorting the shown names keeps them shown. */
  lemma SortedShown(ns: seq<string>)
    ensures forall n :: n in Sort(Shown(ns)) ==> !Hidden(n)
  {
    forall n | n in Sort(Shown(ns)) ensures !Hidden(n) {
      assert n in multiset(Sort(Shown(ns)));
    }
  }

  lemma DirLines(ns: seq<string>)
    requires forall n :: n in ns ==> !Hidden(n)
    ensures forall l :: l in Marked(DirMark, ns) ==> !NamesHidden(l)
  {
    var ls := Marked(DirMark, ns);
    forall l | l in ls ensures !NamesHidden(l) {
      var i :| 0 <= i < |ls| && ls[i] == l;
      assert ns[i] in ns;
      DirLine(ns[i]);
    }
  }

  lemma FileLines(ns: seq<string>)
    requires forall n :: n in ns ==> !Hidden(n)
    ensures forall l :: l in Marked(FileMark, ns) ==> !NamesHidden(l)
  {
    var ls := Marked(FileMark, ns);
    forall l | l in ls ensures !NamesHidden(l) {
      var i :| 0 <= i < |ls| && ls[i] == l;
      assert ns[i] in ns;
      FileLine(ns[i]);
    }
  }

  lemma HeadingLine(p: seq<string>)
    requires ValidPath(p) && NoneHidden(p)
    ensures !NamesHidden(SectionMark + Rel(p))
  {
    var l := SectionMark + Rel(p);
    assert l[..|SectionMark|] == SectionMark && l[|SectionMark|..] == Rel(p);
    assert l[0] == '#';
    DiffersAt(DirMark, l, 0);
    DiffersAt(FileMark, l, 0);
    RelParts(p);
  }

  lemma DirLine(n: string)
    requires !Hidden(n)
    ensures !NamesHidden(DirMark + n)
  {
    var l := DirMark + n;
    assert l[..|DirMark|] == DirMark && l[|DirMark|..] == n;
    assert l[0] == '-' && l[2] == '*';
    DiffersAt(FileMark, l, 2);
    DiffersAt(SectionMark, l, 0);
  }

  lemma FileLine(n: string)
    requires !Hidden(n)
    ensures !NamesHidden(FileMark + n)
  {
    var l := FileMark + n;
    assert l[..|FileMark|] == FileMark && l[|FileMark|..] == n;
    assert l[0] == '-' && l[2] == 'F';
    DiffersAt(DirMark, l, 2);
    DiffersAt(SectionMark, l, 0);
  }

  /** Splitting a relative path on '/' gives back its names, or "." for the starting directory. */
  lemma {:induction false} RelParts(p: seq<string>)
    requires ValidPath(p)
    ensures SplitOn(Rel(p), '/') == if p == [] then ["."] else p
    decreases |p|
  {
    if p == [] {
      IndexOfAbsent(".", '/');
    } else if |p| == 1 {
      IndexOfAbsent(p[0], '/');
    } else {
      ValidPathInit(p);
      var q, x := p[..|p| - 1], p[|p| - 1];
      JoinWithSnoc(q, x, "/");
      SplitOnAppend(JoinWith(q, "/"), '/', x);
      RelParts(q);
    }
  }

  /** A project holding `.git/HEAD`, `.gitignore` and `main.py`: the report of "." lists `main.py` alone. */
  lemma HiddenEntriesLeftOut()
    ensures var cs := [Dir(".git", [File("HEAD")]), File(".gitignore"), File("main.py")];
      Sections(UnhiddenAll(VisibleWalk([], cs))) == ["### .", "- File: main.py", ""]
  {
    var cs := [Dir(".git", [File("HEAD")]), File(".gitignore"), File("main.py")];
    var top := Step([], [".git"], [".gitignore", "main.py"]);
    var u := Step([], [], ["main.py"]);
    HiddenProjectWalk();
    HiddenProjectShown();
    assert UnhiddenAll([top]) == [u];
    SingleFileSection();
    assert [u][1..] == [];
  }

  lemma HiddenProjectWalk()
    ensures VisibleWalk([], [Dir(".git", [File("HEAD")]), File(".gitignore"), File("main.py")])
      == [Step([], [".git"], [".gitignore", "main.py"])]
  {
    var cs := [Dir(".git", [File("HEAD")]), File(".gitignore"), File("main.py")];
    assert Hidden(".git");
    assert DirNames(cs) == [".git"] && FileNames(cs) == [".gitignore", "main.py"];
    assert VisibleBelow([], cs[1..]) == [];
  }

  lemma HiddenProjectShown()
    ensures Unhidden(Step([], [".git"], [".gitignore", "main.py"])) == Step([], [], ["main.py"])
  {
    assert Hidden(".git") && Hidden(".gitignore");
    NotHidden("main.py");
    assert Shown(["main.py"]) == ["main.py"];
  }

  lemma SingleFileWalk()
    ensures VisibleWalk([], [File("main.py")]) == [Step([], [], ["main.py"])]
  {
    var cs := [File("main.py")];
    assert DirNames(cs) == [] && FileNames(cs) == ["main.py"] && VisibleBelow([], cs) == [];
  }

  lemma SingleFileSection()
    ensures Section(Step([], [], ["main.py"])) == ["### .", "- File: main.py", ""]
  {
    assert Sort(["main.py"]) == ["main.py"] && Marked(FileMark, ["main.py"]) == [FileMark + "main.py"];
    assert FileMark + "main.py" == "- File: main.py" && SectionMark + "." == "### .";
    assert Section(Step([], [], ["main.py"])) == [SectionMark + "."] + [] + [FileMark + "main.py"] + [""];
  }

  /** The intended sections for a project holding only `main.py`: the root "." with its one file. */
  lemma SingleFileSections()
    ensures ValidTrees([File("main.py")])
    ensures Sections(UnhiddenAll(VisibleWalk([], [File("main.py")]))) == ["### .", "- File: main.py", ""]
  {
    assert ValidName("main.py");
    SingleFileWalk();
    var u := Step([], [], ["main.py"]);
    NotHidden("main.py");
    assert Shown(["main.py"]) == ["main.py"];
    assert UnhiddenAll([u]) == [u];
    SingleFileSection();
    assert [u][1..] == [];
  }

  /**
   * Example: for a project holding only `main.py` the command as
   * written writes the header alone, while the intended one adds the section
   * of "." listing the file.
   */
  lemma SingleFileProject()
    ensures MkDocAsWritten([File("main.py")]).content == "# Project Documentation\n\n## Directory Structure\n"
    ensures MkDoc([File("main.py")]).content == JoinWith(Header + ["### .", "- File: main.py", ""], "\n")
    ensures MkDoc([File("main.py")]).content != MkDocAsWritten([File("main.py")]).content
  {
    SingleFileSections();
    HeaderText();
    JoinWithConcat(Header, ["### .", "- File: main.py", ""], "\n");
  }
}
