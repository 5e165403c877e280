/**
 * Paths, file writes and the effect a handler has on the file system. A path
 * is a string joined the way `os.path.join` joins on POSIX; the file system
 * is the set of existing directories and a map from file paths to contents.
 * Contents are a type parameter: text, or the name of the template a file
 * was written from.
 */
module Files {
  import opened Text

  /** `os.path.join(a, b)` on POSIX: an absolute `b` replaces `a`; otherwise one '/' goes between. */
  function Join(a: string, b: string): string {
    if |b| > 0 && b[0] == '/' then b
    else if a == "" || a[|a| - 1] == '/' then a + b
    else a + "/" + b
  }

  /** What every path joined onto `a` starts with. */
  function DirPrefix(a: string): string {
    if a == "" || a[|a| - 1] == '/' then a else a + "/"
  }

  /** A relative name joined onto `a` lands under `a`'s prefix. */
  lemma JoinRelative(a: string, b: string)
    requires b == [] || b[0] != '/'
    ensures Join(a, b) == DirPrefix(a) + b
  {
  }

  /** The relative path of `y` inside the subdirectory `x`. */
  function Inside(x: string, y: string): string {
    x + "/" + y
  }

  /** Joining twice is joining once with the two names separated by '/'. */
  lemma JoinJoin(a: string, x: string, y: string)
    requires x != [] && x[0] != '/' && x[|x| - 1] != '/'
    requires y == [] || y[0] != '/'
    ensures Join(Join(a, x), y) == DirPrefix(a) + Inside(x, y)
  {
    var ax := DirPrefix(a) + x;
    assert ax[|ax| - 1] == x[|x| - 1];
    assert ax + "/" + y == DirPrefix(a) + Inside(x, y);
  }

  /** Different relative names under one directory are different paths. */
  lemma UnderInjective(a: string, x: string, y: string)
    requires DirPrefix(a) + x == DirPrefix(a) + y
    ensures x == y
  {
    var p := DirPrefix(a);
    assert x == (p + x)[|p|..];
    assert y == (p + y)[|p|..];
  }

  /** A directory entry: a file, or a directory with its entries in the order a listing returns them. */
  datatype Tree = File(name: string) | Dir(name: string, children: seq<Tree>)

  /** The path a walk from `root` builds for the names on the way down: `os.path.join` one name at a time. */
  function PathString(root: string, p: seq<string>): string
    decreases |p|
  {
    if |p| == 0 then root else PathString(Join(root, p[0]), p[1..])
  }

  predicate Distinct<T(==)>(s: seq<T>) {
    forall i, j :: 0 <= i < j < |s| ==> s[i] != s[j]
  }

  /** One `open(path, 'w').write(content)`: create or overwrite. */
  datatype Write<C> = Write(path: string, content: C)

  /** One external process: its argument vector and the directory it runs in. */
  datatype Command = Command(argv: seq<string>, cwd: Option<string>)

  /**
   * What a handler does, in order: the directories it ensures
   * (`ensure_directory`), the files it writes, the processes it runs.
   */
  datatype Effect<C> = Effect(dirs: seq<string>, writes: seq<Write<C>>, commands: seq<Command>)

  datatype FileSystem<C> = FileSystem(dirs: set<string>, files: map<string, C>)

  function Paths<C>(ws: seq<Write<C>>): (ps: seq<string>)
    ensures |ps| == |ws|
    ensures forall k :: 0 <= k < |ws| ==> ps[k] == ws[k].path
  {
    if |ws| == 0 then [] else [ws[0].path] + Paths(ws[1..])
  }

  /** The writes applied one after the other. */
  function ApplyWrites<C>(files: map<string, C>, ws: seq<Write<C>>): map<string, C>
    decreases |ws|
  {
    if |ws| == 0 then files else ApplyWrites(files[ws[0].path := ws[0].content], ws[1..])
  }

  /** `x` is a parent of `d`: a non-empty leading part of `d` that ends just before a '/'. */
  predicate ParentOf(x: string, d: string) {
    0 < |x| < |d| && d[..|x|] == x && d[|x|] == '/'
  }

  /**
   * The directories `os.makedirs(d)` leaves existing: `d` and every leading
   * part of it that ends just before a '/', each created when missing.
   */
  function Makedirs(d: string): set<string> {
    {d} + set i | 0 < i < |d| && d[i] == '/' :: d[..i]
  }

  /** The directories a list of `ensure_directory` calls leaves existing. */
  function Ensured(dirs: seq<string>): set<string> {
    set d, x | d in dirs && x in Makedirs(d) :: x
  }

  /** `os.makedirs(d)` creates `d` and exactly its parents. */
  lemma MakedirsSpec(d: string)
    ensures forall x :: x in Makedirs(d) <==> x == d || ParentOf(x, d)
  {
    forall x | ParentOf(x, d) ensures x in Makedirs(d) {
      var i := |x|;
      assert d[..i] == x;
    }
    forall x | x in Makedirs(d) && x != d ensures ParentOf(x, d) {
      var i :| 0 < i < |d| && d[i] == '/' && x == d[..i];
    }
  }

  /** Example: `os.makedirs("infra/prod")` leaves both `infra` and `infra/prod` existing. */
  lemma MakedirsNested()
    ensures Makedirs("infra/prod") == {"infra", "infra/prod"}
  {
    var d := "infra/prod";
    assert d[..5] == "infra";
    forall x | x in Makedirs(d) ensures x == "infra" || x == d {
      if x != d {
        var i :| 0 < i < |d| && d[i] == '/' && x == d[..i];
        assert i == 5;
      }
    }
  }

  /** After a list of `ensure_directory` calls, a directory exists when it is one of them or a parent of one. */
  lemma EnsuredSpec(dirs: seq<string>)
    ensures forall x :: x in Ensured(dirs) <==> exists d :: d in dirs && (x == d || ParentOf(x, d))
  {
    forall x | x in Ensured(dirs) ensures exists d :: d in dirs && (x == d || ParentOf(x, d)) {
      var d :| d in dirs && x in Makedirs(d);
      MakedirsSpec(d);
    }
    forall x, d | d in dirs && (x == d || ParentOf(x, d)) ensures x in Ensured(dirs) {
      MakedirsSpec(d);
      assert x in Makedirs(d);
    }
  }

  /** The file system after a handler's effect: its directories and their parents exist and its files hold what it wrote. */
  function Apply<C>(fs: FileSystem<C>, e: Effect<C>): FileSystem<C> {
    FileSystem(fs.dirs + Ensured(e.dirs), ApplyWrites(fs.files, e.writes))
  }

  /**
   * Writes to distinct paths: afterwards each written path holds what was
   * written to it, and every other file is exactly as before.
   */
  lemma {:induction false} ApplyWritesSpec<C>(files: map<string, C>, ws: seq<Write<C>>)
    requires Distinct(Paths(ws))
    ensures forall p :: p in ApplyWrites(files, ws) <==> p in files || p in Paths(ws)
    ensures forall k :: 0 <= k < |ws| ==> ApplyWrites(files, ws)[ws[k].path] == ws[k].content
    ensures forall p :: p in files && p !in Paths(ws) ==> ApplyWrites(files, ws)[p] == files[p]
    decreases |ws|
  {
    if |ws| > 0 {
      var next := files[ws[0].path := ws[0].content];
      assert Paths(ws) == [ws[0].path] + Paths(ws[1..]);
      assert Distinct(Paths(ws[1..])) by {
        forall i, j | 0 <= i < j < |Paths(ws[1..])| ensures Paths(ws[1..])[i] != Paths(ws[1..])[j] {
          assert Paths(ws[1..])[i] == Paths(ws)[i + 1];
          assert Paths(ws[1..])[j] == Paths(ws)[j + 1];
        }
      }
      ApplyWritesSpec(next, ws[1..]);
      assert ws[0].path !in Paths(ws[1..]) by {
        forall k | 0 <= k < |ws[1..]| ensures Paths(ws[1..])[k] != ws[0].path {
          assert Paths(ws)[k + 1] == Paths(ws[1..])[k];
        }
      }
      forall k | 0 <= k < |ws| ensures ApplyWrites(files, ws)[ws[k].path] == ws[k].content {
        if k > 0 {
          assert ws[1..][k - 1] == ws[k];
        }
      }
    }
  }

  /**
   * A handler's effect on any file system: its directories exist, each file
   * it writes holds what it wrote, and nothing else changes.
   */
  lemma ApplySpec<C>(fs: FileSystem<C>, e: Effect<C>)
    requires Distinct(Paths(e.writes))
    ensures forall d :: d in Apply(fs, e).dirs <==> d in fs.dirs || exists x :: x in e.dirs && (d == x || ParentOf(d, x))
    ensures forall p :: p in Apply(fs, e).files <==> p in fs.files || p in Paths(e.writes)
    ensures forall k :: 0 <= k < |e.writes| ==> Apply(fs, e).files[e.writes[k].path] == e.writes[k].content
    ensures forall p :: p in fs.files && p !in Paths(e.writes) ==> Apply(fs, e).files[p] == fs.files[p]
  {
    ApplyWritesSpec(fs.files, e.writes);
    EnsuredSpec(e.dirs);
  }

  /**
   * `after` is `fs` with the writes `ws` done to distinct paths and the
   * directories `dirs` ensured: each written path holds what was written to
   * it, every other file is as before, each directory of `dirs` and each of
   * its parents exists, and no other file or directory appears.
   */
  ghost predicate Written<C>(fs: FileSystem<C>, after: FileSystem<C>, ws: seq<Write<C>>, dirs: seq<string>) {
    && (forall p :: p in after.files <==> p in fs.files || p in Paths(ws))
    && (forall k :: 0 <= k < |ws| ==> ws[k].path in after.files && after.files[ws[k].path] == ws[k].content)
    && (forall p :: p in fs.files && p !in Paths(ws) ==> p in after.files && after.files[p] == fs.files[p])
    && (forall d :: d in after.dirs <==> d in fs.dirs || exists x :: x in dirs && (d == x || ParentOf(d, x)))
  }

  /** Applying an effect whose paths are distinct is exactly its writes and its directories. */
  lemma ApplyWritten<C>(fs: FileSystem<C>, e: Effect<C>)
    requires Distinct(Paths(e.writes))
    ensures Written(fs, Apply(fs, e), e.writes, e.dirs)
  {
    ApplySpec(fs, e);
  }
}
