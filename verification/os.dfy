/**
 * The slice of the operating system the generator works against: regular
 * files and directories addressed by paths, and the calls the generator
 * makes on them (`os.path.exists` guarding `os.makedirs`, `open(p, "wb")`
 * written with a jinja2 render, `shutil.copy`).
 *
 * Every call is a pure transition from one filesystem to the next. A call
 * either completes, or aborts with the exception Python would raise while
 * keeping whatever it had already changed on disk.
 */
module Os {

  /** A path as its segments; the root directory is the empty path. */
  type Path = seq<string>

  /** Regular files with their contents, and the set of directories. */
  datatype FileSystem = FileSystem(files: map<Path, string>, dirs: set<Path>)

  /** os.path.isfile */
  predicate IsFile(fs: FileSystem, p: Path) {
    p in fs.files
  }

  /** os.path.isdir; the root always exists. */
  predicate IsDir(fs: FileSystem, p: Path) {
    p == [] || p in fs.dirs
  }

  /** os.path.exists */
  predicate Exists(fs: FileSystem, p: Path) {
    IsFile(fs, p) || IsDir(fs, p)
  }

  function Parent(p: Path): Path
    requires p != []
  {
    p[..|p| - 1]
  }

  /** os.path.basename, as a path of at most one segment */
  function BaseName(p: Path): Path {
    if p == [] then [] else [p[|p| - 1]]
  }

  /** The directories `os.makedirs(p)` leaves behind: every non-empty prefix of `p`. */
  function Ancestry(p: Path): (r: set<Path>)
    ensures forall q :: q in r <==> q != [] && q <= p
  {
    var r := set i | 0 < i <= |p| :: p[..i];
    assert forall q :: q != [] && q <= p ==> q == p[..|q|];
    r
  }

  /**
   * A filesystem as the operating system keeps it: nothing is both a file
   * and a directory, and every entry sits in an existing directory.
   */
  ghost predicate WellFormed(fs: FileSystem) {
    && fs.files.Keys !! fs.dirs
    && (forall p :: p in fs.files ==> p != [] && IsDir(fs, Parent(p)))
    && (forall d :: d in fs.dirs && d != [] ==> IsDir(fs, Parent(d)))
  }

  /** The exceptions the calls below raise. */
  datatype FsError =
    | NotADirectory(path: Path)     // os.makedirs, open, os.listdir: a prefix of the path is a regular file
    | NoSuchDirectory(path: Path)   // open: the parent directory is missing; os.listdir: the directory is missing
    | IsADirectory(path: Path)      // open: the path is a directory
    | NotAFile(path: Path)          // shutil.copy: the source is not a regular file
    | SameFile(path: Path)          // shutil.copy: source and destination are one file
    | TemplateNotFound(path: Path)  // jinja2: the template file is missing

  /** A run of calls: it completes, or aborts with the state reached so far. */
  datatype Outcome = Completed(fs: FileSystem) | Aborted(fs: FileSystem, error: FsError)

  /** One filesystem call of the generator. */
  datatype Action =
    | MakeDirs(dir: Path)                   // if not os.path.exists(dir): os.makedirs(dir)
    | Render(template: Path, target: Path)  // open(target, "wb").write(render(template))
    | Copy(source: Path, target: Path)      // shutil.copy(source, target)

  /** Whether `open(p, "wb")` succeeds: the parent is a directory and `p` is not one. */
  predicate Writable(fs: FileSystem, p: Path) {
    p != [] && IsDir(fs, Parent(p)) && !IsDir(fs, p)
  }

  /** Why `open(p, "wb")` fails when `p` is not writable. */
  function OpenError(fs: FileSystem, p: Path): FsError {
    if exists i :: 0 < i < |p| && IsFile(fs, p[..i]) then NotADirectory(p)
    else if p != [] && !IsDir(fs, Parent(p)) then NoSuchDirectory(p)
    else IsADirectory(p)
  }

  /** shutil.copy writes into `target/<basename>` when `target` is a directory. */
  function CopyTarget(fs: FileSystem, source: Path, target: Path): Path {
    if IsDir(fs, target) then target + BaseName(source) else target
  }

  /** The files an action may write. */
  function Targets(a: Action): set<Path> {
    match a
    case MakeDirs(_) => {}
    case Render(_, target) => {target}
    case Copy(source, target) => {target, target + BaseName(source)}
  }

  /** The directories an action may create. */
  function Creates(a: Action): set<Path> {
    match a
    case MakeDirs(dir) => Ancestry(dir)
    case _ => {}
  }

  /** `p` names the same file with the same contents, or no file, on both sides. */
  ghost predicate SameEntry(before: FileSystem, after: FileSystem, p: Path) {
    && (p in before.files <==> p in after.files)
    && (p in before.files ==> before.files[p] == after.files[p])
  }

  /** Performs one call; `render` is jinja2's rendering of a template text with no context. */
  function Step(fs: FileSystem, a: Action, render: string -> string): (r: Outcome)
    ensures forall p :: p !in Targets(a) ==> SameEntry(fs, r.fs, p)
    ensures fs.dirs <= r.fs.dirs <= fs.dirs + Creates(a)
  {
    match a
    case MakeDirs(dir) =>
      if Exists(fs, dir) then Completed(fs)
      else if exists i :: 0 < i < |dir| && IsFile(fs, dir[..i]) then Aborted(fs, NotADirectory(dir))
      else Completed(fs.(dirs := fs.dirs + Ancestry(dir)))
    case Render(template, target) =>
      if !Writable(fs, target) then Aborted(fs, OpenError(fs, target))
      else
        // the output file is truncated before jinja2 loads the template
        var truncated := fs.files[target := ""];
        if template !in truncated then Aborted(fs.(files := truncated), TemplateNotFound(template))
        else Completed(fs.(files := truncated[target := render(truncated[template])]))
    case Copy(source, target) =>
      var dst := CopyTarget(fs, source, target);
      if Exists(fs, source) && dst == source then Aborted(fs, SameFile(source))
      else if !IsFile(fs, source) then Aborted(fs, NotAFile(source))
      else if !Writable(fs, dst) then Aborted(fs, OpenError(fs, dst))
      else Completed(fs.(files := fs.files[dst := fs.files[source]]))
  }

  /** Every call keeps the filesystem well formed, whether it completes or aborts. */
  lemma StepPreservesWellFormed(fs: FileSystem, a: Action, render: string -> string)
    requires WellFormed(fs)
    ensures WellFormed(Step(fs, a, render).fs)
  {
    if a.MakeDirs? && !Exists(fs, a.dir) && !(exists i :: 0 < i < |a.dir| && IsFile(fs, a.dir[..i])) {
      var dir := a.dir;
      var fs' := Step(fs, a, render).fs;
      assert fs'.dirs == fs.dirs + Ancestry(dir);
      forall q | q in Ancestry(dir)
        ensures q !in fs.files && IsDir(fs', Parent(q))
      {
        assert q == dir[..|q|];
        if |q| < |dir| {
          assert !IsFile(fs, dir[..|q|]);
        } else {
          assert q == dir;
        }
        if |q| > 1 {
          assert Parent(q) == dir[..|q| - 1];
          assert Parent(q) in Ancestry(dir);
        }
      }
    }
  }

  /** The files any of `actions` may write. */
  function Touched(actions: seq<Action>): set<Path> {
    if actions == [] then {} else Targets(actions[0]) + Touched(actions[1..])
  }

  /** The directories any of `actions` may create. */
  function Created(actions: seq<Action>): set<Path> {
    if actions == [] then {} else Creates(actions[0]) + Created(actions[1..])
  }

  /** Performs `actions` in order, stopping at the first exception. */
  function Run(fs: FileSystem, actions: seq<Action>, render: string -> string): (r: Outcome)
    ensures forall p :: p !in Touched(actions) ==> SameEntry(fs, r.fs, p)
    ensures fs.dirs <= r.fs.dirs <= fs.dirs + Created(actions)
    decreases |actions|
  {
    if actions == [] then Completed(fs)
    else
      match Step(fs, actions[0], render)
      case Aborted(fs', e) => Aborted(fs', e)
      case Completed(fs') => Run(fs', actions[1..], render)
  }

  /** Continues a run with `rest` only if it completed. */
  function Then(o: Outcome, rest: seq<Action>, render: string -> string): Outcome {
    match o
    case Completed(fs) => Run(fs, rest, render)
    case Aborted(_, _) => o
  }

  lemma {:induction false} RunPreservesWellFormed(fs: FileSystem, actions: seq<Action>, render: string -> string)
    requires WellFormed(fs)
    ensures WellFormed(Run(fs, actions, render).fs)
    decreases |actions|
  {
    if actions != [] {
      StepPreservesWellFormed(fs, actions[0], render);
      var o := Step(fs, actions[0], render);
      if o.Completed? {
        RunPreservesWellFormed(o.fs, actions[1..], render);
      }
    }
  }

  /** Running two lists one after the other is running their concatenation. */
  lemma {:induction false} RunAppend(fs: FileSystem, a: seq<Action>, b: seq<Action>, render: string -> string)
    ensures Run(fs, a + b, render) == Then(Run(fs, a, render), b, render)
    decreases |a|
  {
    if a == [] {
      assert a + b == b;
    } else {
      assert (a + b)[0] == a[0];
      assert (a + b)[1..] == a[1..] + b;
      match Step(fs, a[0], render)
      case Aborted(_, _) =>
      case Completed(fs') =>
        RunAppend(fs', a[1..], b, render);
    }
  }

  lemma {:induction false} TouchedAppend(a: seq<Action>, b: seq<Action>)
    ensures Touched(a + b) == Touched(a) + Touched(b)
    ensures Created(a + b) == Created(a) + Created(b)
    decreases |a|
  {
    if a == [] {
      assert a + b == b;
    } else {
      assert (a + b)[0] == a[0];
      assert (a + b)[1..] == a[1..] + b;
      TouchedAppend(a[1..], b);
    }
  }

  /** In a well-formed filesystem every non-empty prefix of a directory is a directory. */
  lemma {:induction false} WellFormedAncestors(fs: FileSystem, d: Path)
    requires WellFormed(fs)
    requires IsDir(fs, d)
    ensures Ancestry(d) <= fs.dirs
    decreases |d|
  {
    if d != [] {
      WellFormedAncestors(fs, Parent(d));
      forall q | q in Ancestry(d)
        ensures q in fs.dirs
      {
        if q != d {
          assert q in Ancestry(Parent(d));
        }
      }
    }
  }

  /**
   * When no prefix of `d` is a regular file, the guarded `os.makedirs(d)`
   * completes and `d` with all its ancestors is a directory afterwards.
   */
  lemma MakeDirsEffect(fs: FileSystem, d: Path, render: string -> string)
    requires WellFormed(fs)
    requires forall i :: 0 < i <= |d| ==> !IsFile(fs, d[..i])
    ensures Step(fs, MakeDirs(d), render) == Completed(fs.(dirs := fs.dirs + Ancestry(d)))
  {
    if Exists(fs, d) {
      if d != [] {
        assert d[..|d|] == d;
      }
      WellFormedAncestors(fs, d);
      assert fs.dirs + Ancestry(d) == fs.dirs;
    }
  }

  /** Rendering a present template into a writable file that is not the template itself. */
  lemma RenderEffect(fs: FileSystem, template: Path, target: Path, render: string -> string)
    requires Writable(fs, target)
    requires template in fs.files && template != target
    ensures Step(fs, Render(template, target), render)
         == Completed(fs.(files := fs.files[target := render(fs.files[template])]))
  {
  }

  /** One Render call per target, all from the same template. */
  function RendersFrom(template: Path, targets: seq<Path>): seq<Action> {
    seq(|targets|, i requires 0 <= i < |targets| => Render(template, targets[i]))
  }

  /** Writing the first target and then the rest fills the same map as writing them all. */
  lemma FillFirst(m: map<Path, string>, targets: seq<Path>, text: string)
    requires targets != []
    ensures m[targets[0] := text] + (map p | p in targets[1..] :: text) == m + (map p | p in targets :: text)
  {
    assert forall p :: p in targets <==> p == targets[0] || p in targets[1..];
  }

  /** Every target of `RendersFrom` is written with the render of the same template. */
  lemma {:induction false} RunRendersFrom(fs: FileSystem, template: Path, targets: seq<Path>, render: string -> string)
    requires template in fs.files && template !in targets
    requires forall i :: 0 <= i < |targets| ==> Writable(fs, targets[i])
    ensures Run(fs, RendersFrom(template, targets), render)
         == Completed(fs.(files := fs.files + map p | p in targets :: render(fs.files[template])))
    decreases |targets|
  {
    var text := render(fs.files[template]);
    var actions := RendersFrom(template, targets);
    if targets == [] {
      assert (map p | p in targets :: text) == map[];
      assert fs.files + map[] == fs.files;
    } else {
      assert actions[0] == Render(template, targets[0]);
      assert actions[1..] == RendersFrom(template, targets[1..]);
      RenderEffect(fs, template, targets[0], render);
      var fs' := fs.(files := fs.files[targets[0] := text]);
      assert Run(fs, actions, render) == Run(fs', actions[1..], render);
      RunRendersFrom(fs', template, targets[1..], render);
      FillFirst(fs.files, targets, text);
    }
  }

  lemma {:induction false} TouchedByRenders(template: Path, targets: seq<Path>)
    ensures Touched(RendersFrom(template, targets)) == set p | p in targets
    ensures Created(RendersFrom(template, targets)) == {}
    decreases |targets|
  {
    if targets != [] {
      assert RendersFrom(template, targets)[1..] == RendersFrom(template, targets[1..]);
      TouchedByRenders(template, targets[1..]);
      assert forall p :: p in targets <==> p == targets[0] || p in targets[1..];
    }
  }

  /** The ancestry of a child is its parent's ancestry and the child itself. */
  lemma AncestryChild(parent: Path, name: string)
    ensures Ancestry(parent + [name]) == Ancestry(parent) + {parent + [name]}
  {
    var d := parent + [name];
    forall q | q in Ancestry(d) && q != d
      ensures q in Ancestry(parent)
    {
      assert q == d[..|q|];
      assert d[..|q|] == parent[..|q|];
    }
  }

  /**
   * Creating a subdirectory of a directory whose ancestors are all
   * directories adds just that subdirectory, whether it existed or not.
   */
  lemma MakeDirsInDirectory(fs: FileSystem, parent: Path, name: string, render: string -> string)
    requires Ancestry(parent) <= fs.dirs
    requires Ancestry(parent) !! fs.files.Keys
    requires !IsFile(fs, parent + [name])
    ensures Step(fs, MakeDirs(parent + [name]), render) == Completed(fs.(dirs := fs.dirs + {parent + [name]}))
  {
    var d := parent + [name];
    if !Exists(fs, d) {
      forall i | 0 < i < |d|
        ensures !IsFile(fs, d[..i])
      {
        assert d[..i] == parent[..i];
        assert d[..i] in Ancestry(parent);
      }
      AncestryChild(parent, name);
    }
  }

  /** A run whose first call completes continues from the state that call left. */
  lemma RunFirst(fs: FileSystem, actions: seq<Action>, render: string -> string, next: FileSystem)
    requires actions != []
    requires Step(fs, actions[0], render) == Completed(next)
    ensures Run(fs, actions, render) == Run(next, actions[1..], render)
  {
  }
}
