/** `createDirectoryStructure` of cmd/root.go: materialises a loaded
    configuration under the project directory. Each entry of `directories`
    becomes `root/name`, each of its `children` the directory
    `root/name/child` (one level only), and each entry of `files` an empty
    file `root/name`; the first failing call ends the walk. */
module Scaffold {
  import opened Paths
  import opened Os
  import opened Config

  // ----- The walk, loop by loop -----

  /** The children loop from child `j` on: `MkdirAll(path/child)` for each
      remaining child, returning at the first error. */
  function ChildrenFrom(fs: Fs, faulty: set<Path>, path: Path, children: seq<Entry>, j: nat): Step
    requires j <= |children|
    decreases |children| - j
  {
    if j == |children| then Step(fs, Pass)
    else
      var s := Apply(fs, faulty, MakeDirs(path + [children[j].name]));
      if s.outcome.Fail? then s else ChildrenFrom(s.fs, faulty, path, children, j + 1)
  }

  /** The `files` loop from entry `k` on: `Create(root/name)` for each
      remaining entry, returning at the first error. */
  function FilesFrom(fs: Fs, faulty: set<Path>, root: Path, files: seq<Entry>, k: nat): Step
    requires k <= |files|
    decreases |files| - k
  {
    if k == |files| then Step(fs, Pass)
    else
      var s := Apply(fs, faulty, MakeFile(root + [files[k].name]));
      if s.outcome.Fail? then s else FilesFrom(s.fs, faulty, root, files, k + 1)
  }

  /** The `directories` loop from entry `i` on, each entry's own directory
      and then its children, followed by the whole `files` loop. */
  function DirectoriesFrom(fs: Fs, faulty: set<Path>, root: Path, cfg: Config, i: nat): Step
    requires i <= |cfg.directories|
    decreases |cfg.directories| - i
  {
    if i == |cfg.directories| then FilesFrom(fs, faulty, root, cfg.files, 0)
    else
      var path := root + [cfg.directories[i].name];
      var s := Apply(fs, faulty, MakeDirs(path));
      if s.outcome.Fail? then s
      else
        var c := ChildrenFrom(s.fs, faulty, path, cfg.directories[i].children, 0);
        if c.outcome.Fail? then c else DirectoriesFrom(c.fs, faulty, root, cfg, i + 1)
  }

  /** What `createDirectoryStructure` leaves on disk and returns. */
  function Materialize(fs: Fs, faulty: set<Path>, root: Path, cfg: Config): Step
  {
    DirectoriesFrom(fs, faulty, root, cfg, 0)
  }

  /** `createDirectoryStructure(projectName, config)`. */
  method CreateDirectoryStructure(fsys: FileSystem, root: Path, cfg: Config) returns (err: Outcome)
    requires fsys.Valid()
    requires ValidPath(root) && ValidConfig(cfg)
    modifies fsys
    ensures fsys.Valid()
    ensures Step(fsys.State(), err) == Materialize(old(fsys.State()), fsys.faulty, root, cfg)
    ensures var t := Run(old(fsys.State()), fsys.faulty, Plan(root, cfg));
      fsys.State() == t.fs && err == t.outcome
  {
    ghost var goal := Materialize(fsys.State(), fsys.faulty, root, cfg);
    MaterializeRunsPlan(fsys.State(), fsys.faulty, root, cfg);

    var directories := cfg.directories;
    var i := 0;
    while i < |directories|
      invariant i <= |directories|
      invariant fsys.Valid()
      invariant DirectoriesFrom(fsys.State(), fsys.faulty, root, cfg, i) == goal
    {
      var dir := directories[i];
      var path := root + [dir.name];
      err := fsys.MkdirAll(path);
      if err.Fail? {
        return;
      }

      var children := dir.children;
      var j := 0;
      while j < |children|
        invariant j <= |children|
        invariant fsys.Valid()
        invariant var c := ChildrenFrom(fsys.State(), fsys.faulty, path, children, j);
          (if c.outcome.Fail? then c else DirectoriesFrom(c.fs, fsys.faulty, root, cfg, i + 1)) == goal
      {
        var childPath := path + [children[j].name];
        err := fsys.MkdirAll(childPath);
        if err.Fail? {
          return;
        }
        j := j + 1;
      }
      i := i + 1;
    }

    var files := cfg.files;
    var k := 0;
    while k < |files|
      invariant k <= |files|
      invariant fsys.Valid()
      invariant FilesFrom(fsys.State(), fsys.faulty, root, files, k) == goal
    {
      var filePath := root + [files[k].name];
      err := fsys.Create(filePath);
      if err.Fail? {
        return;
      }
      k := k + 1;
    }
    err := Pass;
  }

  // ----- The same walk as a list of calls -----

  /** The calls for the children of the directory at `base`. */
  function ChildOps(base: Path, children: seq<Entry>): seq<Op>
  {
    seq(|children|, j requires 0 <= j < |children| => MakeDirs(base + [children[j].name]))
  }

  /** The calls for one directory entry: the entry, then its children. */
  function EntryOps(root: Path, dir: Entry): seq<Op>
  {
    [MakeDirs(root + [dir.name])] + ChildOps(root + [dir.name], dir.children)
  }

  /** The calls of the `directories` loop, entries in list order. */
  function DirOps(root: Path, ds: seq<Entry>): seq<Op>
    decreases |ds|
  {
    if ds == [] then [] else EntryOps(root, ds[0]) + DirOps(root, ds[1..])
  }

  /** The calls of the `files` loop, in list order. */
  function FileOps(root: Path, fl: seq<Entry>): seq<Op>
  {
    seq(|fl|, k requires 0 <= k < |fl| => MakeFile(root + [fl[k].name]))
  }

  /** Every call `createDirectoryStructure` issues when none fails, in order. */
  function Plan(root: Path, cfg: Config): seq<Op>
  {
    DirOps(root, cfg.directories) + FileOps(root, cfg.files)
  }

  lemma {:induction false} ChildrenFromRuns(fs: Fs, faulty: set<Path>, path: Path, children: seq<Entry>, j: nat)
    requires j <= |children|
    ensures var t := Run(fs, faulty, ChildOps(path, children)[j..]);
      ChildrenFrom(fs, faulty, path, children, j) == Step(t.fs, t.outcome)
    decreases |children| - j
  {
    var ops := ChildOps(path, children)[j..];
    if j < |children| {
      assert ops[0] == MakeDirs(path + [children[j].name]);
      assert ops[1..] == ChildOps(path, children)[j + 1..];
      var s := Apply(fs, faulty, ops[0]);
      if s.outcome.Pass? {
        ChildrenFromRuns(s.fs, faulty, path, children, j + 1);
      }
    } else {
      assert ops == [];
    }
  }

  lemma {:induction false} FilesFromRuns(fs: Fs, faulty: set<Path>, root: Path, files: seq<Entry>, k: nat)
    requires k <= |files|
    ensures var t := Run(fs, faulty, FileOps(root, files)[k..]);
      FilesFrom(fs, faulty, root, files, k) == Step(t.fs, t.outcome)
    decreases |files| - k
  {
    var ops := FileOps(root, files)[k..];
    if k < |files| {
      assert ops[0] == MakeFile(root + [files[k].name]);
      assert ops[1..] == FileOps(root, files)[k + 1..];
      var s := Apply(fs, faulty, ops[0]);
      if s.outcome.Pass? {
        FilesFromRuns(s.fs, faulty, root, files, k + 1);
      }
    } else {
      assert ops == [];
    }
  }

  lemma {:induction false} DirectoriesFromRuns(fs: Fs, faulty: set<Path>, root: Path, cfg: Config, i: nat)
    requires i <= |cfg.directories|
    ensures var t := Run(fs, faulty, DirOps(root, cfg.directories[i..]) + FileOps(root, cfg.files));
      DirectoriesFrom(fs, faulty, root, cfg, i) == Step(t.fs, t.outcome)
    decreases |cfg.directories| - i
  {
    var ds := cfg.directories;
    var files := FileOps(root, cfg.files);
    if i == |ds| {
      assert ds[i..] == [];
      assert DirOps(root, ds[i..]) + files == files[0..];
      FilesFromRuns(fs, faulty, root, cfg.files, 0);
    } else {
      var path := root + [ds[i].name];
      var children := ChildOps(path, ds[i].children);
      var rest := DirOps(root, ds[i + 1..]) + files;
      assert ds[i..][0] == ds[i] && ds[i..][1..] == ds[i + 1..];
      var ops := DirOps(root, ds[i..]) + files;
      assert ops == [MakeDirs(path)] + (children + rest);
      assert ops[0] == MakeDirs(path) && ops[1..] == children + rest;
      var s := Apply(fs, faulty, MakeDirs(path));
      if s.outcome.Pass? {
        RunAppend(s.fs, faulty, children, rest);
        ChildrenFromRuns(s.fs, faulty, path, ds[i].children, 0);
        assert children[0..] == children;
        var c := Run(s.fs, faulty, children);
        if c.outcome.Pass? {
          DirectoriesFromRuns(c.fs, faulty, root, cfg, i + 1);
        }
      }
    }
  }

  /** The loops issue exactly the calls of the plan, in order, up to and
      including the first that fails: the filesystem they leave and the
      error they return are those of running the plan fail-fast. */
  lemma MaterializeRunsPlan(fs: Fs, faulty: set<Path>, root: Path, cfg: Config)
    ensures var t := Run(fs, faulty, Plan(root, cfg));
      Materialize(fs, faulty, root, cfg) == Step(t.fs, t.outcome)
  {
    assert cfg.directories[0..] == cfg.directories;
    DirectoriesFromRuns(fs, faulty, root, cfg, 0);
  }

  // ----- Which calls the plan holds, and in what order -----

  /** `q` is the directory of entry `d` under `root`, or one of its children. */
  ghost predicate EntryDir(root: Path, d: Entry, q: Path)
  {
    || q == root + [d.name]
    || exists j :: 0 <= j < |d.children| && q == root + [d.name] + [d.children[j].name]
  }

  /** `q` is a directory the configuration declares: `root/name` or
      `root/name/child`, and nothing deeper. */
  ghost predicate DeclaredDir(root: Path, ds: seq<Entry>, q: Path)
  {
    exists i :: 0 <= i < |ds| && EntryDir(root, ds[i], q)
  }

  /** `q` is a file the configuration declares, `root/name`. */
  ghost predicate DeclaredFile(root: Path, fl: seq<Entry>, q: Path)
  {
    exists k :: 0 <= k < |fl| && q == root + [fl[k].name]
  }

  /** The `directories` loop issues only `MkdirAll` calls, one for each
      declared directory and child and for nothing else: children are never
      created as files, and nothing below a child is visited. */
  lemma {:induction false} DirOpsExact(root: Path, ds: seq<Entry>)
    ensures forall op :: op in DirOps(root, ds) ==> op.MakeDirs?
    ensures forall q :: MakeDirs(q) in DirOps(root, ds) <==> DeclaredDir(root, ds, q)
    decreases |ds|
  {
    if ds != [] {
      DirOpsExact(root, ds[1..]);
      var path := root + [ds[0].name];
      var children := ChildOps(path, ds[0].children);
      assert EntryOps(root, ds[0]) == [MakeDirs(path)] + children;
      forall op | op in DirOps(root, ds)
        ensures op.MakeDirs?
      {
        if op in children {
          var j :| 0 <= j < |children| && children[j] == op;
        }
      }
      forall q
        ensures MakeDirs(q) in DirOps(root, ds) <==> DeclaredDir(root, ds, q)
      {
        if MakeDirs(q) in DirOps(root, ds) {
          if MakeDirs(q) in children {
            var j :| 0 <= j < |children| && children[j] == MakeDirs(q);
            assert EntryDir(root, ds[0], q);
          } else if MakeDirs(q) in DirOps(root, ds[1..]) {
            var i :| 0 <= i < |ds[1..]| && EntryDir(root, ds[1..][i], q);
            assert ds[1..][i] == ds[i + 1];
          } else {
            assert EntryDir(root, ds[0], q);
          }
        }
        if DeclaredDir(root, ds, q) {
          var i :| 0 <= i < |ds| && EntryDir(root, ds[i], q);
          if i == 0 {
            if q != path {
              var j :| 0 <= j < |ds[0].children| && q == path + [ds[0].children[j].name];
              assert children[j] == MakeDirs(q);
            }
          } else {
            assert ds[1..][i - 1] == ds[i];
            assert DeclaredDir(root, ds[1..], q);
          }
        }
      }
    }
  }

  /** The `files` loop issues one `Create` for each declared file and for
      nothing else. */
  lemma FileOpsExact(root: Path, fl: seq<Entry>)
    ensures forall op :: op in FileOps(root, fl) ==> op.MakeFile?
    ensures forall q :: MakeFile(q) in FileOps(root, fl) <==> DeclaredFile(root, fl, q)
  {
    var ops := FileOps(root, fl);
    forall q | DeclaredFile(root, fl, q)
      ensures MakeFile(q) in ops
    {
      var k :| 0 <= k < |fl| && q == root + [fl[k].name];
      assert ops[k] == MakeFile(q);
    }
  }

  lemma {:induction false} DirOpsAppend(root: Path, a: seq<Entry>, b: seq<Entry>)
    ensures DirOps(root, a + b) == DirOps(root, a) + DirOps(root, b)
    decreases |a|
  {
    if a == [] {
      assert a + b == b;
    } else {
      assert (a + b)[0] == a[0] && (a + b)[1..] == a[1..] + b;
      DirOpsAppend(root, a[1..], b);
    }
  }

  /** Directory entries are processed in list order, each entry's own
      directory right before its children: the calls of entry `i` come after
      those of every earlier entry and before those of every later one. */
  lemma DirOpsSplit(root: Path, ds: seq<Entry>, i: nat)
    requires i < |ds|
    ensures DirOps(root, ds) ==
      DirOps(root, ds[..i]) + [MakeDirs(root + [ds[i].name])]
        + ChildOps(root + [ds[i].name], ds[i].children) + DirOps(root, ds[i + 1..])
  {
    var tail := [ds[i]] + ds[i + 1..];
    assert ds == ds[..i] + tail;
    DirOpsAppend(root, ds[..i], tail);
    assert tail[0] == ds[i] && tail[1..] == ds[i + 1..];
  }

  /** All directory calls come before any file call, and the file calls are
      the `files` entries in list order, each directly under `root`. */
  lemma PlanOrder(root: Path, cfg: Config)
    ensures var plan := Plan(root, cfg); var n := |plan| - |cfg.files|;
      && n == |DirOps(root, cfg.directories)|
      && (forall i :: 0 <= i < n ==> plan[i].MakeDirs?)
      && (forall k :: 0 <= k < |cfg.files| ==> plan[n + k] == MakeFile(root + [cfg.files[k].name]))
  {
    var d := DirOps(root, cfg.directories);
    DirOpsExact(root, cfg.directories);
    forall i | 0 <= i < |d|
      ensures Plan(root, cfg)[i].MakeDirs?
    {
      assert d[i] in d;
    }
  }

  // ----- What a run of createDirectoryStructure leaves behind -----

  /** On success every declared directory and child exists, with all its
      ancestors, and every declared file exists. */
  lemma SuccessCreatesEverything(fs: Fs, faulty: set<Path>, root: Path, cfg: Config)
    requires Materialize(fs, faulty, root, cfg).outcome.Pass?
    ensures var after := Materialize(fs, faulty, root, cfg).fs;
      && (forall q :: DeclaredDir(root, cfg.directories, q) ==> Ancestry(q) <= after.dirs)
      && (forall q :: DeclaredFile(root, cfg.files, q) ==> q in after.files)
  {
    var plan := Plan(root, cfg);
    MaterializeRunsPlan(fs, faulty, root, cfg);
    RunEstablishes(fs, faulty, plan);
    DirOpsExact(root, cfg.directories);
    FileOpsExact(root, cfg.files);
    forall q | DeclaredDir(root, cfg.directories, q)
      ensures MakeDirs(q) in plan
    {
    }
    forall q | DeclaredFile(root, cfg.files, q)
      ensures MakeFile(q) in plan
    {
    }
  }

  /** Nothing is removed, even on failure; a directory that appears is on the
      way to `root` or a declared directory or child; a file that appears is
      a declared file. */
  lemma OnlyDeclaredPaths(fs: Fs, faulty: set<Path>, root: Path, cfg: Config)
    ensures var after := Materialize(fs, faulty, root, cfg).fs;
      && fs.dirs <= after.dirs && fs.files <= after.files
      && (forall q :: q in after.dirs && q !in fs.dirs ==>
            OnRootPath(root, q) || DeclaredDir(root, cfg.directories, q))
      && (forall q :: q in after.files && q !in fs.files ==> DeclaredFile(root, cfg.files, q))
  {
    var plan := Plan(root, cfg);
    var after := Materialize(fs, faulty, root, cfg).fs;
    MaterializeRunsPlan(fs, faulty, root, cfg);
    RunFrame(fs, faulty, plan);
    DirOpsExact(root, cfg.directories);
    FileOpsExact(root, cfg.files);
    forall q | q in after.dirs && q !in fs.dirs
      ensures OnRootPath(root, q) || DeclaredDir(root, cfg.directories, q)
    {
      var i :| 0 <= i < |plan| && plan[i].MakeDirs? && q in Ancestry(plan[i].path);
      var p := plan[i].path;
      assert MakeDirs(p) in plan;
      AncestorOfDeclared(root, cfg.directories, p, q);
    }
    forall q | q in after.files && q !in fs.files
      ensures DeclaredFile(root, cfg.files, q)
    {
      var i :| 0 <= i < |plan| && plan[i] == MakeFile(q);
      assert MakeFile(q) in plan;
    }
  }

  /** A directory on the way to a declared one is on the way to `root` or is
      itself declared. */
  lemma AncestorOfDeclared(root: Path, ds: seq<Entry>, p: Path, q: Path)
    requires DeclaredDir(root, ds, p) && q in Ancestry(p)
    ensures OnRootPath(root, q) || DeclaredDir(root, ds, q)
  {
    var i :| 0 <= i < |ds| && EntryDir(root, ds[i], p);
    var m :| 0 < m <= |p| && q == p[..m];
    if m <= |root| {
      assert q == root[..m];
    } else if m == |root| + 1 {
      assert q == root + [ds[i].name];
      assert EntryDir(root, ds[i], q);
    } else {
      assert q == p;
    }
  }

  /** The filesystem stays a tree, whatever fails. */
  lemma MaterializeKeepsTree(fs: Fs, faulty: set<Path>, root: Path, cfg: Config)
    requires WellFormed(fs)
    ensures WellFormed(Materialize(fs, faulty, root, cfg).fs)
  {
    MaterializeRunsPlan(fs, faulty, root, cfg);
    RunPreservesWellFormed(fs, faulty, Plan(root, cfg));
  }

  /** Scaffolding the same configuration again over a successful result
      succeeds and changes nothing: existing directories are passed over and
      existing files are truncated, not refused. */
  lemma MaterializeIdempotent(fs: Fs, faulty: set<Path>, root: Path, cfg: Config)
    requires WellFormed(fs)
    requires Materialize(fs, faulty, root, cfg).outcome.Pass?
    ensures var after := Materialize(fs, faulty, root, cfg).fs;
      Materialize(after, faulty, root, cfg) == Step(after, Pass)
  {
    var after := Materialize(fs, faulty, root, cfg).fs;
    MaterializeRunsPlan(fs, faulty, root, cfg);
    RunIdempotent(fs, faulty, Plan(root, cfg));
    MaterializeRunsPlan(after, faulty, root, cfg);
  }

  /** Fail-fast without rollback: on failure, the calls of the plan before
      the failing one all succeeded, the failing call's partial effect is
      kept, its error is returned, and no later call is issued. */
  lemma FailureStopsAtFirstError(fs: Fs, faulty: set<Path>, root: Path, cfg: Config)
    requires Materialize(fs, faulty, root, cfg).outcome.Fail?
    ensures var plan := Plan(root, cfg); var k := Run(fs, faulty, plan).issued - 1;
      var before := Run(fs, faulty, plan[..k]);
      && before.outcome == Pass
      && Apply(before.fs, faulty, plan[k]) == Materialize(fs, faulty, root, cfg)
  {
    MaterializeRunsPlan(fs, faulty, root, cfg);
    RunFailure(fs, faulty, Plan(root, cfg));
  }

  /** A failure while creating files happens only after every declared
      directory and child was created. */
  lemma FileFailureAfterDirectories(fs: Fs, faulty: set<Path>, root: Path, cfg: Config)
    requires Materialize(fs, faulty, root, cfg).outcome.Fail?
    requires Plan(root, cfg)[Run(fs, faulty, Plan(root, cfg)).issued - 1].MakeFile?
    ensures var after := Materialize(fs, faulty, root, cfg).fs;
      forall q :: DeclaredDir(root, cfg.directories, q) ==> Ancestry(q) <= after.dirs
  {
    var plan := Plan(root, cfg);
    var k := Run(fs, faulty, plan).issued - 1;
    var before := Run(fs, faulty, plan[..k]);
    var ds := DirOps(root, cfg.directories);
    FailureStopsAtFirstError(fs, faulty, root, cfg);
    PlanOrder(root, cfg);
    DirOpsExact(root, cfg.directories);
    RunEstablishes(fs, faulty, plan[..k]);
    ApplySpec(before.fs, faulty, plan[k]);
    forall q | DeclaredDir(root, cfg.directories, q)
      ensures MakeDirs(q) in plan[..k]
    {
      var i :| 0 <= i < |ds| && ds[i] == MakeDirs(q);
      assert plan[..k][i] == ds[i];
    }
  }
}
