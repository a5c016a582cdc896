/** The two filesystem calls the scaffolder makes, `os.MkdirAll` and
    `os.Create`, over an abstract filesystem: a set of directory paths and a
    set of file paths. Failures the model cannot derive from the tree itself
    (permissions, a full disk, ...) come from a fixed set of `faulty` paths
    whose creation the system refuses. */
module Os {
  import opened Paths

  datatype Fs = Fs(dirs: set<Path>, files: set<Path>)

  /** One call the scaffolder issues. */
  datatype Op = MakeDirs(path: Path) | MakeFile(path: Path)

  datatype Reason =
    | NotADirectory   // a path that should be a directory is a regular file
    | IsADirectory    // a file is to be created where a directory exists
    | NotFound        // the path is empty, or a directory on the way to it does not exist
    | Refused         // the system refuses to create this path

  /** Go's `error`: `nil` or an error naming the offending path. */
  datatype Outcome = Pass | Fail(at: Path, reason: Reason)

  /** The filesystem after one call, and that call's result. */
  datatype Step = Step(fs: Fs, outcome: Outcome)

  /** The filesystem after a sequence of calls that stops at the first error,
      how many calls were issued (the failing one included), and the result. */
  datatype Trace = Trace(fs: Fs, issued: nat, outcome: Outcome)

  /** The filesystem is a tree rooted at the working directory (the empty
      path): every entry's parent is a directory, and no path is both. */
  ghost predicate WellFormed(fs: Fs)
  {
    && (forall d :: d in fs.dirs ==> |d| > 0 && (|d| > 1 ==> d[..|d| - 1] in fs.dirs))
    && (forall f :: f in fs.files ==> |f| > 0 && (|f| > 1 ==> f[..|f| - 1] in fs.dirs))
    && fs.dirs !! fs.files
  }

  /** What a successful call leaves behind. */
  ghost predicate Holds(fs: Fs, op: Op)
  {
    match op
    case MakeDirs(p) => Ancestry(p) <= fs.dirs
    case MakeFile(p) => p in fs.files
  }

  /** What a successful call leaves behind, in a state where issuing the call
      again succeeds: a file is only reopened if the system allows writing it. */
  ghost predicate Settled(fs: Fs, faulty: set<Path>, op: Op)
  {
    Holds(fs, op) && (op.MakeFile? ==> op.path !in faulty)
  }

  /** `os.MkdirAll(p)` from the prefix of length `k` on: each missing prefix
      is created, shortest first; an existing directory is passed over; a
      prefix that is a file, or that the system refuses, stops the call with
      the prefixes created so far left in place. */
  function MkdirFrom(fs: Fs, faulty: set<Path>, p: Path, k: nat): Step
    requires k <= |p|
    decreases |p| - k
  {
    if k == |p| then Step(fs, Pass)
    else
      var q := p[..k + 1];
      if q in fs.dirs then MkdirFrom(fs, faulty, p, k + 1)
      else if q in fs.files then Step(fs, Fail(q, NotADirectory))
      else if q in faulty then Step(fs, Fail(q, Refused))
      else MkdirFrom(Fs(fs.dirs + {q}, fs.files), faulty, p, k + 1)
  }

  /** `os.MkdirAll` never touches files and only adds directories on the way
      to `p`; it succeeds exactly when all of them exist afterwards; it changes
      nothing when they already do; and it keeps the filesystem a tree. */
  lemma {:induction false} MkdirFromSpec(fs: Fs, faulty: set<Path>, p: Path, k: nat)
    requires k <= |p|
    ensures var s := MkdirFrom(fs, faulty, p, k);
      && s.fs.files == fs.files
      && fs.dirs <= s.fs.dirs <= fs.dirs + Ancestry(p)
      && (s.outcome.Pass? <==> forall m :: k < m <= |p| ==> p[..m] in s.fs.dirs)
      && ((forall m :: k < m <= |p| ==> p[..m] in fs.dirs) ==> s == Step(fs, Pass))
      && (WellFormed(fs) && (k == 0 || p[..k] in fs.dirs) ==> WellFormed(s.fs))
    decreases |p| - k
  {
    if k < |p| {
      var q := p[..k + 1];
      if q in fs.dirs {
        MkdirFromSpec(fs, faulty, p, k + 1);
      } else if q !in fs.files && q !in faulty {
        assert q[..k] == p[..k];
        MkdirFromSpec(Fs(fs.dirs + {q}, fs.files), faulty, p, k + 1);
      }
    }
  }

  /** The lookup of the directory `p` is created in, from the prefix of
      length `k + 1` on: every proper prefix of `p` must be a directory; the
      first that is not makes the call fail with `NotADirectory` when it is a
      file and `NotFound` when it is missing. */
  function Reach(fs: Fs, p: Path, k: nat): Outcome
    requires k < |p|
    decreases |p| - k
  {
    if k == |p| - 1 then Pass
    else if p[..k + 1] in fs.dirs then Reach(fs, p, k + 1)
    else if p[..k + 1] in fs.files then Fail(p, NotADirectory)
    else Fail(p, NotFound)
  }

  /** The lookup succeeds exactly when every directory on the way exists. */
  lemma {:induction false} ReachSpec(fs: Fs, p: Path, k: nat)
    requires k < |p|
    ensures Reach(fs, p, k).Pass? <==> forall m :: k < m < |p| ==> p[..m] in fs.dirs
    decreases |p| - k
  {
    if k < |p| - 1 {
      ReachSpec(fs, p, k + 1);
    }
  }

  /** In a tree, every prefix of a directory is a directory. */
  lemma {:induction false} AncestorsAreDirs(fs: Fs, d: Path)
    requires WellFormed(fs) && d in fs.dirs
    ensures forall m :: 0 < m <= |d| ==> d[..m] in fs.dirs
    decreases |d|
  {
    assert d[..|d|] == d;
    if |d| > 1 {
      var parent := d[..|d| - 1];
      AncestorsAreDirs(fs, parent);
      forall m | 0 < m < |d|
        ensures d[..m] in fs.dirs
      {
        assert d[..m] == parent[..m];
      }
    }
  }

  /** `os.Create(p)`: opens `p` for writing, creating it or truncating an
      existing file. The lookup of its directory comes first, then a
      directory at `p` is refused, then the system's consent to write `p`
      is asked, whether `p` exists or not. File contents are not modelled,
      so truncation changes nothing here. */
  function CreateFile(fs: Fs, faulty: set<Path>, p: Path): Step
  {
    if |p| == 0 then Step(fs, Fail(p, NotFound))
    else if Reach(fs, p, 0).Fail? then Step(fs, Reach(fs, p, 0))
    else if p in fs.dirs then Step(fs, Fail(p, IsADirectory))
    else if p in faulty then Step(fs, Fail(p, Refused))
    else if p in fs.files then Step(fs, Pass)
    else Step(Fs(fs.dirs, fs.files + {p}), Pass)
  }

  /** `os.Create` never touches directories and adds at most `p`; a failed
      call changes nothing; success needs every directory on the way and the
      system's consent; an existing file the system lets be written is kept
      as it is; and the filesystem stays a tree. */
  lemma CreateFileSpec(fs: Fs, faulty: set<Path>, p: Path)
    ensures var s := CreateFile(fs, faulty, p);
      && s.fs.dirs == fs.dirs
      && fs.files <= s.fs.files <= fs.files + {p}
      && (s.outcome.Fail? ==> s.fs == fs)
      && (s.outcome.Pass? <==>
            && 0 < |p| && p !in fs.dirs && p !in faulty
            && (forall m :: 0 < m < |p| ==> p[..m] in fs.dirs))
      && (s.outcome.Pass? ==> p in s.fs.files)
      && (WellFormed(fs) && p in fs.files && p !in faulty ==> s == Step(fs, Pass))
      && (WellFormed(fs) ==> WellFormed(s.fs))
  {
    if |p| > 0 {
      ReachSpec(fs, p, 0);
      if WellFormed(fs) && p in fs.files && |p| > 1 {
        AncestorsAreDirs(fs, p[..|p| - 1]);
        forall m | 0 < m < |p|
          ensures p[..m] in fs.dirs
        {
          assert p[..m] == p[..|p| - 1][..m];
        }
      }
    }
  }

  /** One call. */
  function Apply(fs: Fs, faulty: set<Path>, op: Op): Step
  {
    match op
    case MakeDirs(p) => MkdirFrom(fs, faulty, p, 0)
    case MakeFile(p) => CreateFile(fs, faulty, p)
  }

  /** Nothing is ever removed, not even by a call that fails; a call adds
      only what it targets; a directory call succeeds exactly when what it
      promises is in place afterwards, a file call only when its file is in
      place and may be written; a call already settled changes nothing; the
      filesystem stays a tree. */
  lemma ApplySpec(fs: Fs, faulty: set<Path>, op: Op)
    ensures var s := Apply(fs, faulty, op);
      && fs.dirs <= s.fs.dirs && fs.files <= s.fs.files
      && (op.MakeDirs? ==> s.fs.files == fs.files && s.fs.dirs <= fs.dirs + Ancestry(op.path))
      && (op.MakeFile? ==> s.fs.dirs == fs.dirs && s.fs.files <= fs.files + {op.path})
      && (op.MakeDirs? ==> (s.outcome.Pass? <==> Holds(s.fs, op)))
      && (op.MakeFile? && s.outcome.Pass? ==> Settled(s.fs, faulty, op))
      && (WellFormed(fs) && Settled(fs, faulty, op) ==> s == Step(fs, Pass))
      && (WellFormed(fs) ==> WellFormed(s.fs))
  {
    match op
    case MakeDirs(p) => MkdirFromSpec(fs, faulty, p, 0);
    case MakeFile(p) => CreateFileSpec(fs, faulty, p);
  }

  /** Issues `ops` in order and returns at the first error, as a Go function
      that follows each call with `if err != nil { return err }`. */
  function Run(fs: Fs, faulty: set<Path>, ops: seq<Op>): (t: Trace)
    ensures t.issued <= |ops|
    ensures t.outcome.Pass? ==> t.issued == |ops|
    ensures t.outcome.Fail? ==> t.issued > 0
    decreases |ops|
  {
    if ops == [] then Trace(fs, 0, Pass)
    else
      var s := Apply(fs, faulty, ops[0]);
      if s.outcome.Fail? then Trace(s.fs, 1, s.outcome)
      else
        var t := Run(s.fs, faulty, ops[1..]);
        Trace(t.fs, t.issued + 1, t.outcome)
  }

  /** Running `a + b` is running `a`, then, only if `a` succeeded, `b` from
      where `a` left the filesystem. */
  lemma {:induction false} RunAppend(fs: Fs, faulty: set<Path>, a: seq<Op>, b: seq<Op>)
    ensures var ta := Run(fs, faulty, a);
      Run(fs, faulty, a + b) ==
        if ta.outcome.Fail? then ta
        else var tb := Run(ta.fs, faulty, b); Trace(tb.fs, |a| + tb.issued, tb.outcome)
    decreases |a|
  {
    if a == [] {
      assert a + b == b;
    } else {
      assert (a + b)[0] == a[0];
      assert (a + b)[1..] == a[1..] + b;
      var s := Apply(fs, faulty, a[0]);
      if s.outcome.Pass? {
        RunAppend(s.fs, faulty, a[1..], b);
      }
    }
  }

  /** Fail-fast without rollback: a failed run is a successful run of the
      calls before the failing one, followed by that one call, whose error is
      returned and whose partial effect is kept; nothing after it is issued. */
  lemma {:induction false} RunFailure(fs: Fs, faulty: set<Path>, ops: seq<Op>)
    requires Run(fs, faulty, ops).outcome.Fail?
    ensures var t := Run(fs, faulty, ops);
      var k := t.issued - 1;
      var before := Run(fs, faulty, ops[..k]);
      && before.outcome == Pass
      && Apply(before.fs, faulty, ops[k]) == Step(t.fs, t.outcome)
    decreases |ops|
  {
    var s := Apply(fs, faulty, ops[0]);
    if s.outcome.Pass? {
      RunFailure(s.fs, faulty, ops[1..]);
      var k := Run(fs, faulty, ops).issued - 1;
      assert ops[..k] == [ops[0]] + ops[1..][..k - 1];
      RunAppend(fs, faulty, [ops[0]], ops[1..][..k - 1]);
    }
  }

  /** After a successful run, every call's promise holds, and no file call
      targeted a file the system refuses to write. */
  lemma {:induction false} RunEstablishes(fs: Fs, faulty: set<Path>, ops: seq<Op>)
    requires Run(fs, faulty, ops).outcome.Pass?
    ensures forall op :: op in ops ==> Settled(Run(fs, faulty, ops).fs, faulty, op)
    decreases |ops|
  {
    if ops != [] {
      var s := Apply(fs, faulty, ops[0]);
      var t := Run(fs, faulty, ops);
      ApplySpec(fs, faulty, ops[0]);
      RunEstablishes(s.fs, faulty, ops[1..]);
      RunFrame(s.fs, faulty, ops[1..]);
      forall op | op in ops
        ensures Settled(t.fs, faulty, op)
      {
        if op != ops[0] {
          assert op in ops[1..];
        }
      }
    }
  }

  /** No rollback and nothing else changes: nothing is removed, a directory
      that appears is on the way to some `MakeDirs` target, and a file that
      appears is some `MakeFile` target. */
  lemma {:induction false} RunFrame(fs: Fs, faulty: set<Path>, ops: seq<Op>)
    ensures var t := Run(fs, faulty, ops);
      && fs.dirs <= t.fs.dirs && fs.files <= t.fs.files
      && (forall q :: q in t.fs.dirs && q !in fs.dirs ==>
            exists i :: 0 <= i < |ops| && ops[i].MakeDirs? && q in Ancestry(ops[i].path))
      && (forall q :: q in t.fs.files && q !in fs.files ==>
            exists i :: 0 <= i < |ops| && ops[i] == MakeFile(q))
    decreases |ops|
  {
    if ops != [] {
      var s := Apply(fs, faulty, ops[0]);
      var t := Run(fs, faulty, ops);
      ApplySpec(fs, faulty, ops[0]);
      if s.outcome.Pass? {
        RunFrame(s.fs, faulty, ops[1..]);
        forall q | q in t.fs.dirs && q !in fs.dirs
          ensures exists i :: 0 <= i < |ops| && ops[i].MakeDirs? && q in Ancestry(ops[i].path)
        {
          if q !in s.fs.dirs {
            var i :| 0 <= i < |ops[1..]| && ops[1..][i].MakeDirs? && q in Ancestry(ops[1..][i].path);
            assert ops[i + 1] == ops[1..][i];
          }
        }
        forall q | q in t.fs.files && q !in fs.files
          ensures exists i :: 0 <= i < |ops| && ops[i] == MakeFile(q)
        {
          if q !in s.fs.files {
            var i :| 0 <= i < |ops[1..]| && ops[1..][i] == MakeFile(q);
            assert ops[i + 1] == ops[1..][i];
          }
        }
      }
    }
  }

  /** The filesystem stays a tree whatever calls are issued and however they
      fail. */
  lemma {:induction false} RunPreservesWellFormed(fs: Fs, faulty: set<Path>, ops: seq<Op>)
    requires WellFormed(fs)
    ensures WellFormed(Run(fs, faulty, ops).fs)
    decreases |ops|
  {
    if ops != [] {
      ApplySpec(fs, faulty, ops[0]);
      var s := Apply(fs, faulty, ops[0]);
      if s.outcome.Pass? {
        RunPreservesWellFormed(s.fs, faulty, ops[1..]);
      }
    }
  }

  /** Calls that are already settled succeed and change nothing. */
  lemma {:induction false} RunNoop(fs: Fs, faulty: set<Path>, ops: seq<Op>)
    requires WellFormed(fs)
    requires forall op :: op in ops ==> Settled(fs, faulty, op)
    ensures Run(fs, faulty, ops) == Trace(fs, |ops|, Pass)
    decreases |ops|
  {
    if ops != [] {
      assert ops[0] in ops;
      ApplySpec(fs, faulty, ops[0]);
      forall op | op in ops[1..]
        ensures Settled(fs, faulty, op)
      {
        assert op in ops;
      }
      RunNoop(fs, faulty, ops[1..]);
    }
  }

  /** Re-running calls that succeeded, against the filesystem they produced,
      succeeds again and changes nothing. */
  lemma RunIdempotent(fs: Fs, faulty: set<Path>, ops: seq<Op>)
    requires WellFormed(fs)
    requires Run(fs, faulty, ops).outcome.Pass?
    ensures var after := Run(fs, faulty, ops).fs;
      Run(after, faulty, ops) == Trace(after, |ops|, Pass)
  {
    RunEstablishes(fs, faulty, ops);
    RunPreservesWellFormed(fs, faulty, ops);
    RunNoop(Run(fs, faulty, ops).fs, faulty, ops);
  }

  /** The filesystem the scaffolder runs against. */
  class FileSystem {
    var dirs: set<Path>
    var files: set<Path>
    const faulty: set<Path>

    function State(): Fs
      reads this
    {
      Fs(dirs, files)
    }

    /** The two sets form a tree. */
    ghost predicate Valid()
      reads this
    {
      WellFormed(State())
    }

    constructor (dirs: set<Path>, files: set<Path>, faulty: set<Path>)
      requires WellFormed(Fs(dirs, files))
      ensures Valid()
      ensures State() == Fs(dirs, files) && this.faulty == faulty
    {
      this.dirs := dirs;
      this.files := files;
      this.faulty := faulty;
    }

    /** `os.MkdirAll(p, 0755)`. */
    method MkdirAll(p: Path) returns (err: Outcome)
      requires Valid()
      modifies this
      ensures Valid()
      ensures var s := Apply(old(State()), faulty, MakeDirs(p));
        State() == s.fs && err == s.outcome
    {
      MkdirFromSpec(State(), faulty, p, 0);
      var k := 0;
      while k < |p|
        invariant k <= |p|
        invariant MkdirFrom(State(), faulty, p, k) == MkdirFrom(old(State()), faulty, p, 0)
      {
        var q := p[..k + 1];
        if q !in dirs {
          if q in files {
            return Fail(q, NotADirectory);
          }
          if q in faulty {
            return Fail(q, Refused);
          }
          dirs := dirs + {q};
        }
        k := k + 1;
      }
      err := Pass;
    }

    /** `os.Create(p)`; the returned file handle is not modelled. */
    method Create(p: Path) returns (err: Outcome)
      requires Valid()
      modifies this
      ensures Valid()
      ensures var s := Apply(old(State()), faulty, MakeFile(p));
        State() == s.fs && err == s.outcome
    {
      CreateFileSpec(State(), faulty, p);
      if |p| == 0 {
        return Fail(p, NotFound);
      }
      var k := 0;
      while k < |p| - 1
        invariant k < |p|
        invariant State() == old(State())
        invariant Reach(State(), p, k) == Reach(State(), p, 0)
      {
        var q := p[..k + 1];
        if q !in dirs {
          if q in files {
            return Fail(p, NotADirectory);
          }
          return Fail(p, NotFound);
        }
        k := k + 1;
      }
      if p in dirs {
        err := Fail(p, IsADirectory);
      } else if p in faulty {
        err := Fail(p, Refused);
      } else if p !in files {
        files := files + {p};
        err := Pass;
      } else {
        err := Pass;
      }
    }
  }
}
