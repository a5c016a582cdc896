/** Paths as sequences of segments: `filepath.Join(base, name)` on a clean,
    single-segment `name` is `base + [name]`. The empty path is the working
    directory. */
module Paths {

  type Segment = string
  type Path = seq<Segment>

  /** A name that stays one segment when joined: not empty, no separator, and
      neither `.` nor `..` (which `filepath.Join` would clean away). */
  predicate ValidName(s: string)
  {
    s != "" && s != "." && s != ".." && '/' !in s
  }

  predicate ValidPath(p: Path)
  {
    forall k :: 0 <= k < |p| ==> ValidName(p[k])
  }

  /** The non-empty prefixes of `p`, `p` itself included: what `os.MkdirAll(p)`
      may have to create. */
  ghost function Ancestry(p: Path): set<Path>
  {
    set m | 0 < m <= |p| :: p[..m]
  }

  /** `q` is one of the directories on the way to `root`, or `root` itself. */
  ghost predicate OnRootPath(root: Path, q: Path)
  {
    0 < |q| <= |root| && q == root[..|q|]
  }
}
