/** The loaded configuration and the path it is loaded from. The YAML/JSON
    mapping is modelled by typed records, so the shapes that would make a Go
    type assertion panic cannot be written down. */
module Config {
  import opened Paths

  datatype Option<T> = None | Some(value: T)

  /** A `{name: ..., children: [...]}` mapping. Every entry may carry
      children; which of them are read depends on where the entry sits. */
  datatype Entry = Entry(name: string, children: seq<Entry>)

  /** The two top-level lists, `directories` and `files`. */
  datatype Config = Config(directories: seq<Entry>, files: seq<Entry>)

  /** Every name the scaffolder joins onto a path is a single segment: each
      directory entry's, each of its children's and each file entry's. */
  predicate ValidConfig(cfg: Config)
  {
    && (forall i :: 0 <= i < |cfg.directories| ==>
          && ValidName(cfg.directories[i].name)
          && forall j :: 0 <= j < |cfg.directories[i].children| ==> ValidName(cfg.directories[i].children[j].name))
    && (forall k :: 0 <= k < |cfg.files| ==> ValidName(cfg.files[k].name))
  }

  /** `fmt.Sprintf("config/%s/%s.yml", projectType, pattern)`: an empty
      pattern is used as it is, giving `config/<type>/.yml`. */
  function ConfigPath(projectType: string, pattern: string): (r: string)
    ensures |r| == |projectType| + |pattern| + 12
    ensures r[..7] == "config/" && r[|r| - 4..] == ".yml"
  {
    "config/" + projectType + "/" + pattern + ".yml"
  }

  /** The first position of `c` in `s`, if any. */
  function IndexOf(s: string, c: char): (r: Option<nat>)
    ensures r.None? ==> c !in s
    ensures r.Some? ==> r.value < |s| && s[r.value] == c && c !in s[..r.value]
  {
    if s == [] then None
    else if s[0] == c then Some(0)
    else
      match IndexOf(s[1..], c)
      case None => None
      case Some(i) =>
        assert s[..i + 1] == [s[0]] + s[1..][..i];
        Some(i + 1)
  }

  /** Recovers the project type and pattern from a configuration path,
      splitting at the first `/` after `config/`. */
  function ParseConfigPath(s: string): Option<(string, string)>
  {
    if |s| < 11 || s[..7] != "config/" || s[|s| - 4..] != ".yml" then None
    else
      var middle := s[7..|s| - 4];
      match IndexOf(middle, '/')
      case None => None
      case Some(i) => Some((middle[..i], middle[i + 1..]))
  }

  /** The configuration path names its type and pattern unambiguously
      exactly when the type holds no `/`: parsing inverts `ConfigPath` and
      accepts nothing else. */
  lemma ConfigPathRoundTrip(s: string, projectType: string, pattern: string)
    ensures ParseConfigPath(s) == Some((projectType, pattern)) <==>
            s == ConfigPath(projectType, pattern) && '/' !in projectType
  {
    if s == ConfigPath(projectType, pattern) && '/' !in projectType {
      var middle := s[7..|s| - 4];
      assert middle == projectType + "/" + pattern;
      assert middle[|projectType|] == '/';
      assert middle[..|projectType|] == projectType;
      assert middle[|projectType| + 1..] == pattern;
    }
    if ParseConfigPath(s) == Some((projectType, pattern)) {
      var middle := s[7..|s| - 4];
      var i := IndexOf(middle, '/').value;
      assert middle == middle[..i] + "/" + middle[i + 1..];
      assert s == s[..7] + middle + s[|s| - 4..];
    }
  }
}
