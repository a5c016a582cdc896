# ProjectStarter scaffolder, modelled in Dafny

ProjectStarter creates a project skeleton from a YAML configuration. The
configuration lists `directories`, each with optional `children`, and `files`.
This project models the function that turns a loaded configuration into
directories and files, `createDirectoryStructure` in `cmd/root.go`. It also
models the string that names the configuration file, `config/<type>/<pattern>.yml`.

- `paths.dfy` (module `Paths`): a path is a sequence of segments, so
  `filepath.Join(base, name)` on a single-segment name is `base + [name]`. The
  empty path is the working directory.
- `filesystem.dfy` (module `Os`): an abstract filesystem, with a set of
  directory paths and a set of file paths. The class `FileSystem` holds the
  two sets as fields, and its invariant `Valid` says they form a tree. Its
  methods `MkdirAll` and `Create` update them in place the way `os.MkdirAll`
  and `os.Create` do:
  - `MkdirAll` creates missing prefixes shortest first, passes over existing
    directories, and keeps partial work when it fails.
  - `Create` first looks up the directories on the way to the file. A file
    there gives "not a directory" and a missing one gives "not found". A
    directory at the target is refused. Writing the target needs the
    system's consent, whether the file exists or not. An existing file is
    truncated.

  Failures that do not follow from the tree itself (permissions, a full disk)
  come from a fixed set `faulty` of paths whose creation is refused. `Run`
  issues a list of calls and stops at the first error, as the Go code does.
- `config.dfy` (module `Config`): the configuration as typed records, and the
  configuration path with its parser.
- `scaffold.dfy` (module `Scaffold`): `CreateDirectoryStructure` is the Go
  function, with its three loops and early `return err`. It is proved against
  `Materialize`, which mirrors those loops. `Materialize` is proved equal to
  running `Plan`, the list of calls the loops issue when nothing fails, in
  order. All the guarantees are then proved about that plan:
  - what exists after success;
  - fail-fast without rollback;
  - directories before files;
  - two levels only, with children always directories;
  - nothing undeclared is created;
  - re-running changes nothing.

Three consequences of the code are worth stating:
- The code walks exactly two levels: entries and their children. It keeps
  files in their own top-level list. It does not recurse and does not infer
  files from extensions.
- An empty pattern stays in the configuration path as `config/<type>/.yml`.
  No `basic` default is substituted.
- Re-creating an existing file is not an error when the file may be written,
  because `os.Create` truncates it. So scaffolding the same configuration
  twice succeeds.

## Model

| member | source | states |
|---|---|---|
| Scaffold.CreateDirectoryStructure | cmd/root.go:90-124 | The filesystem left and the error returned are those of `Materialize` on the old state. They are also those of running `Plan(root, cfg)` fail-fast: the calls issued are exactly the plan's calls up to and including the first that fails. |
| Scaffold.MaterializeRunsPlan | cmd/root.go:92-123 | The three nested loops with early returns leave the same filesystem and error as issuing the plan's calls in order and stopping at the first error. |
| Scaffold.DirectoriesFromRuns | cmd/root.go:92-111 | The `directories` loop resumed at entry `i` is a fail-fast run of the remaining entries' calls followed by the file calls. |
| Scaffold.ChildrenFromRuns | cmd/root.go:102-109 | The children loop resumed at child `j` is a fail-fast run of `MkdirAll(path/child)` for the remaining children. |
| Scaffold.FilesFromRuns | cmd/root.go:114-121 | The `files` loop resumed at entry `k` is a fail-fast run of `Create(root/name)` for the remaining entries. |
| Scaffold.DirOpsExact | cmd/root.go:92-110 | The `directories` loop issues only `MkdirAll` calls. It issues one for a path exactly when the path is a declared `root/name` or `root/name/child`. Children are never created as files, and nothing below a child is visited. |
| Scaffold.FileOpsExact | cmd/root.go:113-117 | The `files` loop issues only `Create` calls. It issues one for a path exactly when the path is a declared `root/name`. |
| Scaffold.DirOpsAppend | cmd/root.go:92 | The calls for a concatenation of directory lists are the calls for each list, in order. |
| Scaffold.DirOpsSplit | cmd/root.go:92-110 | Entry `i` is handled after every earlier entry and before every later one. Its own directory comes right before its children, in list order. |
| Scaffold.PlanOrder | cmd/root.go:92-117 | Every directory call comes before every file call. The file calls are the `files` entries in list order, each directly under `root`. |
| Scaffold.SuccessCreatesEverything | cmd/root.go:92-123 | On success, every declared directory and child exists with all its ancestors, and every declared file exists. |
| Scaffold.OnlyDeclaredPaths | cmd/root.go:94-117 | Nothing is ever removed, even on failure. A new directory is on the way to `root` or is a declared directory or child. A new file is a declared file. |
| Scaffold.AncestorOfDeclared | cmd/root.go:94-105 | A directory that `MkdirAll` of a declared path may create is on the way to `root` or is itself declared. |
| Scaffold.MaterializeKeepsTree | cmd/root.go:90-124 | Whatever fails, the filesystem stays a tree: every entry has a parent directory, and no path is both a file and a directory. |
| Scaffold.MaterializeIdempotent | cmd/root.go:95-117 | Scaffolding the same configuration again over a successful result succeeds and changes nothing. |
| Scaffold.FailureStopsAtFirstError | cmd/root.go:96-120 | On failure, the plan's calls before the failing one all succeeded. The failing call's partial effect is kept and its error is returned. No later call is issued. |
| Scaffold.FileFailureAfterDirectories | cmd/root.go:111-120 | A failure while creating files happens only after every declared directory and child exists. |
| Os.FileSystem.MkdirAll | cmd/root.go:95 | The new state and the result are those of `MkdirFrom` from the first prefix, and the filesystem stays a tree. |
| Os.FileSystem.Create | cmd/root.go:117 | The new state and the result are those of `CreateFile`, and the filesystem stays a tree. |
| Os.ReachSpec | cmd/root.go:117 | The lookup of the directory a file is created in succeeds exactly when every directory on the way exists. |
| Os.MkdirFromSpec | cmd/root.go:95 | `MkdirAll` leaves files alone. It adds only directories on the way to `p`. It succeeds exactly when all of them exist afterwards. It changes nothing when they already exist, and it keeps the filesystem a tree. |
| Os.CreateFileSpec | cmd/root.go:117 | `Create` leaves directories alone and adds at most `p`, and a failed call changes nothing. It succeeds exactly when `p` is not empty, not a directory, writable, and every directory on the way exists. An existing writable file is kept as it is, and the filesystem stays a tree. |
| Os.ApplySpec | cmd/root.go:95-117 | Neither call removes anything. Each adds only what it targets. A directory call succeeds exactly when its target and its ancestors exist afterwards. A file call succeeds only when its file exists afterwards and may be written. A call that is already settled changes nothing: for a directory, it exists; for a file, it exists and may be written. |
| Os.Run | cmd/root.go:95-120 | A fail-fast run issues at most all its calls. It issues all of them when it succeeds, and at least one when it fails. |
| Os.RunAppend | cmd/root.go:92-121 | Running `a + b` runs `a`, then runs `b` only if `a` succeeded, from where `a` left the filesystem. |
| Os.RunFailure | cmd/root.go:96-120 | A failed run is a successful run of the calls before the failing one, then that call, whose error is returned and whose partial effect is kept. |
| Os.RunEstablishes | cmd/root.go:95-117 | After a successful run, every call is settled: each directory and file it targets exists, and no file call targeted a file the system refuses to write. |
| Os.RunFrame | cmd/root.go:94-117 | A run removes nothing. A new directory is on the way to some `MkdirAll` target, and a new file is some `Create` target. |
| Os.RunPreservesWellFormed | cmd/root.go:95-117 | Any run keeps the filesystem a tree. |
| Os.RunNoop | cmd/root.go:95-117 | Calls that are all already settled succeed and change nothing. |
| Os.RunIdempotent | cmd/root.go:95-117 | Re-running successful calls over their own result succeeds and changes nothing. |
| Config.ConfigPath | cmd/root.go:77 | The configuration path starts with `config/`, ends with `.yml`, and is 12 characters longer than the type and pattern together. |
| Config.ConfigPathRoundTrip | cmd/root.go:77 | Parsing a string gives back `(type, pattern)` exactly when the string is `ConfigPath(type, pattern)` and the type holds no `/`. The path is unambiguous for such types, and an empty pattern is kept as it is. |

## Left out

- Reading the configuration with viper (`cmd/root.go:79-85`) and `initConfig` are file and environment I/O through a library. The loaded configuration is the method's input.
- The cobra command wiring and flags in `cmd/root.go`, and the commands in `cmd/create.go` and `cmd/delete.go`, are CLI plumbing and prompts and are not part of this model.
- The Go `map[string]interface{}` configuration and its type assertions are not modelled. A missing or non-list `directories` or `files` key, or a non-string `name`, panics in Go. The records make those shapes impossible. A missing `children` key is modelled as an empty list.
- The panic order is not modelled: a malformed `files` key panics only after all directories were created (`cmd/root.go:113`).
- Scaffold.CreateDirectoryStructure: requires every name to be one segment, with no `/` and neither `.` nor `..`. Other names would be split or cleaned by `filepath.Join`, and that cleaning (including path traversal out of the project) is not modelled.
- Os.FileSystem.Create: does not return the `*os.File` handle, which the Go code discards without closing. File contents are not modelled, so truncation is a no-op.
- Os.FileSystem.MkdirAll: ignores the permission bits `0755`.
- Errors are reduced to the offending path and a reason: not a directory, is a directory, not found, or refused. Refusals for reasons outside the tree come from the fixed `faulty` set rather than from the operating system. For `MkdirAll` the offending path is the prefix that failed; for `Create` it is the file.
- Concurrent changes to the filesystem by other processes are not modelled.
