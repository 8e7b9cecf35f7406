/**
 Relative paths as sequences of segment names. `p.startsWith(root + "/")` is the
 proper-prefix order of Dafny's sequences, and "root itself or below it" is `root <= p`.
 */
module Paths {
  import opened Text

  type Name = string
  type Path = seq<Name>

  predicate Disjoint(a: Path, b: Path) {
    !(a <= b) && !(b <= a)
  }

  function Parent(p: Path): Path {
    if p == [] then [] else p[..|p| - 1]
  }

  /** The path that `p`, at or below `from`, has after `from` became `to`. */
  function Rebase(p: Path, from: Path, to: Path): Path
    requires from <= p
  {
    to + p[|from|..]
  }

  /** Path text with `/` separators, for the substring tests of the program. */
  function Posix(p: Path): string {
    JoinWith(p, "/")
  }

  lemma PrefixOrEqual(a: Path, b: Path)
    requires a <= b && !(a < b)
    ensures a == b
  {
    assert b == b[..|a|];
  }

  lemma PrefixOrProper(a: Path, b: Path)
    requires a <= b && a != b
    ensures a < b
  {
    if !(a < b) {
      PrefixOrEqual(a, b);
    }
  }

  lemma PrefixesCompare(a: Path, b: Path, p: Path)
    requires a <= p && b <= p
    ensures a <= b || b <= a
  {
  }

  const WORKFLOW := ".pactile"
  const MANAGED_ROOTS: seq<Path> := [[WORKFLOW], [".cursor"]]
  const MIDDLEWARE: Path := [WORKFLOW, "middleware"]
  const AGENTS: Path := ["AGENTS.md"]
  const CONFIG: Path := [WORKFLOW, "config.yaml"]
  const VERSION_FILE: Path := [WORKFLOW, ".version"]

  /** User data that update never deletes or moves away. */
  const PROTECTED_PATHS: seq<Path> := [
    [WORKFLOW, "workspace"], [WORKFLOW, "tasks"], [WORKFLOW, "spec"], MIDDLEWARE,
    [WORKFLOW, ".developer"], [WORKFLOW, ".current-task"]
  ]

  predicate IsProtected(p: Path) {
    exists root | root in PROTECTED_PATHS :: root <= p
  }

  predicate IsManaged(p: Path) {
    exists root | root in MANAGED_ROOTS :: root <= p
  }

  predicate IsManagedRoot(p: Path) {
    p in MANAGED_ROOTS
  }

  predicate IsMiddleware(p: Path) {
    MIDDLEWARE <= p
  }

  /** Does an `update.skip` entry cover `p`, as that path or as a directory above it? */
  predicate Skips(entry: string, p: Path) {
    Posix(p) == entry || StartsWith(Posix(p), if EndsWith(entry, "/") then entry else entry + "/")
  }

  const EXCLUDE_FROM_HASH: seq<string> := [
    ".template-hashes.json", ".version", ".gitignore", ".developer", "workspace/", "tasks/",
    ".current-task", ".pactile/runtime/", ".pactile/spec/", ".pactile/middleware/", ".backup-"
  ]

  predicate ExcludedFromHash(p: Path) {
    IsMiddleware(p) || exists pattern | pattern in EXCLUDE_FROM_HASH :: Contains(Posix(p), pattern)
  }

  const BACKUP_EXCLUDES: seq<string> := [
    ".backup-", "/node_modules", "/workspace/", "/tasks/", "/spec/", "/middleware/", "/backlog/",
    "/agent-traces/", "/worktrees/", "/worktree/"
  ]

  predicate ExcludedFromBackup(p: Path) {
    exists pattern | pattern in BACKUP_EXCLUDES :: Contains(Posix(p), pattern)
  }
}
