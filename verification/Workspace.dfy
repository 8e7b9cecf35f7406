/**
 A project root: its files, its directories and the hash manifest, first as a value with one
 function per file-system call, then as an object whose methods follow those functions.
 */
module Workspace {
  import opened Wrappers
  import opened Text
  import opened Paths

  /** SHA-256 of newline-normalised text; distinct normalised texts have distinct hashes. */
  datatype Hash = Sha256(text: string)

  /** A regular file, or a symbolic link to a file outside the tree that holds `bytes`. */
  datatype File = File(bytes: string, symlink: bool)

  function ComputeHash(content: string): Hash {
    Sha256(NormalizeNewlines(content))
  }

  const BLOCK_START := "<!-- PACTILE:START -->"
  const BLOCK_END := "<!-- PACTILE:END -->"

  /** The managed block of a text, unless it is absent or its markers are ambiguous. */
  function ExtractBlock(text: string): Option<string> {
    var start := IndexOf(text, BLOCK_START, 0);
    var end := IndexOf(text, BLOCK_END, 0);
    if start < 0 || end < start + |BLOCK_START| then None
    else if IndexOf(text, BLOCK_START, start + |BLOCK_START|) >= 0 then None
    else if IndexOf(text, BLOCK_END, end + |BLOCK_END|) >= 0 then None
    else Some(text[start..end + |BLOCK_END|])
  }

  /** AGENTS.md is tracked by its managed block, every other path by its whole content. */
  function HashForPath(p: Path, content: string): Hash {
    if p == AGENTS && ExtractBlock(content).Some? then ComputeHash(ExtractBlock(content).value)
    else ComputeHash(content)
  }

  /** The entries of `m` below-or-at `from`, under their names below `to`. */
  function MoveKeys<T>(m: map<Path, T>, from: Path, to: Path): (r: map<Path, T>)
    ensures forall q | q in m && from <= q :: Rebase(q, from, to) in r && r[Rebase(q, from, to)] == m[q]
    ensures forall k | k in r :: to <= k && Rebase(k, to, from) in m && Rebase(Rebase(k, to, from), from, to) == k
  {
    var moved := set q | q in m && from <= q :: Rebase(q, from, to);
    assert forall q | q in m && from <= q :: Rebase(Rebase(q, from, to), to, from) == q;
    map k | k in moved :: m[Rebase(k, to, from)]
  }

  lemma RebaseBack(k: Path, from: Path, to: Path)
    requires from < k
    ensures to < Rebase(k, from, to) && Rebase(Rebase(k, from, to), to, from) == k
  {
    assert |Rebase(k, from, to)| > |to|;
  }

  /** The key that `k`, a key below neither place or now below `to`, had before the rename. */
  function KeyBefore(k: Path, from: Path, to: Path): Path {
    if to < k then Rebase(k, to, from) else k
  }

  /** The keys after the rename: tracked files follow, leftovers of the old target go. */
  function RenamedDomain(keys: set<Path>, from: Path, to: Path): (r: set<Path>)
    ensures forall k | k in r :: KeyBefore(k, from, to) in keys && (to < k ==> from < KeyBefore(k, from, to))
    ensures forall k | k in r && from < k :: to < k
  {
    assert forall k | k in keys && from < k :: to < Rebase(k, from, to) && Rebase(Rebase(k, from, to), to, from) == k by {
      forall k | k in keys && from < k
        ensures to < Rebase(k, from, to) && Rebase(Rebase(k, from, to), to, from) == k
      {
        RebaseBack(k, from, to);
      }
    }
    (set k | k in keys && !(from < k) && !(to < k)) + (set k | k in keys && from < k :: Rebase(k, from, to))
  }

  function RenamedKeys(hashes: map<Path, Hash>, from: Path, to: Path): map<Path, Hash> {
    map k | k in RenamedDomain(hashes.Keys, from, to) :: hashes[KeyBefore(k, from, to)]
  }

  /** The hashes that a set of written files adds to the manifest. */
  function HashesOf(written: map<Path, string>): map<Path, Hash> {
    map p | p in written && !ExcludedFromHash(p) :: HashForPath(p, written[p])
  }

  lemma RenameOneMore(keys: set<Path>, k: Path, from: Path, to: Path)
    ensures RenamedDomain(keys + {k}, from, to)
            == RenamedDomain(keys, from, to) + if from < k then {Rebase(k, from, to)} else if to < k then {} else {k}
  {
  }

  lemma RenameEntry(done: map<Path, Hash>, k: Path, hash: Hash, from: Path, to: Path)
    requires k !in done
    ensures RenamedKeys(done[k := hash], from, to)
            == if from < k then RenamedKeys(done, from, to)[Rebase(k, from, to) := hash]
               else if to < k then RenamedKeys(done, from, to)
               else RenamedKeys(done, from, to)[k := hash]
  {
    var more := done[k := hash];
    RenameOneMore(done.Keys, k, from, to);
    assert more.Keys == done.Keys + {k};
    if from < k {
      RebaseBack(k, from, to);
    }
    forall x | x in RenamedKeys(done, from, to)
      ensures RenamedKeys(more, from, to)[x] == RenamedKeys(done, from, to)[x]
    {
      assert KeyBefore(x, from, to) in done;
    }
  }

  /** One pass over the manifest, as after a directory rename. */
  method RenameKeys(hashes: map<Path, Hash>, from: Path, to: Path) returns (updated: map<Path, Hash>)
    ensures updated == RenamedKeys(hashes, from, to)
  {
    var todo := hashes.Keys;
    ghost var done: map<Path, Hash> := map[];
    updated := map[];
    assert RenamedDomain({}, from, to) == {};
    while todo != {}
      invariant forall k :: k in done <==> k in hashes && k !in todo
      invariant forall k | k in done :: done[k] == hashes[k]
      invariant todo <= hashes.Keys
      invariant updated == RenamedKeys(done, from, to)
      decreases todo
    {
      var k :| k in todo;
      RenameEntry(done, k, hashes[k], from, to);
      if from < k {
        updated := updated[Rebase(k, from, to) := hashes[k]];
      } else if !(to < k) {
        updated := updated[k := hashes[k]];
      }
      todo := todo - {k};
      done := done[k := hashes[k]];
    }
    assert done == hashes;
  }

  method CollectHashes(paths: seq<Path>, written: map<Path, string>) returns (added: map<Path, Hash>)
    requires forall p :: p in paths <==> p in written
    ensures added == HashesOf(written)
  {
    added := map[];
    for n := 0 to |paths|
      invariant forall p :: p in added <==> p in paths[..n] && !ExcludedFromHash(p)
      invariant forall p | p in added :: added[p] == HashForPath(p, written[p])
    {
      if !ExcludedFromHash(paths[n]) {
        added := added[paths[n] := HashForPath(paths[n], written[paths[n]])];
      }
    }
    assert paths[..|paths|] == paths;
  }

  function MoveDirs(dirs: set<Path>, from: Path, to: Path): set<Path> {
    (set d | d in dirs && !(from <= d)) + (set d | d in dirs && from <= d :: Rebase(d, from, to))
  }

  datatype World = World(files: map<Path, File>, dirs: set<Path>, hashes: map<Path, Hash>) {

    function Entries(): set<Path> {
      files.Keys + dirs
    }

    /** An entry at `p`; every ancestor of an entry exists as a directory. */
    predicate Exists(p: Path) {
      exists q | q in Entries() :: p <= q
    }

    predicate IsDir(p: Path) {
      p !in files && Exists(p)
    }

    predicate HasChild(p: Path) {
      exists q | q in Entries() :: p < q
    }

    function MkdirP(p: Path): Option<World> {
      if exists f | f in files :: f <= p then None
      else Some(this.(dirs := dirs + {p}))
    }

    /** Creates the parent directories and writes; writing through a link keeps the link. */
    function WriteFile(p: Path, bytes: string): Option<World> {
      var w :- MkdirP(Parent(p));
      if w.IsDir(p) then None
      else Some(w.(files := w.files[p := File(bytes, p in w.files && w.files[p].symlink)]))
    }

    function CopyFile(source: Path, target: Path): Option<World> {
      if source !in files then None
      else WriteFile(target, files[source].bytes)
    }

    function Unlink(p: Path): Option<World> {
      if p !in files then None
      else Some(this.(files := files - {p}, dirs := dirs + {Parent(p)}))
    }

    function RemoveTree(p: Path): (w: World)
      ensures w.hashes == hashes
    {
      if !Exists(p) then this
      else this.(files := map q | q in files && !(p <= q) :: files[q],
                 dirs := (set d | d in dirs && !(p <= d)) + {Parent(p)})
    }

    /** Moves an entry with everything below it; an existing file or empty directory is replaced. */
    function RenameSync(from: Path, to: Path): (r: Option<World>)
      ensures r.Some? ==> r.value.hashes == hashes
    {
      if !Exists(from) then None
      else if from == to then Some(this)
      else if !Disjoint(from, to) then None
      else if Exists(to) && (HasChild(to) || (to in files) != (from in files)) then None
      else Some(this.(files := (map q | q in files && !(from <= q) && q != to :: files[q]) + MoveKeys(files, from, to),
                      dirs := MoveDirs(dirs, from, to) + {Parent(from)}))
    }

    /** Removes `d` and then its parents while they are empty directories strictly below a managed root. */
    function CleanupEmptyDirs(d: Path): (w: World)
      ensures w.files == files && w.hashes == hashes
      decreases |d|
    {
      if !IsManaged(d) || IsManagedRoot(d) || !IsDir(d) || HasChild(d) then this
      else
        var w := this.(dirs := dirs - {d} + {Parent(d)});
        if d == [] || Parent(d) == [] || IsManagedRoot(Parent(d)) then w
        else w.CleanupEmptyDirs(Parent(d))
    }

    function RemoveHash(p: Path): World {
      this.(hashes := hashes - {p})
    }

    function RenameHash(from: Path, to: Path): World {
      if from !in hashes then this
      else this.(hashes := (hashes - {from})[to := hashes[from]])
    }

    function RenameDirHashes(from: Path, to: Path): World {
      this.(hashes := RenamedKeys(hashes, from, to))
    }

    function UpdateHashes(written: map<Path, string>): World {
      this.(hashes := hashes + HashesOf(written))
    }

    /** Does the stored hash fail to vouch for the file at `p`? `None` when `p` is a tracked directory. */
    function IsTemplateModified(p: Path, stored: map<Path, Hash>): Option<bool> {
      if !Exists(p) then Some(false)
      else if p !in stored then Some(true)
      else if p !in files then None
      else
        var content := files[p].bytes;
        Some(!(HashForPath(p, content) == stored[p] || (p == AGENTS && ComputeHash(content) == stored[p])))
    }
  }

  /** Outcome of a call: it did what `spec` says, or it threw, which on a sound disk needs a reason. */
  predicate Performs(spec: Option<World>, ok: bool, now: World, faulty: bool) {
    if ok then spec == Some(now) else spec.None? || faulty
  }

  /** A root directory on disk. Any call on a faulty disk may throw. */
  class Root {
    var files: map<Path, File>
    var dirs: set<Path>
    var hashes: map<Path, Hash>
    const faulty: bool

    constructor (w: World, faulty: bool)
      ensures View() == w && this.faulty == faulty
    {
      files, dirs, hashes := w.files, w.dirs, w.hashes;
      this.faulty := faulty;
    }

    function View(): World
      reads this
    {
      World(files, dirs, hashes)
    }

    method Store(w: World)
      modifies this
      ensures View() == w
    {
      files, dirs, hashes := w.files, w.dirs, w.hashes;
    }

    /** One call to the file system; when it throws it has done nothing. */
    method Attempt(spec: Option<World>) returns (ok: bool)
      modifies this
      ensures Performs(spec, ok, View(), faulty)
      ensures !ok ==> View() == old(View())
    {
      ok := spec.Some?;
      if ok && faulty {
        if * {
          ok := false;
        }
      }
      if ok {
        Store(spec.value);
      }
    }

    method CleanupEmptyDirs(d: Path)
      modifies this
      ensures View() == old(View()).CleanupEmptyDirs(d)
      decreases |d|
    {
      if !IsManaged(d) || IsManagedRoot(d) {
        return;
      }
      if !View().IsDir(d) || View().HasChild(d) {
        return;
      }
      dirs := dirs - {d} + {Parent(d)};
      var parent := Parent(d);
      if d != [] && parent != [] && !IsManagedRoot(parent) {
        CleanupEmptyDirs(parent);
      }
    }

    method RenameDirHashes(from: Path, to: Path)
      modifies this`hashes
      ensures View() == old(View()).RenameDirHashes(from, to)
    {
      hashes := RenameKeys(hashes, from, to);
    }

    method UpdateHashes(paths: seq<Path>, written: map<Path, string>)
      requires forall p :: p in paths <==> p in written
      modifies this`hashes
      ensures View() == old(View()).UpdateHashes(written)
    {
      var added := CollectHashes(paths, written);
      hashes := hashes + added;
    }
  }
}
