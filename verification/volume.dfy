/** The wipe engine run against a filesystem that changes in place: file
    contents are overwritten chunk by chunk, and files are removed. */
module Volume {
  import opened Common
  import opened LockGate
  import opened Io
  import opened Chunking
  import opened PassSpec
  import opened Algorithms
  import opened Walk

  /** The buffers that the paths among `paths` which the lock gate lets
      through name in `files`: the only buffers a walk over `paths` may
      write. */
  ghost function Exposed(files: map<Path, array<byte>>, env: Env, paths: seq<Path>): set<array<byte>>
  {
    if paths == [] then {}
    else
      var p := paths[|paths| - 1];
      Exposed(files, env, paths[..|paths| - 1]) + (if p in files && !Skipped(env, p) then {files[p]} else {})
  }

  lemma {:induction false} ExposedAppend(files: map<Path, array<byte>>, env: Env, a: seq<Path>, b: seq<Path>)
    ensures Exposed(files, env, a + b) == Exposed(files, env, a) + Exposed(files, env, b)
    decreases |b|
  {
    if b == [] {
      assert a + b == a;
    } else {
      assert (a + b)[..|a + b| - 1] == a + b[..|b| - 1];
      ExposedAppend(files, env, a, b[..|b| - 1]);
    }
  }

  lemma ExposedSnoc(files: map<Path, array<byte>>, env: Env, paths: seq<Path>, p: Path)
    ensures Exposed(files, env, paths + [p]) ==
      Exposed(files, env, paths) + (if p in files && !Skipped(env, p) then {files[p]} else {})
  {
    assert (paths + [p])[..|paths|] == paths;
  }

  /** A buffer that no listed path the lock gate lets through names is not
      exposed. */
  lemma {:induction false} NotExposed(files: map<Path, array<byte>>, env: Env, paths: seq<Path>, x: array<byte>)
    requires forall p :: p in paths && p in files && !Skipped(env, p) ==> files[p] != x
    ensures x !in Exposed(files, env, paths)
    decreases |paths|
  {
    if paths != [] {
      var init := paths[..|paths| - 1];
      assert forall p :: p in init ==> p in paths;
      NotExposed(files, env, init, x);
    }
  }

  /** `q` is a path among `paths` whose buffer the walk reaches through `q`
      alone: `q` names a file and is listed once, the lock gate lets it
      through, and no other listed path that the gate lets through names the
      same buffer. The walk wipes such a buffer exactly once. */
  ghost predicate WipedOnce(files: map<Path, array<byte>>, env: Env, paths: seq<Path>, q: Path)
  {
    q in files && !Skipped(env, q) && multiset(paths)[q] == 1 &&
    forall p :: p in paths && p != q && p in files && !Skipped(env, p) ==> files[p] != files[q]
  }

  /** A path wiped once by the walk over `all`, seen from a stretch `pre +
      part` of that walk in a state `files1` with fewer files: it lies in at
      most one of the two halves, the half that does not list it leaves its
      buffer alone, and the half that lists it wipes it once. */
  lemma WipedOnceSplit(files0: map<Path, array<byte>>, files1: map<Path, array<byte>>, env: Env,
                       all: seq<Path>, pre: seq<Path>, part: seq<Path>, q: Path)
    requires Shrunk(files0, files1)
    requires multiset(pre + part) <= multiset(all)
    requires WipedOnce(files0, env, all, q)
    ensures q in pre ==> q !in part
    ensures q in pre ==> forall p :: p in part && p in files1 && !Skipped(env, p) ==> files1[p] != files0[q]
    ensures q in part ==> q !in pre && files0[q] !in Exposed(files0, env, pre)
    ensures q in part && q in files1 ==> WipedOnce(files1, env, part, q)
  {
    assert multiset(pre + part) == multiset(pre) + multiset(part);
    assert forall p :: p in pre ==> multiset(all)[p] > 0;
    assert forall p :: p in part ==> multiset(all)[p] > 0;
    if q in part {
      NotExposed(files0, env, pre, files0[q]);
    }
  }

  /** Removing files exposes no new buffer. */
  lemma {:induction false} ExposedShrunk(files0: map<Path, array<byte>>, files1: map<Path, array<byte>>, env: Env, paths: seq<Path>)
    requires Shrunk(files0, files1)
    ensures Exposed(files1, env, paths) <= Exposed(files0, env, paths)
    decreases |paths|
  {
    if paths != [] {
      ExposedShrunk(files0, files1, env, paths[..|paths| - 1]);
    }
  }

  /** `after` is `before` with some files removed. */
  ghost predicate Shrunk(before: map<Path, array<byte>>, after: map<Path, array<byte>>)
  {
    after.Keys <= before.Keys && forall q :: q in after ==> after[q] == before[q]
  }

  /** The size of every file in `files`. */
  function SizesOf(files: map<Path, array<byte>>): (sizes: map<Path, nat>)
    ensures sizes.Keys == files.Keys
    ensures forall q :: q in files ==> sizes[q] == files[q].Length
  {
    map q | q in files :: files[q].Length
  }

  /** Removing a file removes its size and nothing else. */
  lemma SizesOfRemove(files: map<Path, array<byte>>, p: Path)
    ensures SizesOf(files - {p}) == SizesOf(files) - {p}
  {
  }

  /** f.write(data) on a file positioned at `off`. */
  method WriteAt(f: array<byte>, off: nat, data: seq<byte>)
    requires off + |data| <= f.Length
    modifies f
    ensures f[..] == old(f[..])[..off] + data + old(f[..])[off + |data|..]
  {
    forall i | off <= i < off + |data| {
      f[i] := data[i - off];
    }
  }

  /** f.write of the chunk at `off`: the pattern (or random) bytes of the
      pass now cover the first `off + n` bytes of the original content. */
  method WriteNext(f: array<byte>, ghost data0: seq<byte>, off: nat, n: nat,
                   pattern: Option<byte>, env: Env, p: Path, pass: nat)
    requires off + n <= |data0| == f.Length
    requires f[..] == Overwrite(data0, off, pattern, env, p, pass)
    modifies f
    ensures f[..] == Overwrite(data0, off + n, pattern, env, p, pass)
  {
    var data := PatternSource(pattern, env, p, pass, off, n);
    OverwriteStep(data0, off, n, pattern, env, p, pass);
    WriteAt(f, off, data);
  }

  /** The chunk loop of `overwrite_file_in_chunks` on the open file `f`
      (opened 'r+b', so positioned at 0): while bytes remain, write the next
      min(CHUNK_SIZE, remaining) of them and flush and fsync the file.
      `lens` records the length of every chunk written, in order; by
      ChunkLensChunks these are the first of the chunks `Chunks` gives, all
      of them when no call raises. */
  method WriteChunks(f: array<byte>, p: Path, pass: nat, pattern: Option<byte>, env: Env)
    returns (err: Option<string>, ghost lens: seq<nat>)
    modifies f
    ensures err == ChunkRun(env, p, pass, 0, f.Length).err
    ensures f[..] == Overwrite(old(f[..]), ChunkRun(env, p, pass, 0, f.Length).written, pattern, env, p, pass)
    ensures lens == ChunkLens(env, p, pass, 0, f.Length)
  {
    var size := f.Length;
    ghost var data0 := f[..];
    var remaining: nat := size;
    var off: nat := 0;
    var c: nat := 0;
    err := None;
    lens := [];
    OverwriteNone(data0, pattern, env, p, pass);
    while remaining > 0
      invariant off + remaining == size
      invariant f[..] == Overwrite(data0, off, pattern, env, p, pass)
      invariant ChunkRun(env, p, pass, 0, size) ==
        PassResult(off + ChunkRun(env, p, pass, c, remaining).written, ChunkRun(env, p, pass, c, remaining).err)
      invariant ChunkLens(env, p, pass, 0, size) == lens + ChunkLens(env, p, pass, c, remaining)
      decreases remaining
    {
      var n := Min(CHUNK_SIZE, remaining);
      ChunkLoopStep(env, p, pass, c, remaining, size, off, lens);
      if env.fault(p, WriteChunk(pass, c)).Some? {
        err := env.fault(p, WriteChunk(pass, c));
        break;
      }
      WriteNext(f, data0, off, n, pattern, env, p, pass);
      lens := lens + [n];
      off := off + n;
      remaining := remaining - n;
      if env.fault(p, SyncChunk(pass, c)).Some? {
        err := env.fault(p, SyncChunk(pass, c));
        break;
      }
      c := c + 1;
    }
    if err.None? {
      LensDone(env, p, pass, c, size, lens);
    }
  }

  /** The files on the volume: each path names a content buffer of fixed
      length (files are opened 'r+b', which never grows or truncates them).
      Two paths may name the same buffer, as hard links do. */
  class Disk {
    var files: map<Path, array<byte>>

    constructor (init: map<Path, array<byte>>)
      ensures files == init
    {
      files := init;
    }

    /** os.path.getsize, or None when the path does not exist. */
    function SizeOf(p: Path): Option<nat>
      reads this
    {
      if p in files then Some(files[p].Length) else None
    }

    /** The size of every existing file. */
    function Sizes(): map<Path, nat>
      reads this
    {
      SizesOf(files)
    }

    /** The buffer an open(p, 'r+b') writes to, if any. */
    function Handle(p: Path): set<array<byte>>
      reads this
    {
      if p in files then {files[p]} else {}
    }

    /** `overwrite_file_in_chunks`: one pass over `p` with the byte `pattern`
        (None: os.urandom). It reads the size, opens the file, runs the
        chunk loop and closes the file; it returns the error text of the
        call that raised, if one did. */
    method OverwriteInChunks(p: Path, pass: nat, pattern: Option<byte>, env: Env)
      returns (err: Option<string>)
      modifies Handle(p)
      ensures err == PassRun(env, p, pass, SizeOf(p)).err
      ensures p in files ==>
        files[p][..] == Overwrite(old(files[p][..]), PassRun(env, p, pass, SizeOf(p)).written, pattern, env, p, pass)
    {
      if p !in files {
        return Some(NotFoundMessage(p));
      }
      if env.fault(p, GetSize(pass)).Some? {
        return env.fault(p, GetSize(pass));
      }
      if env.fault(p, OpenRw(pass)).Some? {
        return env.fault(p, OpenRw(pass));
      }
      ghost var lens;
      err, lens := WriteChunks(files[p], p, pass, pattern, env);
      if err.None? && env.fault(p, CloseFile(pass)).Some? {
        err := env.fault(p, CloseFile(pass));
      }
    }

    /** Pass done + 1 of the algorithm over a file that holds stage done:
        it fails with the pass's error, leaving what a wipe stopped after
        `done` passes leaves, or completes and leaves stage done + 1. */
    method OnePass(p: Path, alg: Algorithm, env: Env, done: nat, ghost size: Option<nat>, ghost data0: seq<byte>)
      returns (failed: Option<string>)
      requires done < PassCount(alg) && size == SizeOf(p) && PassesOk(env, p, size, done)
      requires p in files ==> size == Some(|data0|) && files[p][..] == Stage(alg, env, p, data0, done)
      modifies Handle(p)
      ensures files == old(files)
      ensures failed == PassRun(env, p, done + 1, size).err
      ensures failed.None? ==> PassesOk(env, p, size, done + 1)
      ensures p in files ==> files[p][..] == StopData(alg, env, p, data0, done)
      ensures p in files && failed.None? ==> files[p][..] == Stage(alg, env, p, data0, done + 1)
    {
      failed := OverwriteInChunks(p, done + 1, Pattern(alg, done + 1), env);
      StageStep(alg, env, p, data0, done + 1);
    }

    /** The pass loop shared by `wipe_file_dod`, `wipe_file_random` and
        `wipe_file_gutmann`: run the algorithm's passes in order, logging
        each, and stop at the first pass that raises. Passes 1..j succeed;
        pass j + 1, if there is one, fails with `failed`, having written
        its prefix over the j-th pass's bytes. */
    method RunPasses(p: Path, alg: Algorithm, env: Env, ghost size: Option<nat>, ghost data0: seq<byte>)
      returns (log: seq<Entry>, failed: Option<string>, ghost j: nat)
      requires size == SizeOf(p) && (p in files ==> data0 == files[p][..])
      modifies Handle(p)
      ensures j <= PassCount(alg) && PassesOk(env, p, size, j)
      ensures j < PassCount(alg) ==> failed == PassRun(env, p, j + 1, size).err && failed.Some?
      ensures j == PassCount(alg) ==> failed.None?
      ensures log == PassEntries(alg, env, p, 1, j)
      ensures p in files ==> files[p][..] == StopData(alg, env, p, data0, j)
    {
      log := [];
      failed := None;
      var done := 0;
      while done < PassCount(alg)
        invariant done <= PassCount(alg)
        invariant failed.None? && SizeOf(p) == size
        invariant PassesOk(env, p, size, done)
        invariant log == PassEntries(alg, env, p, 1, done)
        invariant p in files ==> files[p][..] == Stage(alg, env, p, data0, done)
      {
        failed := OnePass(p, alg, env, done, size, data0);
        if failed.Some? {
          break;
        }
        PassEntriesSnoc(alg, env, p, 1, done);
        log := log + [PassEntry(alg, env, p, done + 1)];
        done := done + 1;
      }
      StopDataLast(alg, env, p, data0);
      j := done;
    }

    /** The end of a wipe: the "Error" entry of the pass that raised, or,
        when every pass completed, os.remove and the entry it yields. */
    method Close(p: Path, env: Env, failed: Option<string>) returns (close: Entry)
      modifies this
      ensures close == if failed.Some? then Entry(p, Error, failed.value) else RemoveEntry(env, p)
      ensures files == if close.event == Deleted then old(files) - {p} else old(files)
    {
      if failed.Some? {
        return Entry(p, Error, failed.value);
      }
      match env.fault(p, Unlink)
      case Some(msg) =>
        close := Entry(p, Error, msg);
      case None =>
        files := files - {p};
        close := Entry(p, Deleted, env.now(p));
    }

    /** `wipe_file_dod`, `wipe_file_random` and `wipe_file_gutmann`: run the
        passes, then remove the file; the first call that raises ends the
        wipe with an "Error" entry. */
    method WipeFile(p: Path, alg: Algorithm, env: Env) returns (log: seq<Entry>)
      modifies this, Handle(p)
      ensures log == WipeLog(alg, env, p, old(SizeOf(p)))
      ensures files == if EndsDeleted(log) then old(files) - {p} else old(files)
      ensures p in old(files) ==> old(files)[p][..] == WipeData(alg, env, p, old(files[p][..]))
    {
      ghost var size := SizeOf(p);
      ghost var data0 := if p in files then files[p][..] else [];
      var failed;
      ghost var j;
      log, failed, j := RunPasses(p, alg, env, size, data0);
      WipeFileOutcome(alg, env, p, size, data0, j);
      var close := Close(p, env, failed);
      log := log + [close];
    }

    /** The loop body of `wipe_path` for one file: the lock gate, then, unless
        some process holds the file open, the wipe. A file held open is left
        exactly as it was; any other file's buffer is left holding what its
        wipe leaves. */
    method Visit(path: Path, alg: Algorithm, env: Env) returns (entries: seq<Entry>)
      modifies this, if Skipped(env, path) then {} else Handle(path)
      ensures entries == StepLog(alg, env, old(Sizes()), path)
      ensures Sizes() == StepSizes(alg, env, old(Sizes()), path)
      ensures files == old(files) || files == old(files) - {path}
      ensures Skipped(env, path) ==> files == old(files)
      ensures !Skipped(env, path) && path in old(files) ==>
        old(files)[path][..] == WipeData(alg, env, path, old(files[path][..]))
    {
      var locked := IsFileLocked(env.processes(path), path);
      if locked {
        entries := [Entry(path, Locked, LOCKED_REASON)];
      } else {
        ghost var files0 := files;
        assert Lookup(Sizes(), path) == SizeOf(path);
        entries := WipeFile(path, alg, env);
        SizesOfRemove(files0, path);
      }
    }

    /** Visit, as one step of a loop over `paths` that has visited `done`,
        starting from the files `files0` with sizes `sizes0`, whose buffers
        held `snap`: every buffer no visited path exposes keeps its content,
        every buffer that a visited path reaches alone holds what its wipe
        leaves, and `path` now counts as visited. */
    method VisitNext(path: Path, alg: Algorithm, env: Env, ghost files0: map<Path, array<byte>>,
                     ghost snap: map<array<byte>, seq<byte>>, ghost sizes0: map<Path, nat>,
                     ghost paths: seq<Path>, ghost done: seq<Path>)
      returns (entries: seq<Entry>)
      requires Shrunk(files0, files) && files0.Values <= snap.Keys && sizes0.Keys == files0.Keys
      requires Sizes() == WalkSizes(alg, env, sizes0, done)
      requires |done| < |paths| && done == paths[..|done|] && path == paths[|done|]
      requires forall a :: a in files0.Values && a !in Exposed(files0, env, done) ==> a[..] == snap[a]
      requires forall q {:trigger WipedOnce(files0, env, paths, q)} :: q in done && WipedOnce(files0, env, paths, q) ==>
        files0[q][..] == WipeData(alg, env, q, snap[files0[q]])
      modifies this, if Skipped(env, path) then {} else Handle(path)
      ensures entries == StepLog(alg, env, old(Sizes()), path)
      ensures Sizes() == StepSizes(alg, env, old(Sizes()), path)
      ensures files == old(files) || files == old(files) - {path}
      ensures forall a :: a in files0.Values && a !in Exposed(files0, env, done + [path]) ==> a[..] == snap[a]
      ensures forall q {:trigger WipedOnce(files0, env, paths, q)} :: q in done + [path] && WipedOnce(files0, env, paths, q) ==>
        files0[q][..] == WipeData(alg, env, q, snap[files0[q]])
    {
      SnocMultiset(paths, done, path);
      ExposedSnoc(files0, env, done, path);
      forall q | q in done && WipedOnce(files0, env, paths, q)
        ensures q != path && (path in files0 && !Skipped(env, path) ==> files0[path] != files0[q])
      {
        WipedOnceSplit(files0, files0, env, paths, done, [path], q);
      }
      if WipedOnce(files0, env, paths, path) {
        WipedOnceSplit(files0, files0, env, paths, done, [path], path);
        WalkKeeps(alg, env, sizes0, done, path);
      }
      entries := Visit(path, alg, env);
    }

    /** The inner loop of `wipe_path`: the files of one directory, in
        listing order. Every buffer it changes is named by one of the
        directory's paths that the lock gate lets through, and a buffer that
        one of them reaches alone ends holding what its wipe leaves. */
    method WipeDir(d: Dir, alg: Algorithm, env: Env) returns (log: seq<Entry>)
      modifies this, files.Values
      ensures log == WalkLog(alg, env, old(Sizes()), DirPaths(d))
      ensures Sizes() == WalkSizes(alg, env, old(Sizes()), DirPaths(d))
      ensures Shrunk(old(files), files)
      ensures forall a :: a in old(files).Values && a !in Exposed(old(files), env, DirPaths(d)) ==> a[..] == old(a[..])
      ensures forall q :: WipedOnce(old(files), env, DirPaths(d), q) ==>
        old(files)[q][..] == WipeData(alg, env, q, old(files[q][..]))
    {
      ghost var sizes0 := Sizes();
      ghost var files0 := files;
      ghost var snap := map a | a in files0.Values :: a[..];
      ghost var paths := DirPaths(d);
      ghost var done: seq<Path> := [];
      log := [];
      for j := 0 to |d.names|
        invariant done == paths[..j]
        invariant log == WalkLog(alg, env, sizes0, done)
        invariant Sizes() == WalkSizes(alg, env, sizes0, done)
        invariant Shrunk(files0, files)
        invariant forall a :: a in files0.Values && a !in Exposed(files0, env, done) ==> a[..] == snap[a]
        invariant forall q {:trigger WipedOnce(files0, env, paths, q)} :: q in done && WipedOnce(files0, env, paths, q) ==>
          files0[q][..] == WipeData(alg, env, q, snap[files0[q]])
      {
        var path := Join(d.root, d.names[j]);
        TakeSnoc(paths, j);
        var entries := VisitNext(path, alg, env, files0, snap, sizes0, paths, done);
        log := log + entries;
        WalkSnoc(alg, env, sizes0, done, path);
        WalkSizesSnoc(alg, env, sizes0, done, path);
        ExposedSnoc(files0, env, done, path);
        done := done + [path];
      }
      assert paths[..|d.names|] == paths;
    }

    /** WipeDir, as one step of the loop over the directories: the walk over
        `all` has visited `done`, starting from the files `files0` with sizes
        `sizes0`, whose buffers held `snap`, and logged `log0`; afterwards it
        has visited the directory's paths as well and extended the log. */
    method WipeDirNext(d: Dir, alg: Algorithm, env: Env, ghost files0: map<Path, array<byte>>,
                       ghost snap: map<array<byte>, seq<byte>>, ghost sizes0: map<Path, nat>,
                       ghost all: seq<Path>, ghost done: seq<Path>, log0: seq<Entry>)
      returns (log: seq<Entry>)
      requires Shrunk(files0, files) && files0.Values <= snap.Keys && sizes0.Keys == files0.Keys
      requires log0 == WalkLog(alg, env, sizes0, done)
      requires Sizes() == WalkSizes(alg, env, sizes0, done)
      requires multiset(done + DirPaths(d)) <= multiset(all)
      requires forall a :: a in files0.Values && a !in Exposed(files0, env, done) ==> a[..] == snap[a]
      requires forall q {:trigger WipedOnce(files0, env, all, q)} :: q in done && WipedOnce(files0, env, all, q) ==>
        files0[q][..] == WipeData(alg, env, q, snap[files0[q]])
      modifies this, files.Values
      ensures log == WalkLog(alg, env, sizes0, done + DirPaths(d))
      ensures Sizes() == WalkSizes(alg, env, sizes0, done + DirPaths(d))
      ensures Shrunk(files0, files)
      ensures forall a :: a in files0.Values && a !in Exposed(files0, env, done + DirPaths(d)) ==> a[..] == snap[a]
      ensures forall q {:trigger WipedOnce(files0, env, all, q)} :: q in done + DirPaths(d) && WipedOnce(files0, env, all, q) ==>
        files0[q][..] == WipeData(alg, env, q, snap[files0[q]])
    {
      ghost var part := DirPaths(d);
      ghost var files1 := files;
      ExposedAppend(files0, env, done, part);
      ExposedShrunk(files0, files1, env, part);
      forall q | q in part && WipedOnce(files0, env, all, q)
        ensures q in files1 && WipedOnce(files1, env, part, q) && files0[q] !in Exposed(files0, env, done)
      {
        WipedOnceSplit(files0, files1, env, all, done, part, q);
        WalkKeeps(alg, env, sizes0, done, q);
      }
      forall q | q in done && WipedOnce(files0, env, all, q)
        ensures files0[q] !in Exposed(files1, env, part)
      {
        WipedOnceSplit(files0, files1, env, all, done, part, q);
        NotExposed(files1, env, part, files0[q]);
      }
      var entries := WipeDir(d, alg, env);
      log := log0 + entries;
      WalkAppend(alg, env, sizes0, done, part);
      WalkSizesAppend(alg, env, sizes0, done, part);
    }

    /** `wipe_path`: visit every file the walk lists, in order; a file some
        process holds open gets a "Locked" entry and is left alone, every
        other file is wiped and its entries appended. Only the buffers that
        a visited path which no process holds open names change, and a
        buffer that one such path reaches alone ends holding what its wipe
        leaves. */
    method WipePath(dirs: seq<Dir>, alg: Algorithm, env: Env) returns (log: seq<Entry>)
      modifies this, files.Values
      ensures log == WalkLog(alg, env, old(Sizes()), Enumerate(dirs))
      ensures Sizes() == WalkSizes(alg, env, old(Sizes()), Enumerate(dirs))
      ensures Shrunk(old(files), files)
      ensures forall a :: a in old(files).Values && a !in Exposed(old(files), env, Enumerate(dirs)) ==> a[..] == old(a[..])
      ensures forall q :: WipedOnce(old(files), env, Enumerate(dirs), q) ==>
        old(files)[q][..] == WipeData(alg, env, q, old(files[q][..]))
    {
      ghost var sizes0 := Sizes();
      ghost var files0 := files;
      ghost var snap := map a | a in files0.Values :: a[..];
      ghost var all := Enumerate(dirs);
      log := [];
      ghost var done: seq<Path> := [];
      for i := 0 to |dirs|
        invariant done == Enumerate(dirs[..i])
        invariant log == WalkLog(alg, env, sizes0, done)
        invariant Sizes() == WalkSizes(alg, env, sizes0, done)
        invariant Shrunk(files0, files)
        invariant forall a :: a in files0.Values && a !in Exposed(files0, env, done) ==> a[..] == snap[a]
        invariant forall q {:trigger WipedOnce(files0, env, all, q)} :: q in done && WipedOnce(files0, env, all, q) ==>
          files0[q][..] == WipeData(alg, env, q, snap[files0[q]])
      {
        EnumerateSnoc(dirs, i);
        log := WipeDirNext(dirs[i], alg, env, files0, snap, sizes0, all, done, log);
        done := done + DirPaths(dirs[i]);
      }
      assert dirs[..|dirs|] == dirs;
    }
  }
}
