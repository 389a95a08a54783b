/** `wipe_path`: walk a directory tree and wipe every regular file in it,
    skipping (and logging) the files some process holds open. */
module Walk {
  import opened Common
  import opened LockGate
  import opened Io
  import opened Algorithms

  /** One tuple `(root, _, files)` that os.walk yields: a directory and the
      names of the regular files directly in it. Sub-directory names are not
      needed, as os.walk itself descends into them and yields them later. */
  datatype Dir = Dir(root: Path, names: seq<string>)

  /** The detail of a "Locked" entry. */
  const LOCKED_REASON: string := "File is currently open or in use."

  /** os.path.join(root, name) with POSIX rules: an absolute name replaces
      the root; otherwise one "/" separates them unless the root is empty or
      already ends in one (so join("a", "") is "a/"). */
  function Join(root: Path, name: string): (p: Path)
    ensures |p| >= |name| && p[|p| - |name|..] == name
    ensures |name| > 0 && name[0] == '/' ==> p == name
    ensures (|name| == 0 || name[0] != '/') ==> |p| >= |root| && p[..|root|] == root
    ensures (|name| == 0 || name[0] != '/') ==>
      |p| == |root| + |name| + (if root == [] || root[|root| - 1] == '/' then 0 else 1)
    ensures (|name| == 0 || name[0] != '/') && root != [] && root[|root| - 1] != '/' ==> p[|root|] == '/'
  {
    if |name| > 0 && name[0] == '/' then name
    else if root == [] || root[|root| - 1] == '/' then root + name
    else root + "/" + name
  }

  /** The paths of one directory's files, in listing order. */
  function DirPaths(d: Dir): (r: seq<Path>)
    ensures |r| == |d.names|
    ensures forall i :: 0 <= i < |r| ==> r[i] == Join(d.root, d.names[i])
  {
    seq(|d.names|, i requires 0 <= i < |d.names| => Join(d.root, d.names[i]))
  }

  /** A directory lists each name once, and none of them is absolute (a
      name os.walk lists never holds a "/"); then the walk lists each of
      its paths once: the join keeps the root and appends the name, so
      equal paths have equal names. */
  lemma DirPathsOnce(d: Dir)
    requires forall i, j :: 0 <= i < j < |d.names| ==> d.names[i] != d.names[j]
    requires forall k :: 0 <= k < |d.names| ==> |d.names[k]| == 0 || d.names[k][0] != '/'
    ensures forall q :: q in DirPaths(d) ==> multiset(DirPaths(d))[q] == 1
  {
    DistinctOnce(DirPaths(d));
  }

  /** Every file path the walk visits, in visiting order. */
  function Enumerate(dirs: seq<Dir>): (r: seq<Path>)
  {
    if dirs == [] then [] else Enumerate(dirs[..|dirs| - 1]) + DirPaths(dirs[|dirs| - 1])
  }

  /** The walk over the first `i + 1` directories is the walk over the first
      `i` followed by directory `i`, and lists a part of the whole walk. */
  lemma EnumerateSnoc(dirs: seq<Dir>, i: nat)
    requires i < |dirs|
    ensures Enumerate(dirs[..i + 1]) == Enumerate(dirs[..i]) + DirPaths(dirs[i])
    ensures multiset(Enumerate(dirs[..i]) + DirPaths(dirs[i])) <= multiset(Enumerate(dirs))
  {
    assert dirs[..i + 1][..i] == dirs[..i];
    EnumeratePrefix(dirs, i + 1);
  }

  /** The walk over the first `k` directories lists a part of what the
      whole walk lists. */
  lemma {:induction false} EnumeratePrefix(dirs: seq<Dir>, k: nat)
    requires k <= |dirs|
    ensures multiset(Enumerate(dirs[..k])) <= multiset(Enumerate(dirs))
    decreases |dirs|
  {
    if k == |dirs| {
      assert dirs[..k] == dirs;
    } else {
      var init := dirs[..|dirs| - 1];
      EnumeratePrefix(init, k);
      assert init[..k] == dirs[..k];
    }
  }

  function Lookup(sizes: map<Path, nat>, p: Path): Option<nat>
  {
    if p in sizes then Some(sizes[p]) else None
  }

  /** The file sizes after a wipe of `p` that produced `log`: a removed file
      is gone, every other file keeps its size. */
  function After(sizes: map<Path, nat>, p: Path, log: seq<Entry>): map<Path, nat>
  {
    if EndsDeleted(log) then sizes - {p} else sizes
  }

  /** Whether the lock gate skips `p`. */
  ghost predicate Skipped(env: Env, p: Path)
  {
    HeldOpen(env.processes(p), p)
  }

  /** The entries one visited path contributes to the log. */
  ghost function StepLog(alg: Algorithm, env: Env, sizes: map<Path, nat>, p: Path): seq<Entry>
  {
    if Skipped(env, p) then [Entry(p, Locked, LOCKED_REASON)]
    else WipeLog(alg, env, p, Lookup(sizes, p))
  }

  /** The file sizes after one visited path. */
  ghost function StepSizes(alg: Algorithm, env: Env, sizes: map<Path, nat>, p: Path): map<Path, nat>
  {
    if Skipped(env, p) then sizes
    else After(sizes, p, WipeLog(alg, env, p, Lookup(sizes, p)))
  }

  /** The log of a walk over `paths`, starting from the file sizes `sizes`
      (a path that is not a key does not exist). */
  ghost function WalkLog(alg: Algorithm, env: Env, sizes: map<Path, nat>, paths: seq<Path>): seq<Entry>
  {
    if paths == [] then []
    else StepLog(alg, env, sizes, paths[0]) + WalkLog(alg, env, StepSizes(alg, env, sizes, paths[0]), paths[1..])
  }

  /** The file sizes after a walk over `paths`. */
  ghost function WalkSizes(alg: Algorithm, env: Env, sizes: map<Path, nat>, paths: seq<Path>): map<Path, nat>
  {
    if paths == [] then sizes
    else WalkSizes(alg, env, StepSizes(alg, env, sizes, paths[0]), paths[1..])
  }

  /** Appending a path to the walk appends its entries to the log. */
  lemma {:induction false} WalkSnoc(alg: Algorithm, env: Env, sizes: map<Path, nat>, paths: seq<Path>, p: Path)
    ensures WalkLog(alg, env, sizes, paths + [p]) ==
      WalkLog(alg, env, sizes, paths) + StepLog(alg, env, WalkSizes(alg, env, sizes, paths), p)
    decreases |paths|
  {
    if paths == [] {
      assert [p][1..] == [];
    } else {
      var s1 := StepSizes(alg, env, sizes, paths[0]);
      assert (paths + [p])[1..] == paths[1..] + [p];
      WalkSnoc(alg, env, s1, paths[1..], p);
    }
  }

  /** ... and takes the sizes one step further. */
  lemma {:induction false} WalkSizesSnoc(alg: Algorithm, env: Env, sizes: map<Path, nat>, paths: seq<Path>, p: Path)
    ensures WalkSizes(alg, env, sizes, paths + [p]) ==
      StepSizes(alg, env, WalkSizes(alg, env, sizes, paths), p)
    decreases |paths|
  {
    if paths == [] {
      assert [p][1..] == [];
    } else {
      var s1 := StepSizes(alg, env, sizes, paths[0]);
      assert (paths + [p])[1..] == paths[1..] + [p];
      WalkSizesSnoc(alg, env, s1, paths[1..], p);
    }
  }

  /** A walk over `a + b` logs the walk over `a`, then the walk over `b`
      from the sizes `a` left. */
  lemma {:induction false} WalkAppend(alg: Algorithm, env: Env, sizes: map<Path, nat>, a: seq<Path>, b: seq<Path>)
    ensures WalkLog(alg, env, sizes, a + b) ==
      WalkLog(alg, env, sizes, a) + WalkLog(alg, env, WalkSizes(alg, env, sizes, a), b)
    decreases |a|
  {
    if a == [] {
      assert a + b == b;
    } else {
      var s1 := StepSizes(alg, env, sizes, a[0]);
      assert (a + b)[1..] == a[1..] + b;
      WalkAppend(alg, env, s1, a[1..], b);
    }
  }

  /** ... and leaves the sizes the walk over `b` leaves from there. */
  lemma {:induction false} WalkSizesAppend(alg: Algorithm, env: Env, sizes: map<Path, nat>, a: seq<Path>, b: seq<Path>)
    ensures WalkSizes(alg, env, sizes, a + b) == WalkSizes(alg, env, WalkSizes(alg, env, sizes, a), b)
    decreases |a|
  {
    if a == [] {
      assert a + b == b;
    } else {
      var s1 := StepSizes(alg, env, sizes, a[0]);
      assert (a + b)[1..] == a[1..] + b;
      WalkSizesAppend(alg, env, s1, a[1..], b);
    }
  }

  /** One step closes the record of exactly its path. */
  lemma StepTerminal(alg: Algorithm, env: Env, sizes: map<Path, nat>, p: Path)
    ensures TerminalPaths(StepLog(alg, env, sizes, p)) == [p]
    ensures forall e :: e in StepLog(alg, env, sizes, p) ==> e.path == p
  {
    if Skipped(env, p) {
      assert StepLog(alg, env, sizes, p)[1..] == [];
    } else {
      WipeLogPaths(alg, env, p, Lookup(sizes, p));
    }
  }

  /** Every visited path is closed exactly once, in visiting order: its
      last entry is "Deleted", "Error" or "Locked", and no other entry
      closes anything. */
  lemma {:induction false} WalkTerminalPaths(alg: Algorithm, env: Env, sizes: map<Path, nat>, paths: seq<Path>)
    ensures TerminalPaths(WalkLog(alg, env, sizes, paths)) == paths
    decreases |paths|
  {
    if paths != [] {
      var s1 := StepSizes(alg, env, sizes, paths[0]);
      StepTerminal(alg, env, sizes, paths[0]);
      WalkTerminalPaths(alg, env, s1, paths[1..]);
      TerminalPathsAppend(StepLog(alg, env, sizes, paths[0]), WalkLog(alg, env, s1, paths[1..]));
    }
  }

  /** Every entry is about a visited path. */
  lemma {:induction false} WalkPathsVisited(alg: Algorithm, env: Env, sizes: map<Path, nat>, paths: seq<Path>)
    ensures forall e :: e in WalkLog(alg, env, sizes, paths) ==> e.path in paths
    decreases |paths|
  {
    if paths != [] {
      var s1 := StepSizes(alg, env, sizes, paths[0]);
      StepTerminal(alg, env, sizes, paths[0]);
      WalkPathsVisited(alg, env, s1, paths[1..]);
      assert forall q :: q in paths[1..] ==> q in paths;
    }
  }

  /** The log is empty exactly when there was nothing to visit (an empty
      tree, or a target that is not a directory). */
  lemma WalkEmptyIff(alg: Algorithm, env: Env, sizes: map<Path, nat>, paths: seq<Path>)
    ensures WalkLog(alg, env, sizes, paths) == [] <==> paths == []
  {
    WalkTerminalPaths(alg, env, sizes, paths);
  }

  /** A skipped file gets one "Locked" entry with the fixed reason, and the
      file sizes stay as they were, so it is not removed. (That its bytes
      stay as well is the frame of Volume.Disk.Visit.) */
  lemma SkippedStep(alg: Algorithm, env: Env, sizes: map<Path, nat>, p: Path)
    requires Skipped(env, p)
    ensures StepLog(alg, env, sizes, p) == [Entry(p, Locked, LOCKED_REASON)]
    ensures StepSizes(alg, env, sizes, p) == sizes
  {
  }

  /** A file that the walk does not visit is still there afterwards. */
  lemma {:induction false} WalkKeeps(alg: Algorithm, env: Env, sizes: map<Path, nat>, paths: seq<Path>, q: Path)
    requires q in sizes && q !in paths
    ensures q in WalkSizes(alg, env, sizes, paths)
    decreases |paths|
  {
    if paths != [] {
      assert q != paths[0] && q !in paths[1..];
      WalkKeeps(alg, env, StepSizes(alg, env, sizes, paths[0]), paths[1..], q);
    }
  }

  /** The walk only removes files: it never creates one or changes a size,
      and a file that is not visited stays. */
  lemma {:induction false} WalkShrinks(alg: Algorithm, env: Env, sizes: map<Path, nat>, paths: seq<Path>)
    ensures var after := WalkSizes(alg, env, sizes, paths);
      after.Keys <= sizes.Keys &&
      (forall q :: q in after ==> after[q] == sizes[q]) &&
      (forall q :: q in sizes && q !in paths ==> q in after)
    decreases |paths|
  {
    if paths != [] {
      var s1 := StepSizes(alg, env, sizes, paths[0]);
      WalkShrinks(alg, env, s1, paths[1..]);
    }
  }
}
