/** What one overwrite pass does to a file and to the log, as functions of
    the file's size and the environment. A pass is `overwrite_file_in_chunks`:
    read the size, open the file, then write chunk after chunk from offset 0,
    syncing each one. */
module PassSpec {
  import opened Common
  import opened Io
  import opened Chunking
  import opened PyRepr

  /** The byte a pass writes at offset `i`: the fixed pattern byte, or the
      random source's byte. */
  function PassByte(pattern: Option<byte>, env: Env, p: Path, pass: nat, i: nat): byte
  {
    match pattern
    case Some(b) => b
    case None => env.noise(p, pass, i)
  }

  /** The data of one chunk at offset `off`: `pattern * n`, or os.urandom(n). */
  function PatternSource(pattern: Option<byte>, env: Env, p: Path, pass: nat, off: nat, n: nat): (data: seq<byte>)
    ensures |data| == n
    ensures pattern.Some? ==> forall i :: 0 <= i < n ==> data[i] == pattern.value
    ensures forall i :: 0 <= i < n ==> data[i] == PassByte(pattern, env, p, pass, off + i)
  {
    match pattern
    case Some(b) => seq(n, _ => b)
    case None => seq(n, (i: nat) => env.noise(p, pass, off + i))
  }

  /** Python's FileNotFoundError text for os.path.getsize on a missing path
      (POSIX wording); the path is written as repr() writes it. */
  function NotFoundMessage(p: Path): string
  {
    NOT_FOUND_PREFIX + Repr(p)
  }

  const NOT_FOUND_PREFIX: string := "[Errno 2] No such file or directory: "

  /** The message names the missing file unambiguously: the path reads back
      from what follows the fixed prefix. */
  lemma NotFoundNamesPath(p: Path)
    ensures |NotFoundMessage(p)| > |NOT_FOUND_PREFIX|
    ensures NotFoundMessage(p)[..|NOT_FOUND_PREFIX|] == NOT_FOUND_PREFIX
    ensures Unquote(NotFoundMessage(p)[|NOT_FOUND_PREFIX|..]) == Some(p)
  {
    assert NotFoundMessage(p)[|NOT_FOUND_PREFIX|..] == Repr(p);
    ReprRoundTrip(p);
  }

  /** How far a pass got: the bytes written from offset 0, and the error
      text if a call raised. */
  datatype PassResult = PassResult(written: nat, err: Option<string>)

  /** The chunk loop from chunk `c` on, with `remaining` bytes still to write.
      A failing write leaves its chunk unwritten; a failing sync comes after
      the chunk was written. */
  function ChunkRun(env: Env, p: Path, pass: nat, c: nat, remaining: nat): (r: PassResult)
    ensures r.written <= remaining
    ensures r.err.None? ==> r.written == remaining
    decreases remaining
  {
    if remaining == 0 then PassResult(0, None)
    else
      var n := Min(CHUNK_SIZE, remaining);
      if env.fault(p, WriteChunk(pass, c)).Some? then PassResult(0, env.fault(p, WriteChunk(pass, c)))
      else if env.fault(p, SyncChunk(pass, c)).Some? then PassResult(n, env.fault(p, SyncChunk(pass, c)))
      else
        var rest := ChunkRun(env, p, pass, c + 1, remaining - n);
        PassResult(n + rest.written, rest.err)
  }

  /** The lengths of the chunks the loop writes from chunk `c` on, in
      order: the chunk whose write raises is not written, the chunk whose
      sync raises is. */
  function ChunkLens(env: Env, p: Path, pass: nat, c: nat, remaining: nat): seq<nat>
    decreases remaining
  {
    if remaining == 0 then []
    else
      var n := Min(CHUNK_SIZE, remaining);
      if env.fault(p, WriteChunk(pass, c)).Some? then []
      else if env.fault(p, SyncChunk(pass, c)).Some? then [n]
      else [n] + ChunkLens(env, p, pass, c + 1, remaining - n)
  }

  /** The loop writes the chunks `Chunks` gives, in order, and stops early
      only on an error: what it writes is a prefix of them that adds up to
      the bytes written, and all of them when no call raises. */
  lemma {:induction false} ChunkLensChunks(env: Env, p: Path, pass: nat, c: nat, remaining: nat)
    ensures ChunkLens(env, p, pass, c, remaining) <= Chunks(remaining)
    ensures Sum(ChunkLens(env, p, pass, c, remaining)) == ChunkRun(env, p, pass, c, remaining).written
    ensures ChunkRun(env, p, pass, c, remaining).err.None? ==> ChunkLens(env, p, pass, c, remaining) == Chunks(remaining)
    decreases remaining
  {
    if remaining > 0 {
      var n := Min(CHUNK_SIZE, remaining);
      var lens := ChunkLens(env, p, pass, c, remaining);
      assert Chunks(remaining) == [n] + Chunks(remaining - n);
      if env.fault(p, WriteChunk(pass, c)).None? {
        if env.fault(p, SyncChunk(pass, c)).Some? {
          assert Sum([n]) == n + Sum([]);
        } else {
          ChunkLensChunks(env, p, pass, c + 1, remaining - n);
          assert lens[1..] == ChunkLens(env, p, pass, c + 1, remaining - n);
        }
      }
    }
  }

  /** One turn of the chunk loop, from the state after `off` bytes in the
      chunks `lens`: the result of the whole pass if this turn raises, and
      the state after it otherwise. */
  lemma ChunkLoopStep(env: Env, p: Path, pass: nat, c: nat, remaining: nat, size: nat, off: nat, lens: seq<nat>)
    requires remaining > 0
    requires ChunkRun(env, p, pass, 0, size) ==
      PassResult(off + ChunkRun(env, p, pass, c, remaining).written, ChunkRun(env, p, pass, c, remaining).err)
    requires ChunkLens(env, p, pass, 0, size) == lens + ChunkLens(env, p, pass, c, remaining)
    ensures var n, w, s := Min(CHUNK_SIZE, remaining), env.fault(p, WriteChunk(pass, c)), env.fault(p, SyncChunk(pass, c));
      (w.Some? ==>
        ChunkRun(env, p, pass, 0, size) == PassResult(off, w) && ChunkLens(env, p, pass, 0, size) == lens) &&
      (w.None? && s.Some? ==>
        ChunkRun(env, p, pass, 0, size) == PassResult(off + n, s) && ChunkLens(env, p, pass, 0, size) == lens + [n]) &&
      (w.None? && s.None? ==>
        ChunkRun(env, p, pass, 0, size) ==
          PassResult((off + n) + ChunkRun(env, p, pass, c + 1, remaining - n).written,
                     ChunkRun(env, p, pass, c + 1, remaining - n).err) &&
        ChunkLens(env, p, pass, 0, size) == (lens + [n]) + ChunkLens(env, p, pass, c + 1, remaining - n))
  {
    ChunkStep(env, p, pass, c, remaining);
    assert lens + [] == lens;
  }

  lemma LensDone(env: Env, p: Path, pass: nat, c: nat, size: nat, lens: seq<nat>)
    requires ChunkLens(env, p, pass, 0, size) == lens + ChunkLens(env, p, pass, c, 0)
    ensures ChunkLens(env, p, pass, 0, size) == lens
  {
    assert lens + [] == lens;
  }

  /** One whole pass on `p`, whose length is `size` (None: no such file).
      Leaving the with block closes the file, and that close can raise too
      once the chunk loop has finished. */
  function PassRun(env: Env, p: Path, pass: nat, size: Option<nat>): (r: PassResult)
    ensures size.None? ==> r.written == 0 && r.err == Some(NotFoundMessage(p))
    ensures size.Some? ==> r.written <= size.value
    ensures r.err.None? ==> size.Some? && r.written == size.value
  {
    match size
    case None => PassResult(0, Some(NotFoundMessage(p)))
    case Some(n) =>
      if env.fault(p, GetSize(pass)).Some? then PassResult(0, env.fault(p, GetSize(pass)))
      else if env.fault(p, OpenRw(pass)).Some? then PassResult(0, env.fault(p, OpenRw(pass)))
      else
        var r := ChunkRun(env, p, pass, 0, n);
        if r.err.None? && env.fault(p, CloseFile(pass)).Some? then PassResult(r.written, env.fault(p, CloseFile(pass)))
        else r
  }

  predicate PassOk(env: Env, p: Path, pass: nat, size: Option<nat>)
  {
    PassRun(env, p, pass, size).err.None?
  }

  /** Passes 1..j all succeed. */
  predicate PassesOk(env: Env, p: Path, size: Option<nat>, j: nat)
    decreases j
  {
    j == 0 || (PassesOk(env, p, size, j - 1) && PassOk(env, p, j, size))
  }

  lemma {:induction false} PassesOkAll(env: Env, p: Path, size: Option<nat>, j: nat)
    ensures PassesOk(env, p, size, j) <==> forall i :: 1 <= i <= j ==> PassOk(env, p, i, size)
    decreases j
  {
    if j > 0 {
      PassesOkAll(env, p, size, j - 1);
    }
  }

  /** No call of chunk c' in [c, c + count) raises. */
  predicate ChunksClean(env: Env, p: Path, pass: nat, c: nat, count: nat)
  {
    forall c' :: c <= c' < c + count ==>
      env.fault(p, WriteChunk(pass, c')).None? && env.fault(p, SyncChunk(pass, c')).None?
  }

  /** The content after a pass wrote its first `n` bytes over `data`. */
  function Overwrite(data: seq<byte>, n: nat, pattern: Option<byte>, env: Env, p: Path, pass: nat): seq<byte>
    requires n <= |data|
  {
    seq(|data|, i requires 0 <= i < |data| => if i < n then PassByte(pattern, env, p, pass, i) else data[i])
  }

  /** The content of a file of `size` bytes after a complete pass. */
  function PassImage(size: nat, pattern: Option<byte>, env: Env, p: Path, pass: nat): seq<byte>
  {
    seq(size, i requires 0 <= i < size => PassByte(pattern, env, p, pass, i))
  }

  /** One turn of the chunk loop: a failing write writes nothing, a failing
      sync comes after the whole chunk was written, and otherwise the loop
      goes on with the next chunk. */
  lemma ChunkStep(env: Env, p: Path, pass: nat, c: nat, remaining: nat)
    requires remaining > 0
    ensures var n, r := Min(CHUNK_SIZE, remaining), ChunkRun(env, p, pass, c, remaining);
      var w, s := env.fault(p, WriteChunk(pass, c)), env.fault(p, SyncChunk(pass, c));
      (w.Some? ==> r == PassResult(0, w)) &&
      (w.None? && s.Some? ==> r == PassResult(n, s)) &&
      (w.None? && s.None? ==>
        r == PassResult(n + ChunkRun(env, p, pass, c + 1, remaining - n).written,
                        ChunkRun(env, p, pass, c + 1, remaining - n).err))
  {
  }

  /** Writing the next chunk at offset `off` extends the overwritten prefix
      by that chunk. */
  lemma OverwriteStep(data: seq<byte>, off: nat, n: nat, pattern: Option<byte>, env: Env, p: Path, pass: nat)
    requires off + n <= |data|
    ensures var before := Overwrite(data, off, pattern, env, p, pass);
      before[..off] + PatternSource(pattern, env, p, pass, off, n) + before[off + n..] ==
      Overwrite(data, off + n, pattern, env, p, pass)
  {
    var before := Overwrite(data, off, pattern, env, p, pass);
    var after := before[..off] + PatternSource(pattern, env, p, pass, off, n) + before[off + n..];
    forall i | 0 <= i < |data|
      ensures after[i] == Overwrite(data, off + n, pattern, env, p, pass)[i]
    {
      if i < off {
        assert after[i] == before[i];
      } else if i < off + n {
        assert after[i] == PatternSource(pattern, env, p, pass, off, n)[i - off];
      } else {
        assert after[i] == before[i];
      }
    }
  }

  /** Overwriting nothing leaves the data. */
  lemma OverwriteNone(data: seq<byte>, pattern: Option<byte>, env: Env, p: Path, pass: nat)
    ensures Overwrite(data, 0, pattern, env, p, pass) == data
  {
  }

  /** The chunk loop ends without error exactly when no write or sync of
      its chunks raises. */
  lemma {:induction false} ChunkRunOkIff(env: Env, p: Path, pass: nat, c: nat, remaining: nat)
    ensures ChunkRun(env, p, pass, c, remaining).err.None? <==>
      ChunksClean(env, p, pass, c, |Chunks(remaining)|)
    decreases remaining
  {
    if remaining > 0 {
      var n := Min(CHUNK_SIZE, remaining);
      ChunkRunOkIff(env, p, pass, c + 1, remaining - n);
      assert |Chunks(remaining)| == 1 + |Chunks(remaining - n)|;
    }
  }

  /** A pass succeeds exactly when the file exists and none of its calls
      (getsize, open, every chunk's write and sync, close) raises. */
  lemma PassOkIff(env: Env, p: Path, pass: nat, size: Option<nat>)
    ensures PassOk(env, p, pass, size) <==>
      size.Some? && env.fault(p, GetSize(pass)).None? && env.fault(p, OpenRw(pass)).None? &&
      ChunksClean(env, p, pass, 0, |Chunks(size.value)|) && env.fault(p, CloseFile(pass)).None?
  {
    if size.Some? {
      ChunkRunOkIff(env, p, pass, 0, size.value);
    }
  }

  /** A completed pass covers every offset of the file: a fixed pattern
      leaves every byte equal to it, a random pass leaves the random
      source's bytes; the length never changes. */
  lemma PassCoverage(data: seq<byte>, pattern: Option<byte>, env: Env, p: Path, pass: nat)
    requires PassOk(env, p, pass, Some(|data|))
    ensures var after := Overwrite(data, PassRun(env, p, pass, Some(|data|)).written, pattern, env, p, pass);
      |after| == |data| && after == PassImage(|data|, pattern, env, p, pass) &&
      (pattern.Some? ==> forall i :: 0 <= i < |after| ==> after[i] == pattern.value) &&
      (pattern.None? ==> forall i :: 0 <= i < |after| ==> after[i] == env.noise(p, pass, i))
  {
  }
}
