/** How one pass splits a file into bounded chunks. */
module Chunking {

  /** 64 MiB: the largest chunk written (and held in memory) at once. */
  const CHUNK_SIZE: nat := 64 * 1024 * 1024

  function Min(a: nat, b: nat): nat
  {
    if a <= b then a else b
  }

  function Sum(s: seq<nat>): nat
  {
    if s == [] then 0 else s[0] + Sum(s[1..])
  }

  /** The lengths of the chunks a pass writes, in order, when `size` bytes
      remain: each step takes min(CHUNK_SIZE, remaining). */
  function Chunks(size: nat): seq<nat>
    decreases size
  {
    if size == 0 then []
    else
      var n := Min(CHUNK_SIZE, size);
      [n] + Chunks(size - n)
  }

  /** Every chunk is non-empty and at most CHUNK_SIZE long; all but the last
      are full. */
  lemma {:induction false} ChunksBounded(size: nat)
    ensures forall i :: 0 <= i < |Chunks(size)| ==> 1 <= Chunks(size)[i] <= CHUNK_SIZE
    ensures forall i :: 0 <= i < |Chunks(size)| - 1 ==> Chunks(size)[i] == CHUNK_SIZE
    decreases size
  {
    if size > 0 {
      var n := Min(CHUNK_SIZE, size);
      ChunksBounded(size - n);
      assert Chunks(size) == [n] + Chunks(size - n);
      if n < CHUNK_SIZE {
        assert Chunks(size - n) == [];
      }
    }
  }

  /** The chunks cover the file exactly: their lengths add up to its size. */
  lemma {:induction false} ChunksSum(size: nat)
    ensures Sum(Chunks(size)) == size
    decreases size
  {
    if size > 0 {
      var n := Min(CHUNK_SIZE, size);
      ChunksSum(size - n);
      assert Chunks(size)[1..] == Chunks(size - n);
    }
  }

  /** The loop runs ceil(size / CHUNK_SIZE) times; an empty file gets no
      write at all. */
  lemma {:induction false} ChunksCount(size: nat)
    ensures |Chunks(size)| == (size + CHUNK_SIZE - 1) / CHUNK_SIZE
    ensures size == 0 <==> Chunks(size) == []
    decreases size
  {
    if size > 0 {
      var n := Min(CHUNK_SIZE, size);
      ChunksCount(size - n);
      if size > CHUNK_SIZE {
        assert (size - CHUNK_SIZE + CHUNK_SIZE - 1) / CHUNK_SIZE + 1 == (size + CHUNK_SIZE - 1) / CHUNK_SIZE;
      }
    }
  }
}
