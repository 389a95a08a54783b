/** The world outside the wipe engine, given as values: which filesystem
    call raises, what the random source yields, the digest function, the
    clock and the process table. */
module Io {
  import opened Common
  import opened LockGate

  /** The filesystem calls of one wipe, each of which may raise. Passes are
      numbered from 1 and chunks within a pass from 0. */
  datatype Step =
    | GetSize(pass: nat)               // os.path.getsize at the start of a pass
    | OpenRw(pass: nat)                // open(path, 'r+b')
    | WriteChunk(pass: nat, chunk: nat)  // f.write of one chunk
    | SyncChunk(pass: nat, chunk: nat)   // f.flush and os.fsync after that chunk
    | CloseFile(pass: nat)             // f.close() on leaving the with block
    | Unlink                           // os.remove after the last pass

  /** The oracles are keyed by path, pass and call, not by time: a path
      listed twice would meet the same faults and bytes both times, which
      never happens as os.walk lists each file once. */
  datatype Env = Env(
    /** `Some(text)` when that call on that path raises with message `text`. */
    fault: (Path, Step) -> Option<string>,
    /** os.urandom: the byte a random pass writes at an offset of a file. */
    noise: (Path, nat, nat) -> byte,
    /** The byte os.urandom(1) yields when a random pass is digested. */
    salt: (Path, nat) -> byte,
    /** hashlib.sha256(...).hexdigest(), treated as an opaque function. */
    sha256: seq<byte> -> string,
    /** datetime.now().isoformat() when a file's deletion is logged. */
    now: Path -> string,
    /** The process table as observed when the lock of a path is checked. */
    processes: Path -> seq<Proc>)
}
