# Secure file wipe engine, modelled in Dafny

This project models the wipe engine of `f.py`, a command-line tool that
destroys files by overwriting their bytes in place several times and then
removing them, and that keeps a log of every step for an erasure
certificate. The engine has four parts, and each is modelled in the form
the source gives it:

- **Chunked overwrite** (`overwrite_file_in_chunks`). The file is a byte
  array of fixed length on a `Volume.Disk` (a class whose `files` map
  names each path's buffer). One pass reads the size, opens the file,
  writes chunks of `min(CHUNK_SIZE, remaining)` bytes from offset 0. Each
  chunk is either a repeated pattern byte or random bytes, and each is
  followed by a flush and fsync; leaving the `with` block closes the
  file. The chunk loop is an imperative loop over
  the array (`Volume.WriteChunks`), proved against the functional
  description `PassSpec.ChunkRun` / `PassSpec.Overwrite`.
- **Wipe algorithms** (`wipe_file_dod`, `wipe_file_random`,
  `wipe_file_gutmann`). These are one procedure over three pass lists:
  - DoD runs 0x00, 0xFF, random;
  - Random runs one random pass;
  - Gutmann runs 35 random passes.

  Each pass is logged. After the last pass the file is removed and
  "Deleted" is logged. The first call that raises ends the wipe with a
  single "Error" entry, and nothing is rolled back. `Volume.Disk.WipeFile`
  is the imperative procedure. `Algorithms.WipeLog` and
  `Algorithms.WipeData` state what it must produce: the log, and the bytes
  left in the file.
- **Lock gate** (`is_file_locked`). A nested linear search over the
  process table with an early exit. A process whose open-file list cannot
  be read is skipped, which makes the gate fail open.
- **Tree driver** (`wipe_path`). For every file the walk lists, in order,
  it either logs one "Locked" entry or appends the file's whole wipe log.
  `Walk.WalkLog` states the expected log. `Volume.Disk.WipePath` is the
  nested loop, proved against it.

The outside world is a value of type `Io.Env`:
- which filesystem call raises, and with which text (a fault oracle keyed
  by path and call);
- the bytes `os.urandom` yields;
- the SHA-256 hex digest function;
- the clock;
- the process table.

The directory walk is given as the sequence of `(root, files)` pairs that
`os.walk` yields.

Three design points of the engine, as the code has them:
- The lock gate fails open. A process whose open-file list cannot be read
  counts as not holding the file. A stricter gate would report "unknown".
- A missing walk root is not an error. `os.walk` yields nothing for it, so
  the log is empty.
- The digest in a pass entry is that of the pattern byte, or of one fresh
  random byte. It is not a digest of what was written.

## Model

| member | source | states |
|---|---|---|
| Chunking.ChunksBounded | f.py:106-113 | every chunk a pass writes is 1..CHUNK_SIZE bytes long, and all but the last are full |
| Chunking.ChunksSum | f.py:106-113 | the chunk lengths add up to the file size, so the loop covers the file exactly |
| Chunking.ChunksCount | f.py:30 | the loop writes ceil(size / CHUNK_SIZE) chunks of at most 64 MiB, and an empty file gets no write at all |
| LockGate.IsFileLocked | f.py:90-100 | returns true exactly when some inspectable process lists an open file whose path equals the target exactly; inaccessible processes are skipped |
| LockGate.FailOpen | f.py:92-99 | hiding one process's open-file list (inspection raised) can only turn "locked" into "not locked", and only when that process held the path |
| PassSpec.ChunkRun | f.py:106-113 | the chunk loop never writes more than remains, and it writes everything when no call raises |
| PyRepr.ReprRoundTrip | f.py:126 | the file name inside an error text is repr() of the path, and the path reads back from it exactly |
| PyRepr.ReprPlain | f.py:126 | a name with no apostrophe, backslash or control character is written as-is between single quotes |
| PyRepr.ReprApostrophe | f.py:126 | a name holding an apostrophe and no double quote is written between double quotes, its apostrophe unescaped |
| PassSpec.NotFoundNamesPath | f.py:104 | a pass over a missing file fails with "[Errno 2] No such file or directory: " followed by repr() of the path, which names that path |
| PassSpec.PassRun | f.py:104-113 | a missing file fails before any write with the FileNotFoundError text; a pass writes at most the file's size, and exactly the size when it succeeds (a close that raises after the loop fails the pass with every byte written) |
| PassSpec.ChunkLensChunks | f.py:106-113 | the chunks the loop writes are, in order, the first of the chunks Chunking.Chunks gives for the file size; their lengths add up to the bytes written, and they are all of them when no call raises |
| PassSpec.OverwriteStep | f.py:110 | writing the next chunk at the current offset extends the overwritten prefix by exactly that chunk |
| PassSpec.ChunkRunOkIff | f.py:107-113 | the chunk loop succeeds exactly when no write or sync of any of its chunks raises |
| PassSpec.PassOkIff | f.py:102-113 | a pass succeeds exactly when the file exists and none of getsize, open, the chunks' writes and syncs, and the close on leaving the `with` block raises |
| PassSpec.PassCoverage | f.py:104-113 | after a successful pass every byte in [0, size) equals the pattern byte (or the random source's byte at that offset), and the length is unchanged |
| Volume.WriteAt | f.py:110 | a write at the current offset replaces exactly those bytes and leaves the rest of the file alone |
| Volume.WriteChunks | f.py:106-113 | the chunk loop on the open file returns the error of the call that raised, leaves the file as PassSpec.Overwrite gives it (the written prefix overwritten, the rest untouched), and records the lengths of the chunks it wrote, which PassSpec.ChunkLensChunks relates to Chunking.Chunks |
| Volume.Disk.OverwriteInChunks | f.py:102-113 | one pass over a path returns the error the pass ends with and leaves that path's buffer overwritten for as many bytes as the pass wrote |
| Algorithms.PassEvent | f.py:122 | a pass entry never closes a file's record |
| Algorithms.PassLabels | f.py:122 | for every pass number n, pass entries render as "Pass n", "Random Pass" and "Gutmann Pass n", with n written in decimal with no leading zero |
| Common.NatToStringDecimal | f.py:122 | the pass number in a label is its decimal numeral: its digits denote n, and it starts with "0" only for n = 0 |
| Algorithms.PassLabelNotTerminal | f.py:122-126 | a pass label never reads as "Deleted", "Error" or "Locked" |
| Algorithms.StageStep | f.py:120-121 | pass k over the content of the previous stage leaves stage k when it completes, and otherwise what a wipe stopped after k - 1 passes leaves |
| Algorithms.WipeLogShape | f.py:116-127 | every wipe log is one entry per completed pass, in pass order, then exactly one closing entry: the failing pass's error, or the outcome of the removal |
| Algorithms.WipeLogAt | f.py:119-127 | when passes 1..j succeed and pass j + 1 (if any) fails, the log is those j pass entries and its closing entry |
| Algorithms.CompletedIs | f.py:120-121 | the number of completed passes is j exactly when passes 1..j succeed and the next one fails |
| Algorithms.WipeDataStop | f.py:119-127 | such a wipe leaves the file's bytes as stage j, overlaid by the prefix that the failing pass wrote, with no rollback |
| Algorithms.WipeFileOutcome | f.py:116-127 | the log and the content a wipe leaves, given the number of passes that completed |
| Algorithms.WipeLogPaths | f.py:122-126 | every entry of a wipe log names the wiped file; only the last entry closes the record, so the log closes that file exactly once |
| Algorithms.WipeOutcome | f.py:119-127 | the log ends in "Deleted" exactly when every pass and the removal succeeded, and in "Error" exactly when it does not end in "Deleted" |
| Algorithms.WipeFailsAt | f.py:119-127 | failure at pass k (or at the removal) gives the entries of the passes already completed, then exactly one "Error" with the failure text, and no "Deleted" |
| Algorithms.WipeDeletes | f.py:123-124 | when every pass and the removal succeed, the log is every pass entry, then "Deleted" with the timestamp |
| Algorithms.WipeCompletes | f.py:118-124 | a wipe in which no call raises logs every pass, then "Deleted" |
| Algorithms.DodLog | f.py:116-127 | a successful DoD wipe logs exactly "Pass 1", "Pass 2", "Pass 3", "Deleted", with the digests of 0x00, 0xFF and a random byte |
| Algorithms.DodStages | f.py:120-121 | DoD applies 0x00, then 0xFF, then random bytes: the stages after passes 1, 2 and 3 |
| Algorithms.DodFinalContent | f.py:120-122 | after three completed DoD passes every byte is the random pass's byte, and the length is unchanged |
| Algorithms.RandomLog | f.py:129-139 | a successful random wipe logs exactly "Random Pass", then "Deleted" |
| Algorithms.GutmannLog | f.py:141-152 | a successful Gutmann wipe logs 35 entries "Gutmann Pass 1" .. "Gutmann Pass 35" in increasing order, then one "Deleted" |
| Algorithms.WipeKeepsLength | f.py:105 | whatever happens, the wipe never changes the file's length (it is opened 'r+b') |
| Volume.Disk.OnePass | f.py:120-121 | one pass of the algorithm over a file holding the previous stage: the pass's error, and the content Algorithms.StopData and Algorithms.Stage give after it |
| Volume.Disk.RunPasses | f.py:119-122 | the pass loop completes passes 1..j, logs each of them in order, stops at the first pass that raises, and leaves stage j overlaid by the failing pass's prefix |
| Volume.Disk.Close | f.py:123-126 | the closing step: the pass's "Error" entry, or os.remove with its "Deleted" or "Error" entry; the path leaves the volume only on "Deleted" |
| Volume.Disk.WipeFile | f.py:116-152 | a wipe returns exactly the log Algorithms.WipeLog gives, removes the file exactly when the log ends in "Deleted", and leaves in the file's buffer the bytes Algorithms.WipeData gives |
| Walk.Join | f.py:178 | os.path.join: an absolute name replaces the root; otherwise the result is the root, then exactly one "/" unless the root is empty or already ends in one, then the name, and nothing else (join("a", "") is "a/") |
| Walk.DirPathsOnce | f.py:177-178 | a directory whose listed names are distinct and not absolute gives each of its file paths once, so a wipe reaches each of its files once |
| Walk.StepTerminal | f.py:179-182 | one visited file's entries all name that file, and they close its record exactly once |
| Walk.WalkAppend | f.py:175-182 | the log of a walk over two runs of paths is the first run's log followed by the second's, so per-file logs are concatenated unchanged |
| Walk.WalkTerminalPaths | f.py:176-182 | every listed file is closed exactly once, in traversal order, so no file's failure stops the walk |
| Walk.WalkPathsVisited | f.py:180-182 | every entry names a visited file |
| Walk.WalkEmptyIff | f.py:175-183 | the log is empty exactly when the walk lists no file |
| Walk.SkippedStep | f.py:179-181 | a locked file gets exactly one "Locked" entry with the fixed reason, and the walk's file sizes stay as they were, so it is not removed (its bytes are covered by Volume.Disk.Visit) |
| Walk.WalkShrinks | f.py:176-182 | the walk never creates a file or changes a file's size, and a file it does not list stays |
| Volume.Disk.Visit | f.py:178-182 | one file of the walk: the lock gate, then the wipe unless the file is held open, with the entries and file sizes Walk.StepLog and Walk.StepSizes give; a file held open is outside what it may modify and keeps its path, and any other file's buffer ends holding exactly the bytes its wipe leaves |
| Volume.Disk.WipeDir | f.py:177-182 | the inner loop over one directory's files: the walk's log and sizes for its paths; a buffer changes only if one of those paths names it and the lock gate lets that path through; a path listed once, let through, and naming a buffer no other such path names, leaves in it exactly the bytes Algorithms.WipeData gives |
| Volume.Disk.WipePath | f.py:173-183 | `wipe_path` returns exactly the walk's log over every listed file in order and only removes files; a buffer named only by locked or unlisted paths is untouched, and a file listed once, not held open, and sharing its buffer with no other wiped path ends holding exactly the bytes Algorithms.WipeData gives |

## Left out

- Password handling, sensitive-content scanning, file dialogs, drive
  listing, certificate writing and the menus (f.py:38-88, 154-171,
  185-327). These are not part of this model.
- `os.urandom`, SHA-256, `datetime.now()` and the process table are
  parameters in `Io.Env`. Their values are arbitrary. A digest is never
  claimed to cover the written content.
- Flush and fsync durability are not modelled. A sync is only a call that
  may raise after its chunk was written.
- A write that raises is modelled as writing none of its chunk. A real
  system call may write part of a chunk before failing.
- `os.walk` is given as a snapshot sequence of `(root, files)` pairs. Its
  traversal order, its silent skipping of unreadable directories,
  symbolic links, and files created or removed by others during the walk
  are not modelled.
- `os.path.join` follows POSIX rules only. Windows drive letters and
  backslash separators are not modelled.
- Only the calls named by `Io.Step` raise in the model, and each of their
  exceptions becomes the fault text that the wipe's handler logs.
  `KeyboardInterrupt` and `SystemExit` escape that handler and are not
  modelled.
- LockGate.IsFileLocked: the process table is always readable.
  `psutil.process_iter` (f.py:92) sits outside the `try`, so an exception
  from it would end Volume.Disk.WipePath and lose the log gathered so far.
  This is not modelled.
- Algorithms.WipeLog: `os.urandom(1)` and `hashlib.sha256` in a pass entry
  (f.py:122, 133, 145) never raise in the model. In the source such a
  failure would end the wipe with an "Error" entry after a completed pass.
- PassSpec.PassRun: when a write or sync raised and the close on leaving
  the `with` block raises too, Python reports the close's error. The model
  keeps the first error.
- `Io.Env` keys its faults and bytes by path, pass and call, not by time.
  A path listed twice would meet the same values both times. `os.walk`
  never lists a file twice.
- Files changed by other processes between `getsize` and the writes are
  not modelled: each buffer has a fixed length.
- `wipe_path`'s `wipe_func` parameter is one of the three algorithms (an
  `Algorithms.Algorithm` value), not an arbitrary function.
- Log labels are structured values (`Common.Event`). `Common.Label`
  renders them as the source's strings.
- PyRepr.Repr: escapes quotes, backslashes and ASCII control characters
  as Python does. It treats every non-ASCII character as printable, while
  Python escapes the non-printable ones (`\x`, `\u` or `\U`). Names
  decoded with surrogate escapes are not modelled.
- `PassSpec.NotFoundMessage` has the POSIX wording. Windows reports
  "[WinError 2] The system cannot find the file specified" instead.
- `Volume.Disk.OnePass`, `Volume.Disk.RunPasses`, `Volume.Disk.Close`,
  `Volume.Disk.Visit` and `Volume.Disk.WipeDir` are parts of the source's
  functions given their own contracts, and so are the loop steps
  `Volume.Disk.VisitNext` and `Volume.Disk.WipeDirNext`. They are not
  separate functions in `f.py`.
- Volume.Disk.WipePath: the bytes a wiped file ends with are stated only
  for a file whose buffer no other wiped path names. For buffers shared
  by several paths, the model states only which buffers may change.
