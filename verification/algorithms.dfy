/** The three wipe algorithms (`wipe_file_dod`, `wipe_file_random`,
    `wipe_file_gutmann`): the same procedure over different pass lists. Run
    the passes in order, logging each; then remove the file and log
    "Deleted"; the first call that raises ends the wipe with one "Error"
    entry and nothing is rolled back. */
module Algorithms {
  import opened Common
  import opened Io
  import opened Chunking
  import opened PassSpec

  datatype Algorithm = DoD | RandomOnce | Gutmann

  const GUTMANN_PASSES: nat := 35

  /** The DoD patterns in pass order: zeros, ones, random (None). */
  const DOD_PATTERNS: seq<Option<byte>> := [Some(0x00), Some(0xFF), None]

  /** How many passes the algorithm makes. */
  function PassCount(alg: Algorithm): nat
  {
    match alg
    case DoD => |DOD_PATTERNS|
    case RandomOnce => 1
    case Gutmann => GUTMANN_PASSES
  }

  /** The pattern of pass `k`; None is a random pass. */
  function Pattern(alg: Algorithm, k: nat): Option<byte>
    requires 1 <= k <= PassCount(alg)
  {
    match alg
    case DoD => DOD_PATTERNS[k - 1]
    case RandomOnce => None
    case Gutmann => None
  }

  /** The log event of pass `k`: "Pass k", "Random Pass" or "Gutmann Pass k". */
  function PassEvent(alg: Algorithm, k: nat): (e: Event)
    ensures !IsTerminal(e)
  {
    match alg
    case DoD => Pass("Pass", Some(k))
    case RandomOnce => Pass("Random Pass", None)
    case Gutmann => Pass("Gutmann Pass", Some(k))
  }

  /** The detail of a pass entry: the digest of the pattern byte, or of one
      fresh random byte after a random pass. It never depends on what was
      written. */
  function Digest(env: Env, p: Path, k: nat, pattern: Option<byte>): string
  {
    match pattern
    case Some(b) => env.sha256([b])
    case None => env.sha256([env.salt(p, k)])
  }

  function PassEntry(alg: Algorithm, env: Env, p: Path, k: nat): Entry
    requires 1 <= k <= PassCount(alg)
  {
    Entry(p, PassEvent(alg, k), Digest(env, p, k, Pattern(alg, k)))
  }

  /** The entry that os.remove yields after the last pass. */
  function RemoveEntry(env: Env, p: Path): Entry
  {
    match env.fault(p, Unlink)
    case Some(msg) => Entry(p, Error, msg)
    case None => Entry(p, Deleted, env.now(p))
  }

  /** The error (if any) each pass of the algorithm ends with, in order. */
  function PassErrors(alg: Algorithm, env: Env, p: Path, size: Option<nat>): (errs: seq<Option<string>>)
    ensures |errs| == PassCount(alg)
  {
    seq(PassCount(alg), i requires 0 <= i < PassCount(alg) => PassRun(env, p, i + 1, size).err)
  }

  /** The log of the wipe from pass `k` on, once passes 1..k-1 succeeded;
      `errs[k - 1]` is how pass k ends. */
  function LogFrom(alg: Algorithm, env: Env, p: Path, errs: seq<Option<string>>, k: nat): (log: seq<Entry>)
    requires |errs| == PassCount(alg) && 1 <= k <= PassCount(alg) + 1
    ensures 1 <= |log| <= PassCount(alg) + 2 - k
    decreases PassCount(alg) + 1 - k
  {
    if k > PassCount(alg) then [RemoveEntry(env, p)]
    else
      match errs[k - 1]
      case Some(msg) => [Entry(p, Error, msg)]
      case None => [PassEntry(alg, env, p, k)] + LogFrom(alg, env, p, errs, k + 1)
  }

  /** The log one wipe function returns for `p`, whose length is `size`
      (None: no such file). */
  function WipeLog(alg: Algorithm, env: Env, p: Path, size: Option<nat>): seq<Entry>
  {
    LogFrom(alg, env, p, PassErrors(alg, env, p, size), 1)
  }

  /** How many passes from `k` on succeed in a row. */
  function OkFrom(alg: Algorithm, errs: seq<Option<string>>, k: nat): (j: nat)
    requires |errs| == PassCount(alg) && 1 <= k <= PassCount(alg) + 1
    ensures k + j <= PassCount(alg) + 1
    decreases PassCount(alg) + 1 - k
  {
    if k > PassCount(alg) || errs[k - 1].Some? then 0
    else 1 + OkFrom(alg, errs, k + 1)
  }

  /** The number of passes a wipe of `p` completes. */
  function Completed(alg: Algorithm, env: Env, p: Path, size: Option<nat>): (j: nat)
    ensures j <= PassCount(alg)
  {
    OkFrom(alg, PassErrors(alg, env, p, size), 1)
  }

  /** The entries of passes k .. k+j-1, in pass order. */
  function PassEntries(alg: Algorithm, env: Env, p: Path, k: nat, j: nat): (r: seq<Entry>)
    requires 1 <= k && k + j <= PassCount(alg) + 1
    ensures |r| == j
    decreases j
  {
    if j == 0 then [] else [PassEntry(alg, env, p, k)] + PassEntries(alg, env, p, k + 1, j - 1)
  }

  lemma {:induction false} PassEntriesAt(alg: Algorithm, env: Env, p: Path, k: nat, j: nat)
    requires 1 <= k && k + j <= PassCount(alg) + 1
    ensures forall i :: 0 <= i < j ==> PassEntries(alg, env, p, k, j)[i] == PassEntry(alg, env, p, k + i)
    decreases j
  {
    if j > 0 {
      PassEntriesAt(alg, env, p, k + 1, j - 1);
    }
  }

  /** One more completed pass adds its entry at the end. */
  lemma {:induction false} PassEntriesSnoc(alg: Algorithm, env: Env, p: Path, k: nat, j: nat)
    requires 1 <= k && k + j + 1 <= PassCount(alg) + 1
    ensures PassEntries(alg, env, p, k, j + 1) == PassEntries(alg, env, p, k, j) + [PassEntry(alg, env, p, k + j)]
    decreases j
  {
    if j > 0 {
      PassEntriesSnoc(alg, env, p, k + 1, j - 1);
    }
  }

  /** The content of a file of the given data once passes 1..j completed:
      the j-th pass's image, or the data itself before any pass. */
  function Stage(alg: Algorithm, env: Env, p: Path, data: seq<byte>, j: nat): (r: seq<byte>)
    requires j <= PassCount(alg)
    ensures |r| == |data|
  {
    if j == 0 then data else PassImage(|data|, Pattern(alg, j), env, p, j)
  }

  /** Pass k over stage k - 1 leaves what a wipe stopped after k - 1
      passes leaves, and, when it completes, stage k. */
  lemma StageStep(alg: Algorithm, env: Env, p: Path, data: seq<byte>, k: nat)
    requires 1 <= k <= PassCount(alg)
    ensures var after := Overwrite(Stage(alg, env, p, data, k - 1), PassRun(env, p, k, Some(|data|)).written, Pattern(alg, k), env, p, k);
      after == StopData(alg, env, p, data, k - 1) &&
      (PassOk(env, p, k, Some(|data|)) ==> after == Stage(alg, env, p, data, k))
  {
    if PassOk(env, p, k, Some(|data|)) {
      PassCoverage(Stage(alg, env, p, data, k - 1), Pattern(alg, k), env, p, k);
    }
  }

  /** Once every pass completed, the content is the last stage. */
  lemma StopDataLast(alg: Algorithm, env: Env, p: Path, data: seq<byte>)
    ensures StopData(alg, env, p, data, PassCount(alg)) == Stage(alg, env, p, data, PassCount(alg))
  {
  }

  /** The content a wipe leaves in the file (whether or not it is removed
      afterwards): the last complete pass's bytes, overlaid by the prefix
      that the failing pass, if any, managed to write. */
  function WipeData(alg: Algorithm, env: Env, p: Path, data: seq<byte>): seq<byte>
  {
    StopData(alg, env, p, data, Completed(alg, env, p, Some(|data|)))
  }

  /** The content of a file of the given data after passes 1..j completed
      and pass j + 1, if there is one, stopped part-way. */
  function StopData(alg: Algorithm, env: Env, p: Path, data: seq<byte>, j: nat): seq<byte>
    requires j <= PassCount(alg)
  {
    if j < PassCount(alg) then
      Overwrite(Stage(alg, env, p, data, j), PassRun(env, p, j + 1, Some(|data|)).written, Pattern(alg, j + 1), env, p, j + 1)
    else Stage(alg, env, p, data, j)
  }

  /** OkFrom is the leading run of successes from k on: those passes
      succeed, and the pass right after them, if there is one, fails. */
  lemma {:induction false} OkFromRun(alg: Algorithm, errs: seq<Option<string>>, k: nat)
    requires |errs| == PassCount(alg) && 1 <= k <= PassCount(alg) + 1
    ensures forall i :: k - 1 <= i < k + OkFrom(alg, errs, k) - 1 ==> errs[i].None?
    ensures k + OkFrom(alg, errs, k) <= PassCount(alg) ==> errs[k + OkFrom(alg, errs, k) - 1].Some?
    decreases PassCount(alg) + 1 - k
  {
    if k <= PassCount(alg) && errs[k - 1].None? {
      OkFromRun(alg, errs, k + 1);
      assert OkFrom(alg, errs, k) == 1 + OkFrom(alg, errs, k + 1);
    } else {
      assert OkFrom(alg, errs, k) == 0;
    }
  }

  /** The entry that closes a wipe log after j passes succeeded: the error
      of pass j + 1, or the outcome of the removal after the last pass. */
  function Closing(alg: Algorithm, env: Env, p: Path, size: Option<nat>, j: nat): Entry
  {
    if j < PassCount(alg) && PassRun(env, p, j + 1, size).err.Some? then
      Entry(p, Error, PassRun(env, p, j + 1, size).err.value)
    else RemoveEntry(env, p)
  }

  /** Shape of every wipe log: one entry per pass that succeeded, in pass
      order, then exactly one closing entry, which is the error of the
      first failing pass, or the outcome of the removal when every pass
      succeeded. */
  lemma WipeLogShape(alg: Algorithm, env: Env, p: Path, size: Option<nat>)
    ensures var j := Completed(alg, env, p, size);
      (j < PassCount(alg) ==> PassRun(env, p, j + 1, size).err.Some?) &&
      WipeLog(alg, env, p, size) == PassEntries(alg, env, p, 1, j) + [Closing(alg, env, p, size, j)]
  {
    var errs := PassErrors(alg, env, p, size);
    var j := OkFrom(alg, errs, 1);
    OkFromRun(alg, errs, 1);
    PassErrorsAt(alg, env, p, size);
    LogFromRun(alg, env, p, errs, 1, j, Closing(alg, env, p, size, j));
  }

  /** A wipe in which passes 1..j succeed and pass j + 1, if there is one,
      fails logs those j passes and then its closing entry. */
  lemma WipeLogAt(alg: Algorithm, env: Env, p: Path, size: Option<nat>, j: nat)
    requires j <= PassCount(alg)
    requires PassesOk(env, p, size, j)
    requires j < PassCount(alg) ==> !PassOk(env, p, j + 1, size)
    ensures WipeLog(alg, env, p, size) == PassEntries(alg, env, p, 1, j) + [Closing(alg, env, p, size, j)]
  {
    CompletedIs(alg, env, p, size, j);
    WipeLogShape(alg, env, p, size);
  }

  /** What a wipe that completed exactly passes 1..j leaves: the log of
      those passes and its closing entry, and, in a file of the given data,
      stage j overlaid by the prefix pass j + 1 wrote before it failed. */
  lemma WipeFileOutcome(alg: Algorithm, env: Env, p: Path, size: Option<nat>, data: seq<byte>, j: nat)
    requires j <= PassCount(alg)
    requires PassesOk(env, p, size, j)
    requires j < PassCount(alg) ==> !PassOk(env, p, j + 1, size)
    ensures WipeLog(alg, env, p, size) == PassEntries(alg, env, p, 1, j) + [Closing(alg, env, p, size, j)]
    ensures size == Some(|data|) ==> WipeData(alg, env, p, data) == StopData(alg, env, p, data, j)
  {
    WipeLogAt(alg, env, p, size, j);
    if size == Some(|data|) {
      WipeDataStop(alg, env, p, data, j);
    }
  }

  /** OkFrom counts exactly the leading run of successful passes. */
  lemma {:induction false} OkFromCount(alg: Algorithm, errs: seq<Option<string>>, k: nat, j: nat)
    requires |errs| == PassCount(alg) && 1 <= k && k + j <= PassCount(alg) + 1
    requires forall i :: k - 1 <= i < k + j - 1 ==> errs[i].None?
    requires k + j <= PassCount(alg) ==> errs[k + j - 1].Some?
    ensures OkFrom(alg, errs, k) == j
    decreases j
  {
    if j > 0 {
      OkFromCount(alg, errs, k + 1, j - 1);
    }
  }

  /** Every pass from k on succeeds exactly when the leading run covers them all. */
  lemma {:induction false} OkFromAll(alg: Algorithm, errs: seq<Option<string>>, k: nat)
    requires |errs| == PassCount(alg) && 1 <= k <= PassCount(alg) + 1
    ensures OkFrom(alg, errs, k) == PassCount(alg) + 1 - k <==>
      forall i :: k - 1 <= i < |errs| ==> errs[i].None?
    decreases PassCount(alg) + 1 - k
  {
    if k <= PassCount(alg) {
      OkFromAll(alg, errs, k + 1);
    }
  }

  /** Pass k's entry in PassErrors is how pass k ends. */
  lemma PassErrorsAt(alg: Algorithm, env: Env, p: Path, size: Option<nat>)
    ensures forall k :: 1 <= k <= PassCount(alg) ==>
      PassErrors(alg, env, p, size)[k - 1] == PassRun(env, p, k, size).err
  {
  }

  /** The number of completed passes is j exactly when passes 1..j succeed
      and pass j+1, if there is one, fails. */
  lemma CompletedIs(alg: Algorithm, env: Env, p: Path, size: Option<nat>, j: nat)
    requires j <= PassCount(alg)
    requires PassesOk(env, p, size, j)
    requires j < PassCount(alg) ==> !PassOk(env, p, j + 1, size)
    ensures Completed(alg, env, p, size) == j
  {
    var errs := PassErrors(alg, env, p, size);
    PassesOkAll(env, p, size, j);
    PassErrorsAt(alg, env, p, size);
    forall i | 0 <= i < j
      ensures errs[i].None?
    {
      assert PassOk(env, p, i + 1, size);
    }
    OkFromCount(alg, errs, 1, j);
  }

  /** A wipe that completed exactly passes 1..j leaves stage j, overlaid by
      the prefix pass j + 1 wrote before it failed, if there is such a pass. */
  lemma WipeDataStop(alg: Algorithm, env: Env, p: Path, data: seq<byte>, j: nat)
    requires j <= PassCount(alg)
    requires PassesOk(env, p, Some(|data|), j)
    requires j < PassCount(alg) ==> !PassOk(env, p, j + 1, Some(|data|))
    ensures WipeData(alg, env, p, data) == StopData(alg, env, p, data, j)
  {
    CompletedIs(alg, env, p, Some(|data|), j);
  }

  /** A pass label never reads as "Deleted", "Error" or "Locked", so the
      rendered log tells pass entries from closing ones. */
  lemma PassLabelNotTerminal(alg: Algorithm, k: nat)
    ensures Label(PassEvent(alg, k)) !in {Label(Deleted), Label(Error), Label(Locked)}
  {
    var l := Label(PassEvent(alg, k));
    assert l[0] == (match alg case DoD => 'P' case RandomOnce => 'R' case Gutmann => 'G');
    assert Label(Deleted)[0] == 'D' && Label(Error)[0] == 'E' && Label(Locked)[0] == 'L';
  }

  /** Every entry of a wipe log is about the wiped file, only the last one
      closes the record, and so the log closes the record of `p` once. */
  lemma WipeLogPaths(alg: Algorithm, env: Env, p: Path, size: Option<nat>)
    ensures var log := WipeLog(alg, env, p, size);
      |log| >= 1 &&
      (forall i :: 0 <= i < |log| ==> log[i].path == p) &&
      (forall i :: 0 <= i < |log| - 1 ==> !IsTerminal(log[i].event)) &&
      IsTerminal(log[|log| - 1].event) &&
      TerminalPaths(log) == [p]
  {
    var j := Completed(alg, env, p, size);
    var body, close := PassEntries(alg, env, p, 1, j), Closing(alg, env, p, size, j);
    WipeLogShape(alg, env, p, size);
    PassEntriesAt(alg, env, p, 1, j);
    RecordShape(body, close, p);
  }

  /** The log ends in "Deleted" exactly when every pass and the removal
      succeeded, and in "Error" exactly when something failed. */
  lemma WipeOutcome(alg: Algorithm, env: Env, p: Path, size: Option<nat>)
    ensures var log := WipeLog(alg, env, p, size);
      EndsDeleted(log) <==>
        (forall k :: 1 <= k <= PassCount(alg) ==> PassOk(env, p, k, size)) && env.fault(p, Unlink).None?
    ensures var log := WipeLog(alg, env, p, size);
      |log| > 0 && (log[|log| - 1].event == Error <==> !EndsDeleted(log))
  {
    var errs := PassErrors(alg, env, p, size);
    var log := WipeLog(alg, env, p, size);
    var j := Completed(alg, env, p, size);
    WipeLogShape(alg, env, p, size);
    assert log[|log| - 1] == Closing(alg, env, p, size, j);
    OkFromAll(alg, errs, 1);
    PassErrorsAt(alg, env, p, size);
    if j == PassCount(alg) {
      forall k | 1 <= k <= PassCount(alg)
        ensures PassOk(env, p, k, size)
      {
        assert errs[k - 1].None?;
      }
    } else {
      assert !PassOk(env, p, j + 1, size);
    }
  }

  /** A log whose outcomes from k on are successes for j passes and then
      end with `close` (the failing pass's error, or the removal's entry
      after the last pass) is those j pass entries and `close`. */
  lemma {:induction false} LogFromRun(alg: Algorithm, env: Env, p: Path, errs: seq<Option<string>>, k: nat, j: nat, close: Entry)
    requires |errs| == PassCount(alg) && 1 <= k && k + j <= PassCount(alg) + 1
    requires forall i :: k - 1 <= i < k + j - 1 ==> errs[i].None?
    requires k + j <= PassCount(alg) ==> errs[k + j - 1].Some? && close == Entry(p, Error, errs[k + j - 1].value)
    requires k + j == PassCount(alg) + 1 ==> close == RemoveEntry(env, p)
    ensures LogFrom(alg, env, p, errs, k) == PassEntries(alg, env, p, k, j) + [close]
    decreases j
  {
    if j > 0 {
      assert errs[k - 1].None?;
      assert LogFrom(alg, env, p, errs, k) == [PassEntry(alg, env, p, k)] + LogFrom(alg, env, p, errs, k + 1);
      LogFromRun(alg, env, p, errs, k + 1, j - 1, close);
      assert [PassEntry(alg, env, p, k)] + (PassEntries(alg, env, p, k + 1, j - 1) + [close]) ==
        PassEntries(alg, env, p, k, j) + [close];
    } else {
      assert PassEntries(alg, env, p, k, 0) + [close] == [close];
    }
  }

  /** Failure at pass k (or, with k = PassCount + 1, at the removal): the
      entries of the passes already completed, then one "Error" with the
      failure text, and no "Deleted". */
  lemma WipeFailsAt(alg: Algorithm, env: Env, p: Path, size: Option<nat>, k: nat, msg: string)
    requires 1 <= k <= PassCount(alg) + 1
    requires forall i :: 1 <= i < k ==> PassOk(env, p, i, size)
    requires k <= PassCount(alg) ==> PassRun(env, p, k, size).err == Some(msg)
    requires k == PassCount(alg) + 1 ==> env.fault(p, Unlink) == Some(msg)
    ensures WipeLog(alg, env, p, size) == PassEntries(alg, env, p, 1, k - 1) + [Entry(p, Error, msg)]
  {
    var errs := PassErrors(alg, env, p, size);
    PassErrorsAt(alg, env, p, size);
    forall i | 0 <= i < k - 1
      ensures errs[i].None?
    {
      assert PassOk(env, p, i + 1, size);
    }
    LogFromRun(alg, env, p, errs, 1, k - 1, Entry(p, Error, msg));
  }

  /** Every pass succeeded and so did the removal: every pass entry, then
      "Deleted" with the timestamp. */
  lemma WipeDeletes(alg: Algorithm, env: Env, p: Path, size: Option<nat>)
    requires forall i :: 1 <= i <= PassCount(alg) ==> PassOk(env, p, i, size)
    requires env.fault(p, Unlink).None?
    ensures WipeLog(alg, env, p, size) ==
      PassEntries(alg, env, p, 1, PassCount(alg)) + [Entry(p, Deleted, env.now(p))]
  {
    var errs := PassErrors(alg, env, p, size);
    PassErrorsAt(alg, env, p, size);
    forall i | 0 <= i < |errs|
      ensures errs[i].None?
    {
      assert PassOk(env, p, i + 1, size);
    }
    LogFromRun(alg, env, p, errs, 1, PassCount(alg), Entry(p, Deleted, env.now(p)));
  }

  /** A wipe in which no call raises: every pass logged, then "Deleted". */
  lemma WipeCompletes(alg: Algorithm, env: Env, p: Path, size: nat)
    requires forall s :: env.fault(p, s).None?
    ensures WipeLog(alg, env, p, Some(size)) ==
      PassEntries(alg, env, p, 1, PassCount(alg)) + [Entry(p, Deleted, env.now(p))]
  {
    forall k | 1 <= k <= PassCount(alg)
      ensures PassOk(env, p, k, Some(size))
    {
      PassOkIff(env, p, k, Some(size));
    }
    WipeDeletes(alg, env, p, Some(size));
  }

  /** DoD 5220.22-M as the source runs it: "Pass 1" (zeros), "Pass 2"
      (0xFF), "Pass 3" (random), then "Deleted"; the first two digests are
      those of the pattern bytes themselves. */
  lemma DodLog(env: Env, p: Path, size: nat)
    requires forall s :: env.fault(p, s).None?
    ensures WipeLog(DoD, env, p, Some(size)) == [
      Entry(p, Pass("Pass", Some(1)), env.sha256([0x00])),
      Entry(p, Pass("Pass", Some(2)), env.sha256([0xFF])),
      Entry(p, Pass("Pass", Some(3)), env.sha256([env.salt(p, 3)])),
      Entry(p, Deleted, env.now(p))]
  {
    WipeCompletes(DoD, env, p, size);
  }

  /** The rendered labels are the source's f-strings: "Pass {n}",
      "Random Pass", "Gutmann Pass {n}", with n in decimal and no leading
      zero. */
  lemma PassLabels(n: nat)
    ensures Label(PassEvent(DoD, n)) == "Pass " + NatToString(n)
    ensures Label(PassEvent(RandomOnce, n)) == "Random Pass"
    ensures Label(PassEvent(Gutmann, n)) == "Gutmann Pass " + NatToString(n)
    ensures DecimalValue(NatToString(n)) == n && (NatToString(n)[0] == '0' <==> n == 0)
  {
    NatToStringDecimal(n);
  }

  /** The single random pass: "Random Pass", then "Deleted". */
  lemma RandomLog(env: Env, p: Path, size: nat)
    requires forall s :: env.fault(p, s).None?
    ensures WipeLog(RandomOnce, env, p, Some(size)) == [
      Entry(p, Pass("Random Pass", None), env.sha256([env.salt(p, 1)])),
      Entry(p, Deleted, env.now(p))]
  {
    WipeCompletes(RandomOnce, env, p, size);
  }

  /** The Gutmann variant: "Gutmann Pass 1" .. "Gutmann Pass 35" in
      increasing order, each a random pass, then "Deleted". */
  lemma GutmannLog(env: Env, p: Path, size: nat)
    requires forall s :: env.fault(p, s).None?
    ensures var log := WipeLog(Gutmann, env, p, Some(size));
      |log| == 36 &&
      (forall i :: 0 <= i < 35 ==>
        log[i] == Entry(p, Pass("Gutmann Pass", Some(i + 1)), env.sha256([env.salt(p, i + 1)]))) &&
      log[35] == Entry(p, Deleted, env.now(p))
  {
    WipeCompletes(Gutmann, env, p, size);
    PassEntriesAt(Gutmann, env, p, 1, 35);
  }

  /** DoD applies its patterns in the order 0x00, 0xFF, random: after pass
      1 every byte is zero, after pass 2 every byte is 0xFF, after pass 3
      every byte is the random source's. */
  lemma DodStages(env: Env, p: Path, data: seq<byte>)
    ensures forall i :: 0 <= i < |data| ==> Stage(DoD, env, p, data, 1)[i] == 0x00
    ensures forall i :: 0 <= i < |data| ==> Stage(DoD, env, p, data, 2)[i] == 0xFF
    ensures forall i :: 0 <= i < |data| ==> Stage(DoD, env, p, data, 3)[i] == env.noise(p, 3, i)
  {
    assert Pattern(DoD, 1) == Some(0x00) && Pattern(DoD, 2) == Some(0xFF) && Pattern(DoD, 3) == None;
  }

  /** After a DoD wipe whose three passes completed the file holds the third
      (random) pass's bytes at every offset, and its length is unchanged. */
  lemma DodFinalContent(env: Env, p: Path, data: seq<byte>)
    requires forall k :: 1 <= k <= 3 ==> PassOk(env, p, k, Some(|data|))
    ensures |WipeData(DoD, env, p, data)| == |data|
    ensures forall i :: 0 <= i < |data| ==> WipeData(DoD, env, p, data)[i] == env.noise(p, 3, i)
  {
    PassesOkAll(env, p, Some(|data|), 3);
    CompletedIs(DoD, env, p, Some(|data|), 3);
  }

  /** Whatever happens, the file keeps its length: the file is opened 'r+b'
      and no pass writes past its end. */
  lemma WipeKeepsLength(alg: Algorithm, env: Env, p: Path, data: seq<byte>)
    ensures |WipeData(alg, env, p, data)| == |data|
  {
  }
}
