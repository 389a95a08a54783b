/** The lock gate: is the target path held open by some process? */
module LockGate {
  import opened Common

  /** One row of the process table. A process whose open-file list could not
      be read (access denied, exited meanwhile, no list reported) is
      `Inaccessible`; the others report their open files' paths. */
  datatype Proc = Inaccessible | Inspected(openFiles: seq<Path>)

  /** Some inspectable process reports exactly `p` among its open files. */
  ghost predicate HeldOpen(procs: seq<Proc>, p: Path)
  {
    exists i, j :: 0 <= i < |procs| && procs[i].Inspected? &&
      0 <= j < |procs[i].openFiles| && procs[i].openFiles[j] == p
  }

  /** Linear search over the process table with an early exit on the first
      exact match; inaccessible processes are skipped. */
  method IsFileLocked(procs: seq<Proc>, p: Path) returns (locked: bool)
    ensures locked == HeldOpen(procs, p)
  {
    for i := 0 to |procs|
      invariant forall k, m :: 0 <= k < i && procs[k].Inspected? && 0 <= m < |procs[k].openFiles| ==>
        procs[k].openFiles[m] != p
    {
      match procs[i]
      case Inaccessible =>
      case Inspected(open) =>
        for j := 0 to |open|
          invariant forall m :: 0 <= m < j ==> open[m] != p
        {
          if open[j] == p {
            return true;
          }
        }
    }
    return false;
  }

  /** The gate fails open: hiding a process's list (making it inaccessible)
      can only turn "locked" into "not locked", never the other way round. */
  lemma FailOpen(procs: seq<Proc>, p: Path, k: nat)
    requires k < |procs|
    ensures HeldOpen(procs[k := Inaccessible], p) ==> HeldOpen(procs, p)
    ensures !HeldOpen(procs[k := Inaccessible], p) && HeldOpen(procs, p) ==>
      procs[k].Inspected? && p in procs[k].openFiles
  {
    var hidden := procs[k := Inaccessible];
    if HeldOpen(hidden, p) {
      var i, j :| 0 <= i < |hidden| && hidden[i].Inspected? &&
        0 <= j < |hidden[i].openFiles| && hidden[i].openFiles[j] == p;
      assert procs[i] == hidden[i];
    }
    forall i, j | 0 <= i < |procs| && i != k && procs[i].Inspected? &&
      0 <= j < |procs[i].openFiles| && procs[i].openFiles[j] == p
      ensures HeldOpen(hidden, p)
    {
      assert hidden[i] == procs[i];
    }
  }
}
