/** Values shared by every part of the wipe engine: bytes, paths, and the
    entries of the operation log. */
module Common {

  /** One byte of file content. */
  newtype byte = x: int | 0 <= x < 256

  /** A filesystem path, compared exactly (no normalisation anywhere). */
  type Path = string

  datatype Option<T> = None | Some(value: T)

  /** What a log entry records: a completed pass, the removal of the file,
      a failure, or a refusal because the file is in use. A pass is named
      by a title and, when the algorithm numbers its passes, a number. */
  datatype Event = Pass(title: string, number: Option<nat>) | Deleted | Error | Locked

  /** The label text of the log tuple: "Pass 2", "Gutmann Pass 7",
      "Random Pass", "Deleted", "Error" or "Locked". */
  function Label(e: Event): string
  {
    match e
    case Pass(t, None) => t
    case Pass(t, Some(n)) => t + " " + NatToString(n)
    case Deleted => "Deleted"
    case Error => "Error"
    case Locked => "Locked"
  }

  /** One log tuple `(file_path, label, detail)`; the detail carries a
      digest, a timestamp, an error text or the lock reason. */
  datatype Entry = Entry(path: Path, event: Event, detail: string)

  /** The events that close the record of one file. */
  predicate IsTerminal(e: Event)
  {
    !e.Pass?
  }

  predicate EndsDeleted(log: seq<Entry>)
  {
    |log| > 0 && log[|log| - 1].event == Deleted
  }

  /** The paths of the closing entries of a log, in log order. */
  function TerminalPaths(log: seq<Entry>): (r: seq<Path>)
    ensures |r| <= |log|
  {
    if log == [] then []
    else (if IsTerminal(log[0].event) then [log[0].path] else []) + TerminalPaths(log[1..])
  }

  lemma {:induction false} TerminalPathsAppend(a: seq<Entry>, b: seq<Entry>)
    ensures TerminalPaths(a + b) == TerminalPaths(a) + TerminalPaths(b)
  {
    if a != [] {
      assert (a + b)[1..] == a[1..] + b;
      TerminalPathsAppend(a[1..], b);
    } else {
      assert a + b == b;
    }
  }

  /** A log with no closing entry has no terminal paths. */
  lemma {:induction false} NoTerminalPaths(log: seq<Entry>)
    requires forall i :: 0 <= i < |log| ==> !IsTerminal(log[i].event)
    ensures TerminalPaths(log) == []
  {
    if log != [] {
      NoTerminalPaths(log[1..]);
    }
  }

  /** A record of `p` made of open entries and one closing entry: all about
      `p`, only the last one closes it, and it closes `p` once. */
  lemma RecordShape(body: seq<Entry>, close: Entry, p: Path)
    requires forall i :: 0 <= i < |body| ==> body[i].path == p && !IsTerminal(body[i].event)
    requires close.path == p && IsTerminal(close.event)
    ensures var log := body + [close];
      |log| >= 1 &&
      (forall i :: 0 <= i < |log| ==> log[i].path == p) &&
      (forall i :: 0 <= i < |log| - 1 ==> !IsTerminal(log[i].event)) &&
      IsTerminal(log[|log| - 1].event) &&
      TerminalPaths(log) == [p]
  {
    NoTerminalPaths(body);
    TerminalPathsAppend(body, [close]);
    assert [close][1..] == [];
  }

  /** A prefix one longer is the prefix and the next element. */
  lemma TakeSnoc<T>(s: seq<T>, j: nat)
    requires j < |s|
    ensures s[..j + 1] == s[..j] + [s[j]]
  {
  }

  /** A sequence without repeated elements lists each of its elements
      exactly once. */
  lemma {:induction false} DistinctOnce<T>(s: seq<T>)
    requires forall i, j :: 0 <= i < j < |s| ==> s[i] != s[j]
    ensures forall x :: x in s ==> multiset(s)[x] == 1
    decreases |s|
  {
    if s != [] {
      var init, last := s[..|s| - 1], s[|s| - 1];
      DistinctOnce(init);
      assert s == init + [last];
      assert last !in init by {
        forall k | 0 <= k < |init| ensures init[k] != last {
          assert init[k] == s[k];
        }
      }
    }
  }

  /** A prefix, extended by the next element, lists each element at most
      as often as the whole. */
  lemma SnocMultiset<T>(s: seq<T>, pre: seq<T>, x: T)
    requires |pre| < |s| && pre == s[..|pre|] && x == s[|pre|]
    ensures multiset(pre + [x]) <= multiset(s)
  {
    assert pre + [x] == s[..|pre| + 1];
    assert s == s[..|pre| + 1] + s[|pre| + 1..];
  }

  function Digit(d: nat): char
    requires d < 10
  {
    "0123456789"[d]
  }

  /** Decimal rendering of a pass number, as an f-string `{pass_num}` gives it. */
  function NatToString(n: nat): (s: string)
    ensures |s| >= 1
    ensures forall i :: 0 <= i < |s| ==> '0' <= s[i] <= '9'
    decreases n
  {
    if n < 10 then [Digit(n)] else NatToString(n / 10) + [Digit(n % 10)]
  }

  /** The number a string of decimal digits denotes. */
  function DecimalValue(s: string): nat
    requires forall i :: 0 <= i < |s| ==> '0' <= s[i] <= '9'
  {
    if s == [] then 0 else 10 * DecimalValue(s[..|s| - 1]) + (s[|s| - 1] as int - '0' as int)
  }

  /** NatToString is the decimal numeral of n, with no leading zero. */
  lemma {:induction false} NatToStringDecimal(n: nat)
    ensures DecimalValue(NatToString(n)) == n
    ensures NatToString(n)[0] == '0' <==> n == 0
    decreases n
  {
    if n >= 10 {
      NatToStringDecimal(n / 10);
      var s := NatToString(n);
      assert s[..|s| - 1] == NatToString(n / 10);
      assert s[0] == NatToString(n / 10)[0];
    }
  }
}
