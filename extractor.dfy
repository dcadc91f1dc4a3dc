/**
 * `get_cpu_usage`: pick the %CPU reading of the monitored process out of one
 * `top` listing.  The listing is the text the probe printed; running `adb`
 * is not part of this model.
 */
module CpuExtractor {
  import opened Wrappers
  import opened PyText
  import opened PyFloat

  /** Column of a `top` process line that holds %CPU, counted from 0. */
  const CPU_FIELD: nat := 8

  /**
   * What one pass of the `for` body yields for `line`: the parsed column when
   * the line mentions the pid and the column exists and is numeric; `None`
   * when the line does not mention the pid or the `try` block raised
   * `IndexError` or `ValueError` (both are swallowed).
   */
  function LineReading(line: string, pid: string): (r: Option<real>)
    ensures r.Some? ==> Contains(line, pid) && CPU_FIELD < |Fields(line)|
  {
    if !Contains(line, pid) then None
    else
      var parts := Fields(line);
      if |parts| <= CPU_FIELD then None
      else ParseFloat(parts[CPU_FIELD])
  }

  /** The result of the `for` loop over `lines`: the first line that yields a reading wins. */
  function FirstReading(lines: seq<string>, pid: string): (r: Option<real>)
  {
    if lines == [] then None
    else
      match LineReading(lines[0], pid)
      case Some(v) => Some(v)
      case None => FirstReading(lines[1..], pid)
  }

  /** Line `i` yields a reading and no earlier line does. */
  predicate IsFirstHit(lines: seq<string>, pid: string, i: nat) {
    i < |lines| && LineReading(lines[i], pid).Some? &&
    forall j :: 0 <= j < i ==> LineReading(lines[j], pid).None?
  }

  /**
   * What `get_cpu_usage(pid)` returns for the text `output` of one `top` run:
   * the listing is split into lines and scanned in order; the first line
   * whose reading succeeds gives the result, and a scan that finds none
   * gives `None`.
   */
  function CpuUsage(output: string, pid: string): (r: Option<real>)
    ensures output == [] ==> r.None?
  {
    FirstReading(SplitLines(output), pid)
  }

  /** The `for` loop of `get_cpu_usage`, with its early `return`. */
  method GetCpuUsage(output: string, pid: string) returns (r: Option<real>)
    ensures r == CpuUsage(output, pid)
  {
    var lines := SplitLines(output);
    for i := 0 to |lines|
      invariant FirstReading(lines[i..], pid) == FirstReading(lines, pid)
    {
      assert lines[i..][1..] == lines[i + 1..];
      var line := lines[i];
      if Contains(line, pid) {
        var parts := Fields(line);
        if CPU_FIELD < |parts| {
          var cpuUsage := ParseFloat(parts[CPU_FIELD]);
          if cpuUsage.Some? {
            return cpuUsage;
          }
        }
      }
    }
    assert lines[|lines|..] == [];
    return None;
  }

  // ---------------------------------------------------------------- what the scan returns

  /** The scan returns `None` exactly when no line yields a reading. */
  lemma {:induction false} FirstReadingNone(lines: seq<string>, pid: string)
    ensures FirstReading(lines, pid).None? <==>
            forall i :: 0 <= i < |lines| ==> LineReading(lines[i], pid).None?
  {
    if lines != [] {
      var rest := lines[1..];
      FirstReadingNone(rest, pid);
      assert (forall i :: 0 <= i < |lines| ==> LineReading(lines[i], pid).None?) <==>
             LineReading(lines[0], pid).None? && (forall i :: 0 <= i < |rest| ==> LineReading(rest[i], pid).None?) by {
        assert forall i :: 0 <= i < |rest| ==> rest[i] == lines[i + 1];
      }
    }
  }

  /** A line that yields a reading after lines that all failed decides the result. */
  lemma {:induction false} FirstReadingIsFirstHit(lines: seq<string>, pid: string, i: nat)
    requires IsFirstHit(lines, pid, i)
    ensures FirstReading(lines, pid) == LineReading(lines[i], pid)
  {
    if i > 0 {
      assert LineReading(lines[0], pid).None?;
      assert IsFirstHit(lines[1..], pid, i - 1) by {
        assert forall j :: 0 <= j < i - 1 ==> lines[1..][j] == lines[j + 1];
      }
      FirstReadingIsFirstHit(lines[1..], pid, i - 1);
    }
  }

  /** A reading returned by the scan comes from the first line that yields one. */
  lemma {:induction false} FirstReadingHasHit(lines: seq<string>, pid: string)
    requires FirstReading(lines, pid).Some?
    ensures exists i: nat :: IsFirstHit(lines, pid, i) && FirstReading(lines, pid) == LineReading(lines[i], pid)
  {
    if LineReading(lines[0], pid).Some? {
      assert IsFirstHit(lines, pid, 0);
    } else {
      FirstReadingHasHit(lines[1..], pid);
      var i: nat :| IsFirstHit(lines[1..], pid, i) && FirstReading(lines[1..], pid) == LineReading(lines[1..][i], pid);
      assert forall j :: 0 < j <= i ==> lines[j] == lines[1..][j - 1];
      assert IsFirstHit(lines, pid, i + 1);
    }
  }

  /** Lines that yield no reading are passed over: prepending them changes nothing. */
  lemma {:induction false} FirstReadingSkips(skipped: seq<string>, rest: seq<string>, pid: string)
    requires forall i :: 0 <= i < |skipped| ==> LineReading(skipped[i], pid).None?
    ensures FirstReading(skipped + rest, pid) == FirstReading(rest, pid)
  {
    if skipped == [] {
      assert skipped + rest == rest;
    } else {
      assert (skipped + rest)[0] == skipped[0];
      assert LineReading(skipped[0], pid).None?;
      assert (skipped + rest)[1..] == skipped[1..] + rest;
      FirstReadingSkips(skipped[1..], rest, pid);
    }
  }

  // ---------------------------------------------------------------- what one line yields

  /**
   * A `top` process line is its columns padded with runs of blanks: a line
   * that mentions the pid yields exactly what `float()` makes of its column
   * 8, and nothing when it has fewer than 9 columns.
   */
  lemma TopLineReading(columns: seq<string>, gaps: seq<string>, pid: string)
    requires forall k :: 0 <= k < |columns| ==> IsField(columns[k])
    requires IsPadding(columns, gaps)
    requires Contains(Padded(columns, gaps), pid)
    ensures LineReading(Padded(columns, gaps), pid) ==
            if |columns| <= CPU_FIELD then None else ParseFloat(columns[CPU_FIELD])
  {
    FieldsPadded(columns, gaps);
  }

  /**
   * End to end: a listing made of the given lines, each ending in a newline,
   * gives the reading of its first line that mentions the pid and has a
   * numeric column 8.
   */
  lemma ListingReading(lines: seq<string>, pid: string, i: nat)
    requires forall k :: 0 <= k < |lines| ==> NoLineBreak(lines[k])
    requires IsFirstHit(lines, pid, i)
    ensures FirstReading(SplitLines(Terminated(lines)), pid) == LineReading(lines[i], pid)
  {
    SplitLinesTerminated(lines);
    FirstReadingIsFirstHit(lines, pid, i);
  }
}
