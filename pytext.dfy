/**
 * The three pieces of Python string handling that `get_cpu_usage` relies on:
 * `str.splitlines()`, `str.split()` with no argument, and the `in` operator on
 * strings.  Each is given as a function together with an independent
 * description of what it returns.
 */
module PyText {

  /** The characters `str.splitlines()` treats as line boundaries. */
  predicate IsLineBreak(c: char) {
    c == '\n' || c == '\r' || c == '\U{0B}' || c == '\U{0C}' ||
    c == '\U{1C}' || c == '\U{1D}' || c == '\U{1E}' || c == '\U{85}' ||
    c == '\U{2028}' || c == '\U{2029}'
  }

  /** The characters `str.isspace()` accepts, which are the separators of `str.split()`. */
  predicate IsSpace(c: char) {
    ('\t' <= c <= '\r') || ('\U{1C}' <= c <= ' ') || c == '\U{85}' || c == '\U{A0}' ||
    c == '\U{1680}' || ('\U{2000}' <= c <= '\U{200A}') || c == '\U{2028}' ||
    c == '\U{2029}' || c == '\U{202F}' || c == '\U{205F}' || c == '\U{3000}'
  }

  predicate NoLineBreak(s: string) {
    forall j :: 0 <= j < |s| ==> !IsLineBreak(s[j])
  }

  /** A field as `str.split()` produces it: non-empty and free of whitespace. */
  predicate IsField(s: string) {
    |s| > 0 && forall j :: 0 <= j < |s| ==> !IsSpace(s[j])
  }

  // ---------------------------------------------------------------- splitlines

  /** Position of the first line boundary of `s`, or `|s|` when there is none. */
  function BreakAt(s: string): (i: nat)
    ensures i <= |s|
    ensures forall j :: 0 <= j < i ==> !IsLineBreak(s[j])
    ensures i < |s| ==> IsLineBreak(s[i])
  {
    if s == [] then 0
    else if IsLineBreak(s[0]) then 0
    else 1 + BreakAt(s[1..])
  }

  /** Width of the boundary starting at `i`: "\r\n" is a single boundary. */
  function BreakWidth(s: string, i: nat): (w: nat)
    requires i < |s|
    ensures 1 <= w <= 2 && i + w <= |s|
  {
    if s[i] == '\r' && i + 1 < |s| && s[i + 1] == '\n' then 2 else 1
  }

  /**
   * `s.splitlines()`: the text between boundaries, with no empty line after a
   * final boundary.
   */
  function SplitLines(s: string): (lines: seq<string>)
    ensures forall k :: 0 <= k < |lines| ==> NoLineBreak(lines[k])
    decreases |s|
  {
    if s == [] then []
    else
      var i := BreakAt(s);
      if i == |s| then [s]
      else [s[..i]] + SplitLines(s[i + BreakWidth(s, i)..])
  }

  /** The text made of the given lines, each followed by "\n". */
  function Terminated(lines: seq<string>): string {
    if lines == [] then "" else lines[0] + "\n" + Terminated(lines[1..])
  }

  lemma BreakAtLine(line: string, rest: string)
    requires NoLineBreak(line)
    ensures BreakAt(line + "\n" + rest) == |line|
  {
    var s := line + "\n" + rest;
    assert s[|line|] == '\n';
    assert forall j :: 0 <= j < |line| ==> s[j] == line[j];
  }

  /** Splitting a text of terminated lines gives the lines back. */
  lemma {:induction false} SplitLinesTerminated(lines: seq<string>)
    requires forall k :: 0 <= k < |lines| ==> NoLineBreak(lines[k])
    ensures SplitLines(Terminated(lines)) == lines
  {
    if lines != [] {
      var line, rest := lines[0], Terminated(lines[1..]);
      var s := line + "\n" + rest;
      assert Terminated(lines) == s;
      BreakAtLine(line, rest);
      assert s[|line|] == '\n';
      assert BreakWidth(s, |line|) == 1;
      assert s[..|line|] == line;
      assert s[|line| + 1..] == rest;
      SplitLinesTerminated(lines[1..]);
      assert [lines[0]] + lines[1..] == lines;
    }
  }

  // ---------------------------------------------------------------- split

  /** Length of the run of whitespace that starts `s`. */
  function SpaceRun(s: string): (i: nat)
    ensures i <= |s|
    ensures forall j :: 0 <= j < i ==> IsSpace(s[j])
    ensures i < |s| ==> !IsSpace(s[i])
  {
    if s == [] then 0
    else if IsSpace(s[0]) then 1 + SpaceRun(s[1..])
    else 0
  }

  /** Length of the run of non-whitespace that starts `s`. */
  function WordRun(s: string): (i: nat)
    ensures i <= |s|
    ensures forall j :: 0 <= j < i ==> !IsSpace(s[j])
    ensures i < |s| ==> IsSpace(s[i])
  {
    if s == [] then 0
    else if IsSpace(s[0]) then 0
    else 1 + WordRun(s[1..])
  }

  /**
   * `s.split()`: the maximal runs of non-whitespace, in order; runs of
   * whitespace of any length separate them and no field is empty.
   */
  function Fields(s: string): (fs: seq<string>)
    ensures forall k :: 0 <= k < |fs| ==> IsField(fs[k])
    decreases |s|
  {
    var t := s[SpaceRun(s)..];
    if t == [] then []
    else
      var w := WordRun(t);
      [t[..w]] + Fields(t[w..])
  }

  /** The fields written out with one space between each two. */
  function JoinFields(fs: seq<string>): string {
    if fs == [] then ""
    else if |fs| == 1 then fs[0]
    else fs[0] + " " + JoinFields(fs[1..])
  }

  /** Whitespace in front of a text adds no field. */
  lemma FieldsAfterSpace(c: char, s: string)
    requires IsSpace(c)
    ensures Fields([c] + s) == Fields(s)
  {
    var u := [c] + s;
    assert u[1..] == s;
    assert SpaceRun(u) == 1 + SpaceRun(s);
    assert u[SpaceRun(u)..] == s[SpaceRun(s)..];
  }

  lemma WordRunField(f: string, rest: string)
    requires IsField(f)
    requires rest == [] || IsSpace(rest[0])
    ensures WordRun(f + rest) == |f|
  {
    var s := f + rest;
    assert forall j :: 0 <= j < |f| ==> s[j] == f[j];
    assert rest != [] ==> s[|f|] == rest[0];
  }

  /** A field followed by nothing or by whitespace is split off as the first field. */
  lemma FieldsCons(f: string, rest: string)
    requires IsField(f)
    requires rest == [] || IsSpace(rest[0])
    ensures Fields(f + rest) == [f] + Fields(rest)
  {
    var s := f + rest;
    assert s[0] == f[0];
    assert SpaceRun(s) == 0;
    assert s[0..] == s;
    WordRunField(f, rest);
    assert s[..|f|] == f;
    assert s[|f|..] == rest;
  }

  /** Joining well-formed fields with spaces and splitting again gives the fields back. */
  lemma {:induction false} FieldsJoin(fs: seq<string>)
    requires forall k :: 0 <= k < |fs| ==> IsField(fs[k])
    ensures Fields(JoinFields(fs)) == fs
  {
    if |fs| == 1 {
      FieldsCons(fs[0], "");
      assert fs[0] + "" == fs[0];
    } else if |fs| > 1 {
      var rest := JoinFields(fs[1..]);
      calc {
        Fields(JoinFields(fs));
        { assert JoinFields(fs) == fs[0] + (" " + rest); }
        Fields(fs[0] + (" " + rest));
        { FieldsCons(fs[0], " " + rest); }
        [fs[0]] + Fields(" " + rest);
        { FieldsAfterSpace(' ', rest); assert " " + rest == [' '] + rest; }
        [fs[0]] + Fields(rest);
        { FieldsJoin(fs[1..]); }
        [fs[0]] + fs[1..];
        fs;
      }
    }
  }

  /** `s` is made of whitespace only (possibly nothing). */
  predicate AllSpace(s: string) {
    forall j :: 0 <= j < |s| ==> IsSpace(s[j])
  }

  /** A whole run of whitespace in front of a text adds no field. */
  lemma {:induction false} FieldsAfterSpaces(w: string, s: string)
    requires AllSpace(w)
    ensures Fields(w + s) == Fields(s)
  {
    if w != [] {
      calc {
        Fields(w + s);
        { assert w + s == [w[0]] + (w[1..] + s); }
        Fields([w[0]] + (w[1..] + s));
        { FieldsAfterSpace(w[0], w[1..] + s); }
        Fields(w[1..] + s);
        { FieldsAfterSpaces(w[1..], s); }
        Fields(s);
      }
    } else {
      assert w + s == s;
    }
  }

  /**
   * A line laid out as columns in a table: `gaps[0] + columns[0] + gaps[1] +
   * ... + columns[n-1] + gaps[n]`, where the gaps are the padding.
   */
  function Padded(columns: seq<string>, gaps: seq<string>): string
    requires |gaps| == |columns| + 1
  {
    if columns == [] then gaps[0]
    else gaps[0] + (columns[0] + Padded(columns[1..], gaps[1..]))
  }

  /**
   * Padding that `str.split()` must see through: every gap is whitespace, and
   * the gaps between two columns are not empty; the leading and trailing
   * ones may be.
   */
  predicate IsPadding(columns: seq<string>, gaps: seq<string>) {
    && |gaps| == |columns| + 1
    && (forall i :: 0 <= i < |gaps| ==> AllSpace(gaps[i]))
    && (forall i :: 0 < i < |columns| ==> |gaps[i]| > 0)
  }

  /**
   * Splitting a padded line gives its columns back, however long the runs of
   * blanks around and between them.
   */
  lemma {:induction false} FieldsPadded(columns: seq<string>, gaps: seq<string>)
    requires forall k :: 0 <= k < |columns| ==> IsField(columns[k])
    requires IsPadding(columns, gaps)
    ensures Fields(Padded(columns, gaps)) == columns
  {
    if columns == [] {
      FieldsAfterSpaces(gaps[0], "");
      assert gaps[0] + "" == gaps[0];
    } else {
      var rest := Padded(columns[1..], gaps[1..]);
      assert IsPadding(columns[1..], gaps[1..]) by {
        assert forall i :: 0 <= i < |gaps[1..]| ==> gaps[1..][i] == gaps[i + 1];
      }
      assert rest == [] || IsSpace(rest[0]) by {
        if |columns| > 1 {
          assert rest == gaps[1] + (columns[1] + Padded(columns[2..], gaps[2..]));
          assert rest[0] == gaps[1][0];
        } else {
          assert rest == gaps[1];
          if rest != [] { assert IsSpace(gaps[1][0]); }
        }
      }
      calc {
        Fields(Padded(columns, gaps));
        { FieldsAfterSpaces(gaps[0], columns[0] + rest); }
        Fields(columns[0] + rest);
        { FieldsCons(columns[0], rest); }
        [columns[0]] + Fields(rest);
        { FieldsPadded(columns[1..], gaps[1..]); }
        [columns[0]] + columns[1..];
        columns;
      }
    }
  }

  // ---------------------------------------------------------------- in

  /** `sub` occurs in `s` starting at position `i`. */
  predicate OccursAt(s: string, sub: string, i: nat) {
    i + |sub| <= |s| && s[i..i + |sub|] == sub
  }

  /** `sub in s`: some position of `s` starts an occurrence of `sub`. */
  function Contains(s: string, sub: string): (b: bool)
    ensures b <==> exists i: nat :: OccursAt(s, sub, i)
    decreases |s|
  {
    if |sub| > |s| then false
    else if s[..|sub|] == sub then (assert OccursAt(s, sub, 0); true)
    else
      var b := Contains(s[1..], sub);
      assert forall i: nat :: OccursAt(s[1..], sub, i) <==> OccursAt(s, sub, i + 1) by {
        forall i: nat ensures OccursAt(s[1..], sub, i) <==> OccursAt(s, sub, i + 1) {
          if i + |sub| <= |s[1..]| {
            assert s[1..][i..i + |sub|] == s[i + 1..i + 1 + |sub|];
          }
        }
      }
      assert (exists i: nat :: OccursAt(s, sub, i)) ==> b by {
        if exists i: nat :: OccursAt(s, sub, i) {
          var i: nat :| OccursAt(s, sub, i);
          assert i != 0;
          assert OccursAt(s[1..], sub, i - 1);
        }
      }
      b
  }
}
