/** The editor's text snapshot as the matcher sees it: the whole text and its
    division into lines. Each line has a start offset, a length that excludes
    its line break, and the length of that line break (none on the last line). */
module Snapshots {

  datatype Line = Line(start: nat, length: nat, breakLength: nat)

  /** A highlighted range: start offset and length in the snapshot. */
  datatype Span = Span(start: nat, length: nat)

  datatype Snapshot = Snapshot(text: string, lines: seq<Line>)

  /** Line `i + 1` starts right after line `i` and its one- or two-character
      line break. */
  predicate Follows(lines: seq<Line>, i: nat)
    requires i + 1 < |lines|
  {
    && 1 <= lines[i].breakLength <= 2
    && lines[i + 1].start == lines[i].start + lines[i].length + lines[i].breakLength
  }

  /** A well-formed snapshot: at least one line, the first at offset 0, the
      lines tile the text, and the last line has no line break and ends the
      text. */
  ghost predicate Wf(s: Snapshot)
  {
    && |s.lines| > 0
    && s.lines[0].start == 0
    && (forall i: nat :: i + 1 < |s.lines| ==> Follows(s.lines, i))
    && s.lines[|s.lines| - 1].breakLength == 0
    && s.lines[|s.lines| - 1].start + s.lines[|s.lines| - 1].length == |s.text|
  }

  /** Line starts increase strictly, and every line (with its break) ends
      before the next one starts. */
  lemma {:induction false} StartsIncrease(s: Snapshot, i: nat, j: nat)
    requires Wf(s) && i < j < |s.lines|
    ensures s.lines[i].start + s.lines[i].length + s.lines[i].breakLength <= s.lines[j].start
    ensures s.lines[i].start < s.lines[j].start
    decreases j - i
  {
    assert Follows(s.lines, i);
    if i + 1 < j {
      StartsIncrease(s, i + 1, j);
    }
  }

  /** Every line lies inside the text. */
  lemma LineInText(s: Snapshot, n: nat)
    requires Wf(s) && n < |s.lines|
    ensures s.lines[n].start + s.lines[n].length <= |s.text|
  {
    if n + 1 < |s.lines| {
      StartsIncrease(s, n, |s.lines| - 1);
    }
  }

  /** `ITextSnapshotLine.GetText()`: the line's characters without its break. */
  function LineText(s: Snapshot, n: nat): (r: string)
    requires Wf(s) && n < |s.lines|
    ensures |r| == s.lines[n].length && s.lines[n].start + |r| <= |s.text|
  {
    LineInText(s, n);
    s.text[s.lines[n].start..s.lines[n].start + s.lines[n].length]
  }

  /** The span of a whole line, without its break. */
  function LineSpan(s: Snapshot, n: nat): Span
    requires n < |s.lines|
  {
    Span(s.lines[n].start, s.lines[n].length)
  }

  /** Searches lines `i`, `i - 1`, ..., `0` for the last one starting at or
      before `p`. */
  function LineAtOrBefore(s: Snapshot, p: nat, i: nat): (n: nat)
    requires Wf(s) && i < |s.lines|
    ensures n <= i && s.lines[n].start <= p
    ensures forall k :: n < k <= i ==> p < s.lines[k].start
  {
    if s.lines[i].start <= p || i == 0 then i else LineAtOrBefore(s, p, i - 1)
  }

  /** `GetContainingLine()`: the number of the line whose extent, break
      included, holds offset `p`; offset `|text|` belongs to the last line. */
  function LineOf(s: Snapshot, p: nat): (n: nat)
    requires Wf(s) && p <= |s.text|
    ensures n < |s.lines|
    ensures s.lines[n].start <= p
    ensures p <= s.lines[n].start + s.lines[n].length + s.lines[n].breakLength
    ensures n + 1 < |s.lines| ==> p < s.lines[n + 1].start
  {
    var n := LineAtOrBefore(s, p, |s.lines| - 1);
    assert n + 1 < |s.lines| ==> Follows(s.lines, n);
    n
  }

  /** A line's own start offset lies on that line. */
  lemma LineOfStart(s: Snapshot, n: nat)
    requires Wf(s) && n < |s.lines|
    ensures s.lines[n].start <= |s.text|
    ensures LineOf(s, s.lines[n].start) == n
  {
    LineInText(s, n);
    var m := LineOf(s, s.lines[n].start);
    if n < m {
      StartsIncrease(s, n, m);
    }
  }
}
