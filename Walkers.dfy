/** The two nesting walkers of the tagger, `FindMatchingEndTag` and
    `FindMatchingStartTag`: single-pass bracket matchers over line numbers.
    Each loop is proved against a recursive specification (`ForwardWalk`,
    `BackwardWalk`), and each specification is characterised independently by
    the running nesting balance of the lines it passes. */
module Walkers {
  import opened Snapshots
  import opened Matching

  /** A result that may be missing. */
  datatype Option<T> = None | Some(value: T)

  // ---------------------------------------------------------------------------
  // Forward walk: from a start marker line down the buffer to its end marker
  // ---------------------------------------------------------------------------

  /** The recursive specification of the forward walk from line `n` with the
      counter at `depth`: an end marker line closes when the counter is not
      positive and otherwise decrements it; failing that, a start marker line
      increments it. End is tested before start. */
  function ForwardWalk(marks: seq<Marks>, n: nat, depth: int): (r: Option<nat>)
    requires n <= |marks|
    ensures r.Some? ==> n <= r.value < |marks| && marks[r.value].end
    decreases |marks| - n
  {
    if n == |marks| then None
    else if marks[n].end then
      if depth > 0 then ForwardWalk(marks, n + 1, depth - 1) else Some(n)
    else if marks[n].start then ForwardWalk(marks, n + 1, depth + 1)
    else ForwardWalk(marks, n + 1, depth)
  }

  /** One step of the forward walk. */
  lemma ForwardStep(marks: seq<Marks>, n: nat, depth: int)
    requires n < |marks|
    ensures ForwardWalk(marks, n, depth) ==
      if marks[n].end && depth <= 0 then Some(n) else ForwardWalk(marks, n + 1, depth + FwdDelta(marks, n))
  {
  }

  /** The partner of the start marker on line `t`, if any. */
  function MatchingEndLine(marks: seq<Marks>, t: nat): Option<nat>
    requires t < |marks|
  {
    ForwardWalk(marks, t, -1)
  }

  /** How a line moves the forward counter. */
  function FwdDelta(marks: seq<Marks>, n: nat): int
    requires n < |marks|
  {
    if marks[n].end then -1 else if marks[n].start then 1 else 0
  }

  /** The net forward balance of lines `lo .. hi - 1`. */
  function FwdSum(marks: seq<Marks>, lo: nat, hi: nat): int
    requires lo <= hi <= |marks|
    decreases hi - lo
  {
    if lo == hi then 0 else FwdDelta(marks, lo) + FwdSum(marks, lo + 1, hi)
  }

  /** Line `m` closes a walk begun at line `n` with counter `depth`: it is an
      end marker line and the balance of the lines before it does not keep the
      counter positive. */
  predicate ClosesAt(marks: seq<Marks>, n: nat, depth: int, m: nat)
    requires n <= |marks|
  {
    n <= m < |marks| && marks[m].end && depth + FwdSum(marks, n, m) <= 0
  }

  /** `m` is the first line that closes the walk. */
  predicate FirstClose(marks: seq<Marks>, n: nat, depth: int, m: nat)
    requires n <= |marks|
  {
    ClosesAt(marks, n, depth, m) && forall k :: n <= k < m ==> !ClosesAt(marks, n, depth, k)
  }

  predicate NoClose(marks: seq<Marks>, n: nat, depth: int)
    requires n <= |marks|
  {
    forall k :: n <= k < |marks| ==> !ClosesAt(marks, n, depth, k)
  }

  /** The forward walk returns exactly the first closing line, and fails
      exactly when no line closes. */
  lemma {:induction false} ForwardWalkIsFirstClose(marks: seq<Marks>, n: nat, depth: int)
    requires n <= |marks|
    ensures forall m: nat :: ForwardWalk(marks, n, depth) == Some(m) <==> FirstClose(marks, n, depth, m)
    ensures ForwardWalk(marks, n, depth) == None <==> NoClose(marks, n, depth)
    decreases |marks| - n
  {
    if n < |marks| {
      var d := depth + FwdDelta(marks, n);
      forall k | n < k < |marks|
        ensures ClosesAt(marks, n, depth, k) == ClosesAt(marks, n + 1, d, k)
      {
        assert FwdSum(marks, n, k) == FwdDelta(marks, n) + FwdSum(marks, n + 1, k);
      }
      if !(marks[n].end && depth <= 0) {
        assert !ClosesAt(marks, n, depth, n);
        ForwardWalkIsFirstClose(marks, n + 1, d);
        assert ForwardWalk(marks, n, depth) == ForwardWalk(marks, n + 1, d);
        var next := n + 1;
        forall m: nat | FirstClose(marks, n, depth, m) ensures FirstClose(marks, next, d, m) {
          forall k | next <= k < m ensures !ClosesAt(marks, next, d, k) {
            assert !ClosesAt(marks, n, depth, k);
          }
        }
        forall m: nat | FirstClose(marks, next, d, m) ensures FirstClose(marks, n, depth, m) {
          forall k | n <= k < m ensures !ClosesAt(marks, n, depth, k) {
            if k > n {
              assert !ClosesAt(marks, n + 1, d, k);
            }
          }
        }
      } else {
        assert ClosesAt(marks, n, depth, n);
      }
    }
  }

  // ---------------------------------------------------------------------------
  // Backward walk: from an end marker line up the buffer to its start marker
  // ---------------------------------------------------------------------------

  /** The recursive specification of the backward walk from line `n` (down to
      line 0) with the counter at `depth`: a start marker line opens when the
      counter is not positive and otherwise decrements it; failing that, an
      end marker line increments it. Start is tested before end. */
  function BackwardWalk(marks: seq<Marks>, n: int, depth: int): (r: Option<nat>)
    requires -1 <= n < |marks|
    ensures r.Some? ==> r.value <= n && marks[r.value].start
    decreases n + 1
  {
    if n < 0 then None
    else if marks[n].start then
      if depth > 0 then BackwardWalk(marks, n - 1, depth - 1) else Some(n)
    else if marks[n].end then BackwardWalk(marks, n - 1, depth + 1)
    else BackwardWalk(marks, n - 1, depth)
  }

  /** One step of the backward walk. */
  lemma BackwardStep(marks: seq<Marks>, n: nat, depth: int)
    requires n < |marks|
    ensures BackwardWalk(marks, n, depth) ==
      if marks[n].start && depth <= 0 then Some(n) else BackwardWalk(marks, n - 1, depth + BwdDelta(marks, n))
  {
  }

  /** The partner of the end marker on line `t`, if any. */
  function MatchingStartLine(marks: seq<Marks>, t: nat): Option<nat>
    requires t < |marks|
  {
    BackwardWalk(marks, t, -1)
  }

  /** How a line moves the backward counter. */
  function BwdDelta(marks: seq<Marks>, n: nat): int
    requires n < |marks|
  {
    if marks[n].start then -1 else if marks[n].end then 1 else 0
  }

  /** The net backward balance of lines `lo + 1 .. hi`. */
  function BwdSum(marks: seq<Marks>, lo: int, hi: int): int
    requires -1 <= lo <= hi < |marks|
    decreases hi - lo
  {
    if lo == hi then 0 else BwdDelta(marks, hi) + BwdSum(marks, lo, hi - 1)
  }

  /** Line `m` opens a backward walk begun at line `n` with counter `depth`. */
  predicate OpensAt(marks: seq<Marks>, n: int, depth: int, m: int)
    requires -1 <= n < |marks|
  {
    0 <= m <= n && marks[m].start && depth + BwdSum(marks, m, n) <= 0
  }

  /** `m` is the first line, walking down, that opens the walk. */
  predicate FirstOpen(marks: seq<Marks>, n: int, depth: int, m: int)
    requires -1 <= n < |marks|
  {
    OpensAt(marks, n, depth, m) && forall k :: m < k <= n ==> !OpensAt(marks, n, depth, k)
  }

  predicate NoOpen(marks: seq<Marks>, n: int, depth: int)
    requires -1 <= n < |marks|
  {
    forall k :: 0 <= k <= n ==> !OpensAt(marks, n, depth, k)
  }

  /** The backward walk returns exactly the first opening line, and fails
      exactly when no line opens. */
  lemma {:induction false} BackwardWalkIsFirstOpen(marks: seq<Marks>, n: int, depth: int)
    requires -1 <= n < |marks|
    ensures forall m: nat :: BackwardWalk(marks, n, depth) == Some(m) <==> FirstOpen(marks, n, depth, m)
    ensures BackwardWalk(marks, n, depth) == None <==> NoOpen(marks, n, depth)
    decreases n + 1
  {
    if 0 <= n {
      var d := depth + BwdDelta(marks, n);
      forall k | 0 <= k < n
        ensures OpensAt(marks, n, depth, k) == OpensAt(marks, n - 1, d, k)
      {
        assert BwdSum(marks, k, n) == BwdDelta(marks, n) + BwdSum(marks, k, n - 1);
      }
      if !(marks[n].start && depth <= 0) {
        assert !OpensAt(marks, n, depth, n);
        BackwardWalkIsFirstOpen(marks, n - 1, d);
        assert BackwardWalk(marks, n, depth) == BackwardWalk(marks, n - 1, d);
        var next := n - 1;
        forall m | FirstOpen(marks, n, depth, m) ensures FirstOpen(marks, next, d, m) {
          forall k | m < k <= next ensures !OpensAt(marks, next, d, k) {
            assert !OpensAt(marks, n, depth, k);
          }
        }
        forall m | FirstOpen(marks, n - 1, d, m) ensures FirstOpen(marks, n, depth, m) {
          forall k | m < k <= n ensures !OpensAt(marks, n, depth, k) {
            if k < n {
              assert !OpensAt(marks, n - 1, d, k);
            }
          }
        }
      } else {
        assert OpensAt(marks, n, depth, n);
      }
    }
  }

  // ---------------------------------------------------------------------------
  // Properties of the pairing
  // ---------------------------------------------------------------------------

  /** A line that holds both markers pairs with itself in both directions:
      the forward walk tests end first and the backward walk tests start
      first, each with the counter at -1. */
  lemma SelfPairing(marks: seq<Marks>, n: nat)
    requires n < |marks| && marks[n].start && marks[n].end
    ensures MatchingEndLine(marks, n) == Some(n)
    ensures MatchingStartLine(marks, n) == Some(n)
  {
  }

  /** Nested pairs: on four consecutive lines holding start, start, end, end
      (each only that marker), the outer lines pair with each other and the
      inner lines pair with each other, in both directions. */
  lemma NestedPairs(marks: seq<Marks>, i: nat)
    requires i + 3 < |marks|
    requires marks[i] == Marks(true, false) && marks[i + 1] == Marks(true, false)
    requires marks[i + 2] == Marks(false, true) && marks[i + 3] == Marks(false, true)
    ensures MatchingEndLine(marks, i) == Some(i + 3)
    ensures MatchingEndLine(marks, i + 1) == Some(i + 2)
    ensures MatchingStartLine(marks, i + 3) == Some(i)
    ensures MatchingStartLine(marks, i + 2) == Some(i + 1)
  {
    ForwardStep(marks, i, -1);
    ForwardStep(marks, i + 1, 0);
    ForwardStep(marks, i + 2, 1);
    ForwardStep(marks, i + 3, 0);
    ForwardStep(marks, i + 1, -1);
    ForwardStep(marks, i + 2, 0);
    BackwardStep(marks, i + 3, -1);
    BackwardStep(marks, i + 2, 0);
    BackwardStep(marks, i + 1, 1);
    BackwardStep(marks, i, 0);
    BackwardStep(marks, i + 2, -1);
    BackwardStep(marks, i + 1, 0);
  }

  /** A forward walk with the counter not positive, passing only lines
      without markers, stops at the first end marker line. */
  lemma {:induction false} ForwardAcrossPlainLines(marks: seq<Marks>, k: nat, m: nat, depth: int)
    requires k <= m < |marks| && marks[m].end && depth <= 0
    requires forall j :: k <= j < m ==> marks[j] == Marks(false, false)
    ensures ForwardWalk(marks, k, depth) == Some(m)
    decreases m - k
  {
    if k < m {
      ForwardAcrossPlainLines(marks, k + 1, m, depth);
    }
  }

  /** A backward walk with the counter not positive, passing only lines
      without markers, stops at the first start marker line. */
  lemma {:induction false} BackwardAcrossPlainLines(marks: seq<Marks>, k: nat, t: nat, depth: int)
    requires t <= k < |marks| && marks[t].start && depth <= 0
    requires forall j :: t < j <= k ==> marks[j] == Marks(false, false)
    ensures BackwardWalk(marks, k, depth) == Some(t)
    decreases k - t
  {
    if t < k {
      BackwardAcrossPlainLines(marks, k - 1, t, depth);
    }
  }

  /** A start line and a later end line with only unmarked lines between
      them pair with each other in both directions. */
  lemma PairAcrossPlainLines(marks: seq<Marks>, t: nat, m: nat)
    requires t < m < |marks|
    requires marks[t] == Marks(true, false) && marks[m] == Marks(false, true)
    requires forall j :: t < j < m ==> marks[j] == Marks(false, false)
    ensures MatchingEndLine(marks, t) == Some(m)
    ensures MatchingStartLine(marks, m) == Some(t)
  {
    ForwardStep(marks, t, -1);
    ForwardAcrossPlainLines(marks, t + 1, m, 0);
    BackwardStep(marks, m, -1);
    BackwardAcrossPlainLines(marks, m - 1, t, 0);
  }

  /** A forward walk that meets no end marker line finds nothing. */
  lemma {:induction false} NoEndNoPartner(marks: seq<Marks>, n: nat, depth: int)
    requires n <= |marks|
    requires forall k :: n <= k < |marks| ==> !marks[k].end
    ensures ForwardWalk(marks, n, depth) == None
    decreases |marks| - n
  {
    if n < |marks| {
      NoEndNoPartner(marks, n + 1, depth + FwdDelta(marks, n));
    }
  }

  /** A backward walk that meets no start marker line finds nothing. */
  lemma {:induction false} NoStartNoPartner(marks: seq<Marks>, n: int, depth: int)
    requires -1 <= n < |marks|
    requires forall k :: 0 <= k <= n ==> !marks[k].start
    ensures BackwardWalk(marks, n, depth) == None
    decreases n + 1
  {
    if 0 <= n {
      NoStartNoPartner(marks, n - 1, depth + BwdDelta(marks, n));
    }
  }

  /** No line in `lo .. hi` holds both markers. */
  predicate Simple(marks: seq<Marks>, lo: nat, hi: nat)
    requires hi < |marks|
  {
    forall k :: lo <= k <= hi ==> !(marks[k].start && marks[k].end)
  }

  lemma {:induction false} FwdSumSplit(marks: seq<Marks>, lo: nat, mid: nat, hi: nat)
    requires lo <= mid <= hi <= |marks|
    ensures FwdSum(marks, lo, hi) == FwdSum(marks, lo, mid) + FwdSum(marks, mid, hi)
    decreases mid - lo
  {
    if lo < mid {
      FwdSumSplit(marks, lo + 1, mid, hi);
    }
  }

  lemma {:induction false} BwdSumSplit(marks: seq<Marks>, lo: int, mid: int, hi: int)
    requires -1 <= lo <= mid <= hi < |marks|
    ensures BwdSum(marks, lo, hi) == BwdSum(marks, lo, mid) + BwdSum(marks, mid, hi)
    decreases hi - mid
  {
    if mid < hi {
      BwdSumSplit(marks, lo, mid, hi - 1);
    }
  }

  /** Over lines that never hold both markers, the backward balance is the
      forward balance negated. */
  lemma {:induction false} BwdIsNegatedFwd(marks: seq<Marks>, lo: nat, hi: nat)
    requires lo <= hi < |marks| && Simple(marks, lo, hi)
    ensures BwdSum(marks, lo, hi) == -FwdSum(marks, lo + 1, hi + 1)
    decreases hi - lo
  {
    if lo < hi {
      BwdIsNegatedFwd(marks, lo, hi - 1);
      FwdSumSplit(marks, lo + 1, hi, hi + 1);
    }
  }

  /** Between a start line `t` and its forward partner `m`, the balance of the
      lines after `t` never drops below zero. */
  lemma {:induction false} ForwardBalanceStaysNonNegative(marks: seq<Marks>, t: nat, m: nat, k: nat)
    requires t < |marks| && marks[t].start && !marks[t].end
    requires FirstClose(marks, t, -1, m) && t + 1 <= k <= m
    ensures FwdSum(marks, t + 1, k) >= 0
    decreases k - t
  {
    if t + 1 < k {
      ForwardBalanceStaysNonNegative(marks, t, m, k - 1);
      FwdSumSplit(marks, t + 1, k - 1, k);
      FwdSumSplit(marks, t, t + 1, k - 1);
      assert !ClosesAt(marks, t, -1, k - 1);
    }
  }

  /** Between an end line `m` and its backward partner `t`, the backward
      balance of the lines before `m` never drops below zero. */
  lemma {:induction false} BackwardBalanceStaysNonNegative(marks: seq<Marks>, m: nat, t: nat, k: nat)
    requires m < |marks| && marks[m].end && !marks[m].start
    requires FirstOpen(marks, m, -1, t) && t <= k <= m - 1
    ensures BwdSum(marks, k, m - 1) >= 0
    decreases m - k
  {
    if k < m - 1 {
      BackwardBalanceStaysNonNegative(marks, m, t, k + 1);
      BwdSumSplit(marks, k, k + 1, m - 1);
      BwdSumSplit(marks, k + 1, m - 1, m);
      assert !OpensAt(marks, m, -1, k + 1);
    }
  }

  /** Pairing is mutual: when the forward walk from start line `t` stops at
      line `m` and no line from `t` to `m` holds both markers, the backward
      walk from `m` stops at `t`. */
  lemma EndPartnerPairsBack(marks: seq<Marks>, t: nat, m: nat)
    requires t < |marks| && marks[t].start
    requires MatchingEndLine(marks, t) == Some(m)
    requires m < |marks| && Simple(marks, t, m)
    ensures MatchingStartLine(marks, m) == Some(t)
  {
    ForwardWalkIsFirstClose(marks, t, -1);
    assert FirstClose(marks, t, -1, m);
    assert t < m by { assert !marks[t].end; }
    FwdSumSplit(marks, t, t + 1, m);
    ForwardBalanceStaysNonNegative(marks, t, m, m);
    assert FwdSum(marks, t + 1, m) == 0;
    FwdSumSplit(marks, t + 1, m, m + 1);
    BwdIsNegatedFwd(marks, t, m);
    assert OpensAt(marks, m, -1, t);
    forall k | t < k <= m ensures !OpensAt(marks, m, -1, k) {
      if marks[k].start {
        assert k < m;
        ForwardBalanceStaysNonNegative(marks, t, m, k);
        FwdSumSplit(marks, t + 1, k, k + 1);
        FwdSumSplit(marks, t + 1, k + 1, m + 1);
        BwdIsNegatedFwd(marks, k, m);
      }
    }
    assert FirstOpen(marks, m, -1, t);
    BackwardWalkIsFirstOpen(marks, m, -1);
  }

  /** The converse: when the backward walk from end line `m` stops at line
      `t` and no line from `t` to `m` holds both markers, the forward walk
      from `t` stops at `m`. */
  lemma StartPartnerPairsBack(marks: seq<Marks>, m: nat, t: nat)
    requires m < |marks| && marks[m].end
    requires MatchingStartLine(marks, m) == Some(t)
    requires Simple(marks, t, m)
    ensures MatchingEndLine(marks, t) == Some(m)
  {
    BackwardWalkIsFirstOpen(marks, m, -1);
    assert FirstOpen(marks, m, -1, t);
    assert t < m by { assert !marks[m].start; }
    BwdSumSplit(marks, t, m - 1, m);
    BackwardBalanceStaysNonNegative(marks, m, t, t);
    assert BwdSum(marks, t, m - 1) == 0;
    BwdIsNegatedFwd(marks, t, m - 1);
    FwdSumSplit(marks, t, t + 1, m);
    assert ClosesAt(marks, t, -1, m);
    forall k | t <= k < m ensures !ClosesAt(marks, t, -1, k) {
      if marks[k].end && t < k {
        BackwardBalanceStaysNonNegative(marks, m, t, k);
        BwdSumSplit(marks, t, k - 1, k);
        BwdSumSplit(marks, t, k, m - 1);
        BwdIsNegatedFwd(marks, t, k - 1);
        FwdSumSplit(marks, t, t + 1, k);
      }
    }
    assert FirstClose(marks, t, -1, m);
    ForwardWalkIsFirstClose(marks, t, -1);
  }

  // ---------------------------------------------------------------------------
  // The walkers as the tagger runs them
  // ---------------------------------------------------------------------------

  /** `FindMatchingEndTag`: walks from the line holding `p` towards the last
      line, recognising each line through a point at its start, and returns
      the span of the forward partner; the walk visits the trigger line and
      then each following line once, in order, and stops at the partner or
      after the last line. On failure the span is the placeholder (1, 1). */
  method FindMatchingEndTag(s: Snapshot, p: nat) returns (found: bool, pairedSpan: Span, ghost visited: seq<int>)
    requires Wf(s) && p <= |s.text|
    ensures found == MatchingEndLine(LineMarks(s), LineOf(s, p)).Some?
    ensures found ==> pairedSpan == LineSpan(s, MatchingEndLine(LineMarks(s), LineOf(s, p)).value)
    ensures !found ==> pairedSpan == Span(1, 1)
    ensures |visited| == (if found then MatchingEndLine(LineMarks(s), LineOf(s, p)).value + 1
                          else |s.lines|) - LineOf(s, p)
    ensures forall i :: 0 <= i < |visited| ==> visited[i] == LineOf(s, p) + i
  {
    var line := s.lines[LineOf(s, p)];
    var lineNumber := LineOf(s, p);
    var walkPosition := line.start;
    var walkStopNumber := |s.lines| - 1;
    var startTagCount := -1;
    ghost var marks := LineMarks(s);
    ghost var trigger := lineNumber;
    pairedSpan := Span(1, 1);
    visited := [];
    while true
      invariant trigger <= lineNumber <= walkStopNumber
      invariant line == s.lines[lineNumber] && walkPosition == line.start
      invariant ForwardWalk(marks, lineNumber, startTagCount) == ForwardWalk(marks, trigger, -1)
      invariant |visited| == lineNumber - trigger
      invariant forall i :: 0 <= i < |visited| ==> visited[i] == trigger + i
      invariant pairedSpan == Span(1, 1)
      decreases walkStopNumber - lineNumber
    {
      RecogniseAtLineStart(s, lineNumber);
      visited := visited + [lineNumber];
      ForwardStep(marks, lineNumber, startTagCount);
      ghost var next := startTagCount + FwdDelta(marks, lineNumber);
      if IsCaretAtEndTag(s, walkPosition) {
        if startTagCount > 0 {
          startTagCount := startTagCount - 1;
        } else {
          pairedSpan := Span(walkPosition, line.length);
          return true, pairedSpan, visited;
        }
      } else if IsCaretAtStartTag(s, walkPosition) {
        startTagCount := startTagCount + 1;
      }
      assert startTagCount == next;
      lineNumber := lineNumber + 1;
      if lineNumber > walkStopNumber {
        break;
      }
      line := s.lines[lineNumber];
      walkPosition := line.start;
    }
    found := false;
  }

  /** `FindMatchingStartTag`: the mirror of `FindMatchingEndTag`, walking from
      the line holding `p` towards line 0 and returning the span of the
      backward partner; the walk visits the trigger line and then each
      preceding line once, in decreasing order, and stops at the partner or
      after line 0. */
  method FindMatchingStartTag(s: Snapshot, p: nat) returns (found: bool, pairedSpan: Span, ghost visited: seq<int>)
    requires Wf(s) && p <= |s.text|
    ensures found == MatchingStartLine(LineMarks(s), LineOf(s, p)).Some?
    ensures found ==> pairedSpan == LineSpan(s, MatchingStartLine(LineMarks(s), LineOf(s, p)).value)
    ensures !found ==> pairedSpan == Span(1, 1)
    ensures |visited| == LineOf(s, p) + 1
                         - (if found then MatchingStartLine(LineMarks(s), LineOf(s, p)).value else 0)
    ensures forall i :: 0 <= i < |visited| ==> visited[i] == LineOf(s, p) - i
  {
    var line := s.lines[LineOf(s, p)];
    var lineNumber: int := LineOf(s, p);
    var walkPosition := line.start;
    var walkStopNumber := 0;
    var endTagCount := -1;
    ghost var marks := LineMarks(s);
    ghost var trigger := lineNumber;
    pairedSpan := Span(1, 1);
    visited := [];
    while true
      invariant walkStopNumber <= lineNumber <= trigger
      invariant line == s.lines[lineNumber] && walkPosition == line.start
      invariant BackwardWalk(marks, lineNumber, endTagCount) == BackwardWalk(marks, trigger, -1)
      invariant |visited| == trigger - lineNumber
      invariant forall i :: 0 <= i < |visited| ==> visited[i] == trigger - i
      invariant pairedSpan == Span(1, 1)
      decreases lineNumber - walkStopNumber
    {
      RecogniseAtLineStart(s, lineNumber);
      visited := visited + [lineNumber];
      BackwardStep(marks, lineNumber, endTagCount);
      if IsCaretAtStartTag(s, walkPosition) {
        if endTagCount > 0 {
          endTagCount := endTagCount - 1;
        } else {
          pairedSpan := Span(walkPosition, line.length);
          return true, pairedSpan, visited;
        }
      } else if IsCaretAtEndTag(s, walkPosition) {
        endTagCount := endTagCount + 1;
      }
      lineNumber := lineNumber - 1;
      if lineNumber < walkStopNumber {
        break;
      }
      line := s.lines[lineNumber];
      walkPosition := line.start;
    }
    found := false;
  }
}
