/** The tagger object: the point it remembers, the events that move that
    point, and the tag query that highlights a marker line together with its
    partner. */
module Tagger {
  import opened Snapshots
  import opened Matching
  import opened Walkers

  /** A position in a snapshot (`SnapshotPoint`). */
  datatype Point = Point(snapshot: Snapshot, position: nat)

  ghost predicate ValidPoint(pt: Point)
  {
    Wf(pt.snapshot) && pt.position <= |pt.snapshot.text|
  }

  ghost predicate ValidOptionalPoint(pt: Option<Point>)
  {
    pt.Some? ==> ValidPoint(pt.value)
  }

  /** A highlighted span and the name of its marker tag. */
  datatype TagSpan = TagSpan(span: Span, tag: string)

  /** The name of the marker tag put on both highlighted lines. */
  const MarkerTag: string := "blue"

  /** The character that triggers highlighting. */
  const MatchTrigger: char := '<'

  // ---------------------------------------------------------------------------
  // What the tag query highlights, stated on values
  // ---------------------------------------------------------------------------

  /** The point the query inspects for position `p`: `p` itself when it holds
      the trigger character, otherwise the point before it (the same point at
      offset 0) when that one holds it. */
  function TriggerPoint(s: Snapshot, p: nat): (r: Option<nat>)
    requires p < |s.text|
    ensures r.Some? ==> r.value <= p && s.text[r.value] == MatchTrigger
    ensures r.Some? ==> r.value == p || r.value + 1 == p
    ensures s.text[p] == MatchTrigger ==> r == Some(p)
    ensures r.None? <==> s.text[p] != MatchTrigger && (p == 0 || s.text[p - 1] != MatchTrigger)
  {
    var previous := if p == 0 then p else p - 1;
    if s.text[p] == MatchTrigger then Some(p)
    else if s.text[previous] == MatchTrigger then Some(previous)
    else None
  }

  /** The two spans highlighted for a trigger at point `q`: the line holding
      `q` and its partner line. The forward partner is tried first, and only
      for a start marker line; failing that, the backward partner, and only
      for an end marker line. */
  ghost function HighlightAt(s: Snapshot, q: nat): seq<Span>
    requires Wf(s) && q <= |s.text|
  {
    var n := LineOf(s, q);
    if IsCaretAtStartTag(s, q) && MatchingEndLine(LineMarks(s), n).Some? then
      [LineSpan(s, n), LineSpan(s, MatchingEndLine(LineMarks(s), n).value)]
    else if IsCaretAtEndTag(s, q) && MatchingStartLine(LineMarks(s), n).Some? then
      [LineSpan(s, n), LineSpan(s, MatchingStartLine(LineMarks(s), n).value)]
    else []
  }

  /** The spans highlighted with the caret at position `p`. */
  ghost function Highlight(s: Snapshot, p: nat): seq<Span>
    requires Wf(s) && p < |s.text|
  {
    match TriggerPoint(s, p)
    case None => []
    case Some(q) => HighlightAt(s, q)
  }

  /** The partner of line `n`, stated without the walkers: the first line
      that closes a forward walk from a start marker line when there is one,
      otherwise, for an end marker line, the first line that opens a backward
      walk. */
  ghost predicate Partner(s: Snapshot, n: nat, m: nat)
    requires Wf(s) && n < |s.lines|
  {
    var marks := LineMarks(s);
    if marks[n].start && !NoClose(marks, n, -1) then FirstClose(marks, n, -1, m)
    else marks[n].end && FirstOpen(marks, n, -1, m)
  }

  /** Different lines have different spans, and the earlier line's span
      ends, with at least its line break, before the later one starts. */
  lemma LineSpansDisjoint(s: Snapshot, i: nat, j: nat)
    requires Wf(s) && i < |s.lines| && j < |s.lines| && i != j
    ensures LineSpan(s, i) != LineSpan(s, j)
    ensures i < j ==> LineSpan(s, i).start + LineSpan(s, i).length < LineSpan(s, j).start
  {
    if i < j {
      assert Follows(s.lines, i);
      StartsIncrease(s, i, j);
    } else {
      StartsIncrease(s, j, i);
    }
  }

  /** What the query highlights: nothing unless the caret is on or just after
      the trigger character; then either nothing, exactly when the trigger
      line has no partner, or the trigger line followed by its partner line. */
  lemma HighlightIsLineAndPartner(s: Snapshot, p: nat)
    requires Wf(s) && p < |s.text|
    ensures TriggerPoint(s, p).None? ==> Highlight(s, p) == []
    ensures TriggerPoint(s, p).Some? ==>
      var n := LineOf(s, TriggerPoint(s, p).value);
      && (Highlight(s, p) == [] <==> forall m: nat :: m < |s.lines| ==> !Partner(s, n, m))
      && (forall m: nat :: m < |s.lines| ==>
            (Highlight(s, p) == [LineSpan(s, n), LineSpan(s, m)] <==> Partner(s, n, m)))
  {
    if TriggerPoint(s, p).Some? {
      var q := TriggerPoint(s, p).value;
      var n := LineOf(s, q);
      var marks := LineMarks(s);
      LineMarksAt(s, n);
      ForwardWalkIsFirstClose(marks, n, -1);
      BackwardWalkIsFirstOpen(marks, n, -1);
      forall m: nat | m < |s.lines|
        ensures Highlight(s, p) == [LineSpan(s, n), LineSpan(s, m)] <==> Partner(s, n, m)
      {
        if Highlight(s, p) == [LineSpan(s, n), LineSpan(s, m)] {
          var other := if marks[n].start && MatchingEndLine(marks, n).Some?
            then MatchingEndLine(marks, n).value else MatchingStartLine(marks, n).value;
          assert LineSpan(s, other) == LineSpan(s, m);
          if other != m {
            LineSpansDisjoint(s, other, m);
          }
        }
      }
    }
  }

  /** The partner of a line holding only one marker is another line. */
  lemma PartnerIsAnotherLine(s: Snapshot, n: nat, m: nat)
    requires Wf(s) && n < |s.lines| && m < |s.lines|
    requires !(LineMarks(s)[n].start && LineMarks(s)[n].end)
    requires Partner(s, n, m)
    ensures n != m
  {
  }

  /** When the trigger line holds only one marker, the two highlighted spans
      do not overlap. */
  lemma HighlightSpansDisjoint(s: Snapshot, p: nat)
    requires Wf(s) && p < |s.text| && TriggerPoint(s, p).Some?
    requires !(LineMarks(s)[LineOf(s, TriggerPoint(s, p).value)].start
               && LineMarks(s)[LineOf(s, TriggerPoint(s, p).value)].end)
    requires Highlight(s, p) != []
    ensures |Highlight(s, p)| == 2
    ensures var h := Highlight(s, p);
      || h[0].start + h[0].length < h[1].start
      || h[1].start + h[1].length < h[0].start
  {
    var n := LineOf(s, TriggerPoint(s, p).value);
    var marks := LineMarks(s);
    LineMarksAt(s, n);
    var m := if IsCaretAtStartTag(s, TriggerPoint(s, p).value) && MatchingEndLine(marks, n).Some?
      then MatchingEndLine(marks, n).value else MatchingStartLine(marks, n).value;
    assert Highlight(s, p) == [LineSpan(s, n), LineSpan(s, m)];
    if n < m {
      LineSpansDisjoint(s, n, m);
    } else if m < n {
      LineSpansDisjoint(s, m, n);
    }
  }

  /** Highlighting is symmetric: when a trigger on line `n` highlights `n`
      and line `m`, and no line between them holds both markers, a trigger
      anywhere on line `m` highlights `m` and `n`. */
  lemma HighlightIsSymmetric(s: Snapshot, q: nat, r: nat)
    requires Wf(s) && q <= |s.text| && r <= |s.text|
    requires HighlightAt(s, q) == [LineSpan(s, LineOf(s, q)), LineSpan(s, LineOf(s, r))]
    requires LineOf(s, q) <= LineOf(s, r) ==> Simple(LineMarks(s), LineOf(s, q), LineOf(s, r))
    requires LineOf(s, r) <= LineOf(s, q) ==> Simple(LineMarks(s), LineOf(s, r), LineOf(s, q))
    ensures HighlightAt(s, r) == [LineSpan(s, LineOf(s, r)), LineSpan(s, LineOf(s, q))]
  {
    var n := LineOf(s, q);
    var m := LineOf(s, r);
    var marks := LineMarks(s);
    LineMarksAt(s, n);
    LineMarksAt(s, m);
    if IsCaretAtStartTag(s, q) && MatchingEndLine(marks, n).Some? {
      var other := MatchingEndLine(marks, n).value;
      if other != m {
        LineSpansDisjoint(s, other, m);
      }
      assert !marks[m].start;
      EndPartnerPairsBack(marks, n, m);
    } else {
      var other := MatchingStartLine(marks, n).value;
      if other != m {
        LineSpansDisjoint(s, other, m);
      }
      assert !marks[m].end;
      StartPartnerPairsBack(marks, n, m);
    }
  }

  // ---------------------------------------------------------------------------
  // The tagger
  // ---------------------------------------------------------------------------

  /** The refresh notification an update raises: the whole snapshot of the
      new point, when there is a point and someone subscribes. */
  function Refresh(pt: Option<Point>, subscribed: bool): seq<Span>
  {
    if pt.Some? && subscribed then [Span(0, |pt.value.snapshot.text|)] else []
  }

  /** `KoTagger`: remembers the caret point while enabled and answers tag
      queries for it. `tagsChanged` records, in order, the span of every
      refresh notification raised to subscribers. */
  class KoTagger {
    const isEnabled: bool
    const taggerMatchTrigger: char
    var currentChar: Option<Point>
    var tagsChanged: seq<Span>

    ghost predicate Valid()
      reads this
    {
      && taggerMatchTrigger == MatchTrigger
      && ValidOptionalPoint(currentChar)
      && (!isEnabled ==> currentChar.None? && tagsChanged == [])
    }

    /** The enabled flag is read once from the settings; no point is known
        yet. */
    constructor (settingsEnabled: bool)
      ensures Valid()
      ensures isEnabled == settingsEnabled
      ensures currentChar.None? && tagsChanged == []
    {
      isEnabled := settingsEnabled;
      taggerMatchTrigger := '<';
      currentChar := None;
      tagsChanged := [];
    }

    /** `UpdateAtCaretPosition`: remembers the caret's point in the buffer
        (none when the caret cannot be mapped into it) and, when there is a
        point and someone subscribes, raises a refresh of the whole current
        snapshot. */
    method UpdateAtCaretPosition(bufferPoint: Option<Point>, subscribed: bool)
      requires Valid() && isEnabled && ValidOptionalPoint(bufferPoint)
      modifies this
      ensures Valid()
      ensures currentChar == bufferPoint
      ensures tagsChanged == old(tagsChanged) + Refresh(bufferPoint, subscribed)
    {
      currentChar := bufferPoint;
      if currentChar.None? {
        return;
      }
      if subscribed {
        tagsChanged := tagsChanged + [Span(0, |currentChar.value.snapshot.text|)];
      }
    }

    /** `CaretPositionChanged`: ignored when disabled, otherwise an update at
        the new caret position. */
    method CaretPositionChanged(newPosition: Option<Point>, subscribed: bool)
      requires Valid() && ValidOptionalPoint(newPosition)
      modifies this
      ensures Valid()
      ensures !isEnabled ==> currentChar == old(currentChar) && tagsChanged == old(tagsChanged)
      ensures isEnabled ==> currentChar == newPosition
      ensures isEnabled ==> tagsChanged == old(tagsChanged) + Refresh(newPosition, subscribed)
    {
      if !isEnabled {
        return;
      }
      UpdateAtCaretPosition(newPosition, subscribed);
    }

    /** `ViewLayoutChanged`: ignored when disabled or when the snapshot did
        not change, otherwise an update at the caret's current position. */
    method ViewLayoutChanged(snapshotChanged: bool, caretPosition: Option<Point>, subscribed: bool)
      requires Valid() && ValidOptionalPoint(caretPosition)
      modifies this
      ensures Valid()
      ensures !(isEnabled && snapshotChanged) ==>
        currentChar == old(currentChar) && tagsChanged == old(tagsChanged)
      ensures isEnabled && snapshotChanged ==> currentChar == caretPosition
      ensures isEnabled && snapshotChanged ==> tagsChanged == old(tagsChanged) + Refresh(caretPosition, subscribed)
    {
      if !isEnabled {
        return;
      }
      if snapshotChanged {
        UpdateAtCaretPosition(caretPosition, subscribed);
      }
    }

    /** `GetTags`: nothing for an empty span collection, an unknown point or
        a point at the end of the buffer; otherwise the spans `Highlight`
        gives for the remembered point, each with the marker tag. */
    method GetTags(spanCount: nat) returns (tags: seq<TagSpan>)
      requires Valid()
      ensures |tags| == 0 || |tags| == 2
      ensures forall i :: 0 <= i < |tags| ==> tags[i].tag == MarkerTag
      ensures !isEnabled ==> tags == []
      ensures tags == Tagged(TagsFor(spanCount, currentChar))
    {
      if spanCount == 0 {
        return [];
      }
      if currentChar.None? || currentChar.value.position >= |currentChar.value.snapshot.text| {
        return [];
      }
      var s := currentChar.value.snapshot;
      var current := currentChar.value.position;
      var currentCharText := s.text[current];
      var previous := if current == 0 then current else current - 1;
      var previousCharText := s.text[previous];
      if taggerMatchTrigger == currentCharText {
        assert TriggerPoint(s, current) == Some(current);
        tags := TagsAt(s, current);
      } else if taggerMatchTrigger == previousCharText {
        assert TriggerPoint(s, current) == Some(previous);
        tags := TagsAt(s, previous);
      } else {
        assert TriggerPoint(s, current).None?;
        tags := [];
      }
    }
  }

  /** Each span with the marker tag. */
  function Tagged(spans: seq<Span>): seq<TagSpan>
  {
    seq(|spans|, i requires 0 <= i < |spans| => TagSpan(spans[i], MarkerTag))
  }

  /** What the tag query yields for a span collection of `spanCount` spans
      and the remembered point: nothing for no spans, no point, or a point at
      the end of the buffer; otherwise `Highlight` at the point. */
  ghost function TagsFor(spanCount: nat, pt: Option<Point>): seq<Span>
    requires ValidOptionalPoint(pt)
  {
    if spanCount == 0 || pt.None? || pt.value.position >= |pt.value.snapshot.text| then []
    else Highlight(pt.value.snapshot, pt.value.position)
  }

  /** The two branches of the tag query for a trigger at point `q`, with the
      short-circuit order of the source: the forward walk runs only for a
      start marker line, the backward walk only when that fails. */
  method TagsAt(s: Snapshot, q: nat) returns (tags: seq<TagSpan>)
    requires Wf(s) && q <= |s.text|
    ensures |tags| == 0 || |tags| == 2
    ensures forall i :: 0 <= i < |tags| ==> tags[i].tag == MarkerTag
    ensures tags == Tagged(HighlightAt(s, q))
  {
    var line := LineSpan(s, LineOf(s, q));
    var found := false;
    var pairedSpan := Span(0, 0);
    ghost var visited;
    if IsCaretAtStartTag(s, q) {
      found, pairedSpan, visited := FindMatchingEndTag(s, q);
    }
    if found {
      return [TagSpan(line, MarkerTag), TagSpan(pairedSpan, MarkerTag)];
    }
    if IsCaretAtEndTag(s, q) {
      found, pairedSpan, visited := FindMatchingStartTag(s, q);
    }
    if found {
      return [TagSpan(line, MarkerTag), TagSpan(pairedSpan, MarkerTag)];
    }
    return [];
  }
}
