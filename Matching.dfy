/** The line recognisers of the tagger (`IsCaretAtStartTag`,
    `IsCaretAtEndTag`) and the per-line markers they produce, which the
    walkers consume. */
module Matching {
  import opened StringExtension
  import opened Constants
  import opened Snapshots

  // ---------------------------------------------------------------------------
  // Line recognisers
  // ---------------------------------------------------------------------------

  /** A line text is a start marker line when, stripped of white space, it
      contains one of the four start literals; `KoLetTag` is not one of them. */
  predicate IsStartText(text: string)
  {
    var stripped := RemoveWhiteSpaces(text);
    || Contains(stripped, KoIfStartTag)
    || Contains(stripped, KoIfNotStartTag)
    || Contains(stripped, KoTemplateStartTag)
    || Contains(stripped, KoForEachStartTag)
  }

  /** A line text is an end marker line when, stripped of white space, it
      contains the end literal. */
  predicate IsEndText(text: string)
  {
    Contains(RemoveWhiteSpaces(text), KoEndTag)
  }

  predicate IsStartLine(s: Snapshot, n: nat)
    requires Wf(s) && n < |s.lines|
  {
    IsStartText(LineText(s, n))
  }

  predicate IsEndLine(s: Snapshot, n: nat)
    requires Wf(s) && n < |s.lines|
  {
    IsEndText(LineText(s, n))
  }

  /** Which markers a line holds, as the two recognisers see it. */
  datatype Marks = Marks(start: bool, end: bool)

  /** The markers of line `n`. */
  ghost function MarksOf(s: Snapshot, n: nat): Marks
    requires Wf(s) && n < |s.lines|
  {
    Marks(IsStartLine(s, n), IsEndLine(s, n))
  }

  /** The markers of lines `n ..` of a snapshot, in line order. */
  ghost function MarksFrom(s: Snapshot, n: nat): (r: seq<Marks>)
    requires Wf(s) && n <= |s.lines|
    ensures |r| == |s.lines| - n
    decreases |s.lines| - n
  {
    if n == |s.lines| then [] else [MarksOf(s, n)] + MarksFrom(s, n + 1)
  }

  /** The markers of every line of a snapshot, in line order. */
  ghost function LineMarks(s: Snapshot): (r: seq<Marks>)
    requires Wf(s)
    ensures |r| == |s.lines|
  {
    MarksFrom(s, 0)
  }

  lemma {:induction false} MarksFromAt(s: Snapshot, n: nat, k: nat)
    requires Wf(s) && n <= k < |s.lines|
    ensures MarksFrom(s, n)[k - n] == MarksOf(s, k)
    decreases k - n
  {
    if n < k {
      MarksFromAt(s, n + 1, k);
    }
  }

  /** Entry `n` of `LineMarks` is what the recognisers say of line `n`. */
  lemma LineMarksAt(s: Snapshot, n: nat)
    requires Wf(s) && n < |s.lines|
    ensures LineMarks(s)[n] == Marks(IsStartLine(s, n), IsEndLine(s, n))
  {
    MarksFromAt(s, 0, n);
  }

  /** `IsCaretAtStartTag`: the line holding point `p` is a start marker line. */
  predicate IsCaretAtStartTag(s: Snapshot, p: nat)
    requires Wf(s) && p <= |s.text|
  {
    IsStartText(LineText(s, LineOf(s, p)))
  }

  /** `IsCaretAtEndTag`: the line holding point `p` is an end marker line. */
  predicate IsCaretAtEndTag(s: Snapshot, p: nat)
    requires Wf(s) && p <= |s.text|
  {
    IsEndText(LineText(s, LineOf(s, p)))
  }

  /** Recognising a line through a point at its start gives that line's
      markers. */
  lemma RecogniseAtLineStart(s: Snapshot, n: nat)
    requires Wf(s) && n < |s.lines|
    ensures s.lines[n].start <= |s.text|
    ensures IsCaretAtStartTag(s, s.lines[n].start) == LineMarks(s)[n].start
    ensures IsCaretAtEndTag(s, s.lines[n].start) == LineMarks(s)[n].end
  {
    LineOfStart(s, n);
    LineMarksAt(s, n);
  }

  /** The recognisers look at the whole line: every point of a line, its line
      break included, gets the answer of the line's first point. */
  lemma RecognitionIgnoresColumn(s: Snapshot, n: nat, p: nat)
    requires Wf(s) && n < |s.lines| && p <= |s.text|
    requires s.lines[n].start <= p
    requires p < s.lines[n].start + s.lines[n].length + s.lines[n].breakLength || n + 1 == |s.lines|
    ensures IsCaretAtStartTag(s, p) == IsStartLine(s, n)
    ensures IsCaretAtEndTag(s, p) == IsEndLine(s, n)
  {
    var m := LineOf(s, p);
    if n < m {
      StartsIncrease(s, n, m);
      assert false;
    }
    assert m == n;
  }

  /** None of the marker literals holds white space, so stripping a line
      never breaks one apart. */
  lemma LiteralsHaveNoWhiteSpace()
    ensures NoWhiteSpace(KoIfStartTag) && NoWhiteSpace(KoIfNotStartTag)
    ensures NoWhiteSpace(KoTemplateStartTag) && NoWhiteSpace(KoForEachStartTag)
    ensures NoWhiteSpace(KoEndTag) && NoWhiteSpace(KoLetTag)
  {
    PrintableHasNoWhiteSpace(KoIfStartTag);
    PrintableHasNoWhiteSpace(KoIfNotStartTag);
    PrintableHasNoWhiteSpace(KoTemplateStartTag);
    PrintableHasNoWhiteSpace(KoForEachStartTag);
    PrintableHasNoWhiteSpace(KoEndTag);
    PrintableHasNoWhiteSpace(KoLetTag);
  }

  /** Stripping leaves each marker literal as it is. */
  lemma LiteralStripsToItself(t: string)
    requires t == KoIfStartTag || t == KoIfNotStartTag || t == KoTemplateStartTag
          || t == KoForEachStartTag || t == KoEndTag || t == KoLetTag
    ensures RemoveWhiteSpaces(t) == t
  {
    PrintableHasNoWhiteSpace(t);
    RemoveWhiteSpacesKeepsLength(t);
  }

  /** A white-space-free needle embedded anywhere in a text survives
      stripping. */
  lemma EmbeddedNeedleSurvives(a: string, needle: string, b: string)
    requires NoWhiteSpace(needle)
    ensures Contains(RemoveWhiteSpaces(a + needle + b), needle)
  {
    RemoveWhiteSpacesKeepsLength(needle);
    RemoveWhiteSpacesConcat(a + needle, b);
    RemoveWhiteSpacesConcat(a, needle);
    ContainsEmbedded(RemoveWhiteSpaces(a), needle, RemoveWhiteSpaces(b));
  }

  /** Each start literal, anywhere in a line and whatever surrounds it, makes
      the line a start marker line. */
  lemma StartLiteralMakesStart(a: string, literal: string, b: string)
    requires literal == KoIfStartTag || literal == KoIfNotStartTag
          || literal == KoTemplateStartTag || literal == KoForEachStartTag
    ensures IsStartText(a + literal + b)
  {
    LiteralsHaveNoWhiteSpace();
    if literal == KoIfStartTag {
      EmbeddedNeedleSurvives(a, KoIfStartTag, b);
    } else if literal == KoIfNotStartTag {
      EmbeddedNeedleSurvives(a, KoIfNotStartTag, b);
    } else if literal == KoTemplateStartTag {
      EmbeddedNeedleSurvives(a, KoTemplateStartTag, b);
    } else {
      EmbeddedNeedleSurvives(a, KoForEachStartTag, b);
    }
  }

  /** The end literal, anywhere in a line, makes the line an end marker line. */
  lemma EndLiteralMakesEnd(a: string, b: string)
    ensures IsEndText(a + KoEndTag + b)
  {
    LiteralsHaveNoWhiteSpace();
    EmbeddedNeedleSurvives(a, KoEndTag, b);
  }

  /** Inserting white space anywhere in a line changes neither recogniser. */
  lemma RecognitionIgnoresWhiteSpace(a: string, w: string, b: string)
    requires forall i :: 0 <= i < |w| ==> IsWhiteSpace(w[i])
    ensures IsStartText(a + w + b) == IsStartText(a + b)
    ensures IsEndText(a + w + b) == IsEndText(a + b)
  {
    RemoveWhiteSpacesConcat(a + w, b);
    RemoveWhiteSpacesConcat(a, w);
    RemoveWhiteSpacesConcat(a, b);
    AllWhiteSpaceVanishes(w);
    assert RemoveWhiteSpaces(a) + [] == RemoveWhiteSpaces(a);
  }

  /** The let literal, declared beside the others, marks nothing: a line
      holding only it is neither a start nor an end marker line. */
  lemma LetTagIsNoMarker()
    ensures !IsStartText(KoLetTag) && !IsEndText(KoLetTag)
  {
    var t := KoLetTag;
    LiteralStripsToItself(t);
    LetTagMissesLiteral(t, KoIfStartTag, 6);
    LetTagMissesLiteral(t, KoIfNotStartTag, 6);
    LetTagMissesLiteral(t, KoEndTag, 4);
    ShorterTextMissesNeedle(t, KoTemplateStartTag);
    ShorterTextMissesNeedle(t, KoForEachStartTag);
  }

  /** The substring fact behind `LetTagIsNoMarker`: the let literal lacks the
      `i` of the two if literals and the `/` of the end literal. */
  lemma LetTagMissesLiteral(t: string, literal: string, j: nat)
    requires t == KoLetTag
    requires (literal == KoIfStartTag && j == 6) || (literal == KoIfNotStartTag && j == 6)
          || (literal == KoEndTag && j == 4)
    ensures !Contains(t, literal)
  {
    MissingCharacterMissesNeedle(t, literal, j);
  }

  /** No start literal, on a line of its own, reads as an end marker. */
  lemma StartLiteralIsNoEnd(t: string)
    requires t == KoIfStartTag || t == KoIfNotStartTag
          || t == KoTemplateStartTag || t == KoForEachStartTag
    ensures !IsEndText(t)
  {
    LiteralStripsToItself(t);
    StartLiteralMissesEnd(t);
  }

  /** The substring facts behind `StartLiteralIsNoEnd`: no start literal
      holds the `/` of the end literal. */
  lemma StartLiteralMissesEnd(t: string)
    requires t == KoIfStartTag || t == KoIfNotStartTag
          || t == KoTemplateStartTag || t == KoForEachStartTag
    ensures !Contains(t, KoEndTag)
  {
    assert KoEndTag[4] == '/';
    MissingCharacterMissesNeedle(t, KoEndTag, 4);
  }

  /** The end literal, on a line of its own, reads as no start marker. */
  lemma EndLiteralIsNoStart(t: string)
    requires t == KoEndTag
    ensures !IsStartText(t)
  {
    LiteralStripsToItself(t);
    EndLiteralMissesStart(t, KoIfStartTag);
    EndLiteralMissesStart(t, KoIfNotStartTag);
    EndLiteralMissesStart(t, KoTemplateStartTag);
    EndLiteralMissesStart(t, KoForEachStartTag);
  }

  /** The substring fact behind `EndLiteralIsNoStart`: the end literal lacks
      the seventh character (`i`, `t` or `f`) of every start literal. */
  lemma EndLiteralMissesStart(t: string, literal: string)
    requires t == KoEndTag
    requires literal == KoIfStartTag || literal == KoIfNotStartTag
          || literal == KoTemplateStartTag || literal == KoForEachStartTag
    ensures !Contains(t, literal)
  {
    MissingCharacterMissesNeedle(t, literal, 6);
  }

  /** A marker line is at least as long as the shortest marker literal, so a
      snapshot holding one has at least nine characters. */
  lemma MarkerLineIsLong(s: Snapshot, p: nat)
    requires Wf(s) && p <= |s.text|
    requires IsCaretAtStartTag(s, p) || IsCaretAtEndTag(s, p)
    ensures |LineText(s, LineOf(s, p))| >= |KoIfStartTag| == 9
    ensures |s.text| >= 9
  {
    var stripped := RemoveWhiteSpaces(LineText(s, LineOf(s, p)));
    if Contains(stripped, KoIfStartTag) {
      ContainsNeedsLength(stripped, KoIfStartTag);
    } else if Contains(stripped, KoIfNotStartTag) {
      ContainsNeedsLength(stripped, KoIfNotStartTag);
    } else if Contains(stripped, KoTemplateStartTag) {
      ContainsNeedsLength(stripped, KoTemplateStartTag);
    } else if Contains(stripped, KoForEachStartTag) {
      ContainsNeedsLength(stripped, KoForEachStartTag);
    } else {
      ContainsNeedsLength(stripped, KoEndTag);
    }
  }
}
