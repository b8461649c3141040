# KoLighter marker matching, in Dafny

KoLighter is a Visual Studio extension that highlights the matching pair of
Knockout containerless comment markers in an HTML editor. When the caret is on
(or just after) a `<`, the tagger looks at the caret's line: if the line,
stripped of white space, holds a start marker (`<!--koif:`, `<!--koifnot:`,
`<!--kotemplate:`, `<!--koforeach:`) it walks down the buffer to the matching
end marker `<!--/ko-->`, counting nested markers; otherwise, if it holds an end
marker, it walks up to the matching start marker. Both whole lines are then
highlighted.

The model has six modules:

- `StringExtension`: the white-space stripping extension and the ordinal
  substring test the recognisers apply to its result.
- `Constants`: the marker literals.
- `Snapshots`: a text snapshot as its text plus its lines (start, length
  without the break, break length), with well-formedness and
  `GetContainingLine`.
- `Matching`: the line recognisers `IsCaretAtStartTag` / `IsCaretAtEndTag`
  and the per-line markers they produce.
- `Walkers`: the two nesting walkers as `while (true)` loops, proved against
  recursive specifications (`ForwardWalk`, `BackwardWalk`). Those
  specifications are characterised by running nesting balances. The
  module also proves that pairing is mutual.
- `Tagger`: the `KoTagger` class. Its state is `currentChar` and the enabled
  flag; it has the caret and layout handlers and `GetTags`. `GetTags` is
  proved against a value-level specification, `Highlight`.

The model follows the code in these points:

- Recognition is by whole line. Every point of a line, its line break
  included, gives the same answer.
- `KoLetTag` is declared but never recognised.
- The forward walk tests for an end marker before a start marker, and the
  backward walk does the opposite. So a line holding both markers pairs with
  itself, and the two highlighted spans are then the same line.
- The walkers scan to the buffer's first or last line with no limit.
- When the start path finds no partner, the end path is still tried on the
  same line.

## Model

| member | source | states |
|---|---|---|
| `StringExtension.RemoveWhiteSpaces` | KoLighter/Extensions/StringExtension.cs:16-19 | Filtering never lengthens the string. |
| `StringExtension.RemoveWhiteSpacesLeavesNone` | KoLighter/Extensions/StringExtension.cs:18 | No white-space character is left in the result. |
| `StringExtension.RemoveWhiteSpacesTakesFromInput` | KoLighter/Extensions/StringExtension.cs:18 | Every character of the result, counted with multiplicity, comes from the input. |
| `StringExtension.RemoveWhiteSpacesKeepsCharacter` | KoLighter/Extensions/StringExtension.cs:18 | Every non-white-space character survives, at the index given by the number of survivors before it. |
| `StringExtension.RemoveWhiteSpacesOrder` | KoLighter/Extensions/StringExtension.cs:18 | A kept character strictly advances the survivor count, so survivors keep their input order. |
| `StringExtension.RemoveWhiteSpacesKeepsLength` | KoLighter/Extensions/StringExtension.cs:18 | The length is kept exactly when the input has no white space, and then the string is returned unchanged (the empty string included). |
| `StringExtension.RemoveWhiteSpacesIdempotent` | KoLighter/Extensions/StringExtension.cs:18 | Stripping a stripped string changes nothing. |
| `StringExtension.RemoveWhiteSpacesConcat` | KoLighter/Extensions/StringExtension.cs:18 | Stripping distributes over concatenation. |
| `StringExtension.ContainsOccurs` | KoLighter/Tagger/KoTagger.cs:187 | The ordinal `Contains` holds exactly when the needle occurs at some offset. |
| `Snapshots.LineText` | KoLighter/Tagger/KoTagger.cs:171 | A line's text has the line's length and lies inside the snapshot text. |
| `Snapshots.LineOf` | KoLighter/Tagger/KoTagger.cs:170 | The containing line of a point starts at or before it, reaches it with its break, and the next line starts after it. |
| `Snapshots.LineOfStart` | KoLighter/Tagger/KoTagger.cs:211 | A point at a line's start offset lies on that line. |
| `Matching.IsCaretAtStartTag` | KoLighter/Tagger/KoTagger.cs:168-175 | The line holding the point, stripped of white space, contains one of the four start literals (never the let literal); its properties are the `StartLiteralMakesStart`, `EndLiteralIsNoStart`, `LetTagIsNoMarker`, `RecognitionIgnoresColumn` and `RecognitionIgnoresWhiteSpace` rows. |
| `Matching.IsCaretAtEndTag` | KoLighter/Tagger/KoTagger.cs:182-188 | The line holding the point, stripped of white space, contains the end literal; its properties are the `EndLiteralMakesEnd`, `StartLiteralIsNoEnd`, `LetTagIsNoMarker`, `RecognitionIgnoresColumn` and `RecognitionIgnoresWhiteSpace` rows. |
| `Matching.RecognitionIgnoresColumn` | KoLighter/Tagger/KoTagger.cs:168-188 | Both recognisers give every point of a line, its break included, the same answer. |
| `Matching.RecogniseAtLineStart` | KoLighter/Tagger/KoTagger.cs:211-226 | Recognising through a line's start point gives that line's markers. |
| `Matching.LiteralsHaveNoWhiteSpace` | KoLighter/Common/Constants.cs:11-16 | None of the marker literals holds white space. |
| `Matching.EmbeddedNeedleSurvives` | KoLighter/Tagger/KoTagger.cs:171-174 | A literal without white space that is embedded anywhere in a line is still found after stripping. |
| `Matching.StartLiteralMakesStart` | KoLighter/Tagger/KoTagger.cs:168-175 | Any of the four start literals, whatever surrounds it, makes the line a start marker line. |
| `Matching.EndLiteralMakesEnd` | KoLighter/Tagger/KoTagger.cs:182-188 | The end literal, whatever surrounds it, makes the line an end marker line. |
| `Matching.RecognitionIgnoresWhiteSpace` | KoLighter/Tagger/KoTagger.cs:168-188 | Inserting white space anywhere in a line changes neither recogniser. |
| `StringExtension.AllWhiteSpaceVanishes` | KoLighter/Extensions/StringExtension.cs:18 | A string made only of white space strips to the empty string. |
| `Matching.StartLiteralIsNoEnd` | KoLighter/Tagger/KoTagger.cs:182-188 | None of the four start literals, on a line of its own, is read as an end marker. |
| `Matching.EndLiteralIsNoStart` | KoLighter/Tagger/KoTagger.cs:168-175 | The end literal, on a line of its own, is not read as a start marker. |
| `Matching.MarkerLineIsLong` | KoLighter/Tagger/KoTagger.cs:168-188 | A start or end marker line has at least nine characters, so a snapshot holding one has at least nine. |
| `Matching.LetTagIsNoMarker` | KoLighter/Common/Constants.cs:15 | A line holding only the let literal is neither a start nor an end marker line. |
| `Walkers.ForwardWalk` | KoLighter/Tagger/KoTagger.cs:205-236 | The forward partner, when found, is an end marker line at or after the line the walk starts on. |
| `Walkers.ForwardWalkIsFirstClose` | KoLighter/Tagger/KoTagger.cs:205-238 | The forward walk returns exactly the first end marker line at which the running balance does not keep the counter positive. It fails exactly when there is no such line. |
| `Walkers.BackwardWalk` | KoLighter/Tagger/KoTagger.cs:256-287 | The backward partner, when found, is a start marker line at or before the line the walk starts on. |
| `Walkers.BackwardWalkIsFirstOpen` | KoLighter/Tagger/KoTagger.cs:256-289 | The backward walk returns exactly the first start marker line, going up, at which the running balance does not keep the counter positive. It fails exactly when there is no such line. |
| `Walkers.SelfPairing` | KoLighter/Tagger/KoTagger.cs:211-275 | A line holding both markers is its own partner in both directions. |
| `Walkers.NestedPairs` | KoLighter/Tagger/KoTagger.cs:197-290 | For lines start, start, end, end, the outer pair and the inner pair match each other in both directions. |
| `Walkers.PairAcrossPlainLines` | KoLighter/Tagger/KoTagger.cs:197-290 | A start line and a later end line, with only unmarked lines between them, pair with each other in both directions. |
| `Walkers.NoEndNoPartner` | KoLighter/Tagger/KoTagger.cs:209-238 | A forward walk with no end marker line ahead fails. |
| `Walkers.NoStartNoPartner` | KoLighter/Tagger/KoTagger.cs:260-289 | A backward walk with no start marker line behind fails. |
| `Walkers.EndPartnerPairsBack` | KoLighter/Tagger/KoTagger.cs:197-290 | Take a start line whose forward partner is line m. If no line between them holds both markers, the backward partner of m is the start line. |
| `Walkers.StartPartnerPairsBack` | KoLighter/Tagger/KoTagger.cs:197-290 | Take an end line whose backward partner is line t. If no line between them holds both markers, the forward partner of t is the end line. |
| `Walkers.FindMatchingEndTag` | KoLighter/Tagger/KoTagger.cs:197-239 | Returns true exactly when a forward partner exists, with that line's start and length as the span; otherwise the span is (1, 1). It visits the trigger line and each later line once, in order, up to the partner or the last line. |
| `Walkers.FindMatchingStartTag` | KoLighter/Tagger/KoTagger.cs:248-290 | The mirror of the forward walk: the backward partner and its span, otherwise (1, 1). It visits the trigger line and each earlier line once, in decreasing order, down to the partner or line 0. |
| `Tagger.TriggerPoint` | KoLighter/Tagger/KoTagger.cs:124-127 | The inspected point holds `<` and is the caret or the point before it. The caret wins whenever it holds `<`. It is absent exactly when neither holds `<`. At offset 0 the previous point is the caret itself. |
| `Tagger.HighlightIsLineAndPartner` | KoLighter/Tagger/KoTagger.cs:131-160 | Without a trigger nothing is highlighted. With one, nothing is highlighted exactly when the trigger line has no partner. Otherwise the output is the trigger line followed by exactly its partner: the first closing line forward for a start line that has one, else the first opening line backward for an end line. |
| `Tagger.PartnerIsAnotherLine` | KoLighter/Tagger/KoTagger.cs:131-160 | When the trigger line holds only one marker, its partner is a different line. |
| `Tagger.HighlightSpansDisjoint` | KoLighter/Tagger/KoTagger.cs:131-160 | When the trigger line holds only one marker, the two highlighted spans do not overlap: a line break at least separates them. |
| `Tagger.HighlightIsSymmetric` | KoLighter/Tagger/KoTagger.cs:131-160 | Suppose a trigger on line n highlights n and m, and no line between them holds both markers. Then a trigger on m highlights m and n. |
| `Tagger.TagsAt` | KoLighter/Tagger/KoTagger.cs:131-144 | The tags for one trigger point are none or two, all with the marker tag. They are the highlight for that point, with the forward walk run only on a start line and the backward walk only when that fails. |
| `Tagger.KoTagger.constructor` | KoLighter/Tagger/KoTagger.cs:25-36 | The enabled flag comes from the settings, the trigger is `<`, and no point is known. |
| `Tagger.KoTagger.UpdateAtCaretPosition` | KoLighter/Tagger/KoTagger.cs:83-97 | Remembers the mapped point, which may be none. When there is a point and a subscriber, it raises one refresh of the whole snapshot. |
| `Tagger.KoTagger.CaretPositionChanged` | KoLighter/Tagger/KoTagger.cs:69-77 | Disabled: nothing changes. Enabled: an update at the new position. |
| `Tagger.KoTagger.ViewLayoutChanged` | KoLighter/Tagger/KoTagger.cs:50-62 | Disabled, or the snapshot unchanged: nothing changes. Otherwise an update at the caret position. |
| `Tagger.KoTagger.GetTags` | KoLighter/Tagger/KoTagger.cs:104-161 | Yields nothing for no spans, no point, or a point at the end of the buffer, and always nothing when disabled. Otherwise it yields `Highlight` at the point: zero or two tags, all with the marker tag. |

## Left out

- Snapshot translation (`TranslateTo` with `PointTrackingMode.Positive`,
  KoLighter/Tagger/KoTagger.cs:119-122) is a host call. The model uses one
  snapshot, the remembered point's, and the requested spans enter only through
  their count.
- Mapping the caret into the buffer (`CaretPosition.Point.GetPoint`,
  KoLighter/Tagger/KoTagger.cs:85) is a host call. Its result, a point or none,
  is a parameter.
- The event subscriptions (KoLighter/Tagger/KoTagger.cs:34-35) are host
  wiring. Whether `TagsChanged` has subscribers is a boolean parameter. The
  refresh is recorded as a span in `tagsChanged`. Its length is taken from the
  point's snapshot, which the model takes to be the buffer's current snapshot.
- `ViewLayoutChanged` compares the new and old snapshots, and that comparison
  is a boolean parameter. The caret position it reads from the view is a
  parameter too.
- The `View` and `SourceBuffer` properties are not modelled.
- The settings object (KoLighter/Options/General.cs) is reduced to the boolean
  the constructor reads.
- Rendering is not modelled. `TextMarkerTag("blue")` is carried only as the tag
  name.
- The creation listener (KoLighter/Tagger/CreationListener.cs), the package
  (KoLighter/KoLighterPackage.cs) and the toggle command
  (KoLighter/Commands/ToggleCommand.cs) are host plumbing with no matching
  logic. They are not part of this model.
- Walkers.FindMatchingEndTag, Walkers.FindMatchingStartTag: the failure
  placeholder `Span(1, 1)` is returned for every snapshot. The host's span
  constructor would reject it on a snapshot shorter than two characters. That
  cannot happen from `GetTags`: the walkers run only on a marker line, and
  `Matching.MarkerLineIsLong` shows such a snapshot has at least nine
  characters.
- The model does not check the characters of the line breaks. A snapshot gives
  only each break's length, one or two.
- Strings are sequences of Unicode scalar values. UTF-16 surrogate pairs are
  not modelled.
- `IsWhiteSpace` is written out from the .NET documentation of
  `char.IsWhiteSpace`, not from its implementation.
