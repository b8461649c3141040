/** The whitespace-stripping string extension the recognisers apply to every
    line, and the ordinal substring test they use on its result. */
module StringExtension {

  /** `char.IsWhiteSpace`: the characters .NET documents as white space, that
      is the Unicode space, line and paragraph separators together with
      U+0009..U+000D and U+0085. */
  predicate IsWhiteSpace(c: char)
  {
    || ('\t' <= c <= '\r')
    || c == ' '
    || c == '\U{0085}'
    || c == '\U{00A0}'
    || c == '\U{1680}'
    || ('\U{2000}' <= c <= '\U{200A}')
    || c == '\U{2028}'
    || c == '\U{2029}'
    || c == '\U{202F}'
    || c == '\U{205F}'
    || c == '\U{3000}'
  }

  /** True when no character of `s` is white space. */
  predicate NoWhiteSpace(s: string)
  {
    forall i :: 0 <= i < |s| ==> !IsWhiteSpace(s[i])
  }

  /** `RemoveWhiteSpaces`: keeps the characters of `source` that are not
      white space, in their original order. */
  function RemoveWhiteSpaces(source: string): (r: string)
    ensures |r| <= |source|
  {
    if source == [] then []
    else
      var rest := RemoveWhiteSpaces(source[1..]);
      if IsWhiteSpace(source[0]) then rest else [source[0]] + rest
  }

  /** Stripping invents nothing: every character of the result, counted with
      multiplicity, comes from the input. */
  lemma {:induction false} RemoveWhiteSpacesTakesFromInput(s: string)
    ensures multiset(RemoveWhiteSpaces(s)) <= multiset(s)
  {
    if s != [] {
      RemoveWhiteSpacesTakesFromInput(s[1..]);
      assert s == [s[0]] + s[1..];
    }
  }

  /** No white space is left after stripping. */
  lemma {:induction false} RemoveWhiteSpacesLeavesNone(s: string)
    ensures NoWhiteSpace(RemoveWhiteSpaces(s))
  {
    if s != [] {
      RemoveWhiteSpacesLeavesNone(s[1..]);
    }
  }

  /** Stripping distributes over concatenation. */
  lemma {:induction false} RemoveWhiteSpacesConcat(a: string, b: string)
    ensures RemoveWhiteSpaces(a + b) == RemoveWhiteSpaces(a) + RemoveWhiteSpaces(b)
  {
    if a == [] {
      assert a + b == b;
    } else {
      assert (a + b)[1..] == a[1..] + b;
      assert (a + b)[0] == a[0];
      RemoveWhiteSpacesConcat(a[1..], b);
    }
  }

  /** The length is kept exactly when there is no white space to drop, and
      then the string itself is kept (in particular the empty string maps to
      the empty string). */
  lemma {:induction false} RemoveWhiteSpacesKeepsLength(s: string)
    ensures |RemoveWhiteSpaces(s)| == |s| <==> NoWhiteSpace(s)
    ensures NoWhiteSpace(s) ==> RemoveWhiteSpaces(s) == s
  {
    if s != [] {
      RemoveWhiteSpacesKeepsLength(s[1..]);
      if NoWhiteSpace(s) {
        assert NoWhiteSpace(s[1..]) by {
          forall i | 0 <= i < |s[1..]| ensures !IsWhiteSpace(s[1..][i]) {
            assert s[1..][i] == s[i + 1];
          }
        }
        assert s == [s[0]] + s[1..];
      } else if !IsWhiteSpace(s[0]) {
        assert !NoWhiteSpace(s[1..]) by {
          var i :| 0 <= i < |s| && IsWhiteSpace(s[i]);
          assert s[1..][i - 1] == s[i];
        }
      }
    }
  }

  /** Stripping is idempotent. */
  lemma RemoveWhiteSpacesIdempotent(s: string)
    ensures RemoveWhiteSpaces(RemoveWhiteSpaces(s)) == RemoveWhiteSpaces(s)
  {
    RemoveWhiteSpacesLeavesNone(s);
    RemoveWhiteSpacesKeepsLength(RemoveWhiteSpaces(s));
  }

  /** Every character that is not white space survives, at the position given
      by the number of survivors before it; so survivors keep their order. */
  lemma RemoveWhiteSpacesKeepsCharacter(s: string, i: nat)
    requires i < |s| && !IsWhiteSpace(s[i])
    ensures |RemoveWhiteSpaces(s[..i])| < |RemoveWhiteSpaces(s)|
    ensures RemoveWhiteSpaces(s)[|RemoveWhiteSpaces(s[..i])|] == s[i]
  {
    assert s == s[..i] + ([s[i]] + s[i + 1..]);
    RemoveWhiteSpacesConcat(s[..i], [s[i]] + s[i + 1..]);
    RemoveWhiteSpacesConcat([s[i]], s[i + 1..]);
    assert [s[i]][1..] == [];
  }

  /** The survivors of a longer prefix are never fewer, and a kept character
      advances the count: survivors appear in the result in input order. */
  lemma RemoveWhiteSpacesOrder(s: string, i: nat, j: nat)
    requires i < j <= |s| && !IsWhiteSpace(s[i])
    ensures |RemoveWhiteSpaces(s[..i])| < |RemoveWhiteSpaces(s[..j])|
  {
    assert s[..j] == s[..i] + ([s[i]] + s[i + 1..j]);
    RemoveWhiteSpacesConcat(s[..i], [s[i]] + s[i + 1..j]);
    RemoveWhiteSpacesConcat([s[i]], s[i + 1..j]);
    assert [s[i]][1..] == [];
  }

  /** `needle` is a prefix of `s`. */
  predicate StartsWith(s: string, needle: string)
  {
    |needle| <= |s| && s[..|needle|] == needle
  }

  /** `String.Contains(string)`: ordinal substring test. */
  predicate Contains(s: string, needle: string)
    decreases |s|
  {
    StartsWith(s, needle) || (s != [] && Contains(s[1..], needle))
  }

  /** `needle` occurs in `s` at offset `i`. */
  predicate OccursAt(s: string, needle: string, i: nat)
  {
    i + |needle| <= |s| && s[i..i + |needle|] == needle
  }

  /** `Contains` holds exactly when the needle occurs at some offset. */
  lemma {:induction false} ContainsOccurs(s: string, needle: string)
    ensures Contains(s, needle) <==> exists i: nat :: OccursAt(s, needle, i)
  {
    if Contains(s, needle) {
      if StartsWith(s, needle) {
        assert OccursAt(s, needle, 0);
      } else {
        ContainsOccurs(s[1..], needle);
        var i: nat :| OccursAt(s[1..], needle, i);
        assert s[1..][i..i + |needle|] == s[i + 1..i + 1 + |needle|];
        assert OccursAt(s, needle, i + 1);
      }
    }
    if exists i: nat :: OccursAt(s, needle, i) {
      var i: nat :| OccursAt(s, needle, i);
      if i == 0 {
        assert StartsWith(s, needle);
      } else {
        assert s[1..][i - 1..i - 1 + |needle|] == s[i..i + |needle|];
        assert OccursAt(s[1..], needle, i - 1);
        ContainsOccurs(s[1..], needle);
      }
    }
  }

  /** A needle is found inside any text that embeds it. */
  lemma ContainsEmbedded(a: string, needle: string, b: string)
    ensures Contains(a + needle + b, needle)
  {
    var s := a + needle + b;
    assert s[|a|..|a| + |needle|] == needle;
    assert OccursAt(s, needle, |a|);
    ContainsOccurs(s, needle);
  }

  /** Printable ASCII characters other than the space are not white space. */
  lemma PrintableHasNoWhiteSpace(t: string)
    requires forall i :: 0 <= i < |t| ==> '!' <= t[i] <= '~'
    ensures NoWhiteSpace(t)
  {
  }

  /** A string made only of white space strips to the empty string. */
  lemma {:induction false} AllWhiteSpaceVanishes(w: string)
    requires forall i :: 0 <= i < |w| ==> IsWhiteSpace(w[i])
    ensures RemoveWhiteSpaces(w) == []
  {
    if w != [] {
      assert forall i :: 0 <= i < |w[1..]| ==> w[1..][i] == w[i + 1];
      AllWhiteSpaceVanishes(w[1..]);
    }
  }

  /** A text shorter than the needle cannot contain it. */
  lemma {:induction false} ShorterTextMissesNeedle(s: string, needle: string)
    requires |s| < |needle|
    ensures !Contains(s, needle)
    decreases |s|
  {
    if s != [] {
      ShorterTextMissesNeedle(s[1..], needle);
    }
  }

  /** A text lacking some character of the needle cannot contain it. */
  lemma MissingCharacterMissesNeedle(s: string, needle: string, j: nat)
    requires j < |needle| && forall k :: 0 <= k < |s| ==> s[k] != needle[j]
    ensures !Contains(s, needle)
  {
    ContainsOccurs(s, needle);
  }

  /** A text that contains a needle is at least as long as it. */
  lemma ContainsNeedsLength(s: string, needle: string)
    requires Contains(s, needle)
    ensures |needle| <= |s|
  {
    if |s| < |needle| {
      ShorterTextMissesNeedle(s, needle);
    }
  }
}
