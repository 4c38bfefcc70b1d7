/**
 * The typing-answer matcher of the validation service: an answer is accepted
 * when it equals the expected answer after normalisation, when one side is an
 * acronym of the other, or when the expected answer has the legacy
 * `ABBR (Full Text)` form and the answer is one of its two halves.
 */
module Validation {
  import opened Text
  import opened Wrappers

  // ---------------------------------------------------------------------------
  // Normalisation

  /** The characters `/[.,!?;:]$/` removes from the end. */
  predicate IsTrailingPunct(c: char) {
    c == '.' || c == ',' || c == '!' || c == '?' || c == ';' || c == ':'
  }

  /** Removes at most one trailing punctuation mark. */
  function DropTrailingPunct(s: string): (r: string)
    ensures |r| <= |s| && r == s[..|r|]
    ensures |s| - |r| <= 1
    ensures |r| < |s| <==> s != [] && IsTrailingPunct(s[|s| - 1])
  {
    if s != [] && IsTrailingPunct(s[|s| - 1]) then s[..|s| - 1] else s
  }

  /** Every character of the collapsed string is a space or one of the original characters. */
  lemma {:induction false} CollapseDrawsFrom(s: string)
    ensures forall i :: 0 <= i < |CollapseSpaces(s)| ==> CollapseSpaces(s)[i] == ' ' || CollapseSpaces(s)[i] in s
    decreases |s|
  {
    if s != [] {
      if IsSpace(s[0]) {
        var t := TrimStart(s);
        TrimStartShape(s);
        CollapseDrawsFrom(t);
        forall i | 0 <= i < |CollapseSpaces(s)| ensures CollapseSpaces(s)[i] == ' ' || CollapseSpaces(s)[i] in s {
          if i > 0 {
            assert CollapseSpaces(s)[i] == CollapseSpaces(t)[i - 1];
            assert forall c :: c in t ==> c in s;
          }
        }
      } else {
        CollapseDrawsFrom(s[1..]);
        forall i | 0 <= i < |CollapseSpaces(s)| ensures CollapseSpaces(s)[i] == ' ' || CollapseSpaces(s)[i] in s {
          if i > 0 {
            assert CollapseSpaces(s)[i] == CollapseSpaces(s[1..])[i - 1];
          }
        }
      }
    }
  }

  /**
   * `normalizeText`: trim, lower-case, collapse every whitespace run to one
   * space, then drop one trailing mark of `.,!?;:`.
   */
  function Normalize(text: string): (r: string)
    ensures |r| <= |text|
  {
    DropTrailingPunct(CollapseSpaces(Lower(Trim(text))))
  }

  /**
   * A normalised string has no upper-case letter, no whitespace but single
   * spaces, does not start with a space, and is empty for a blank input.
   */
  lemma NormalizeShape(text: string)
    ensures var r := Normalize(text);
      && (forall i :: 0 <= i < |r| ==> !IsAsciiUpper(r[i]))
      && (forall i :: 0 <= i < |r| && IsSpace(r[i]) ==> r[i] == ' ')
      && (forall i, j :: 0 <= i && j == i + 1 && j < |r| ==> !(r[i] == ' ' && r[j] == ' '))
      && (r != [] ==> r[0] != ' ')
      && (AllSpace(text) ==> r == [])
  {
    var t := Trim(text);
    var l := Lower(t);
    var c := CollapseSpaces(l);
    var r := DropTrailingPunct(c);
    assert r == Normalize(text);
    LowerKeepsSpaces(t);
    CollapseDrawsFrom(l);
    assert forall i :: 0 <= i < |c| ==> !IsAsciiUpper(c[i]);
    assert forall i :: 0 <= i < |r| ==> r[i] == c[i];
    if r != [] {
      assert !IsSpace(t[0]);
      assert !IsSpace(l[0]);
      assert !IsSpace(c[0]);
    }
    TrimEmptyIff(text);
  }

  /** Normalisation ignores letter case. */
  lemma NormalizeIgnoresCase(s: string)
    ensures Normalize(Lower(s)) == Normalize(s)
  {
    TrimLower(s);
    LowerIdempotent(Trim(s));
  }

  /** Normalisation removes only one trailing mark, so it is not idempotent. */
  lemma NormalizeNotIdempotent()
    ensures Normalize("a..") == "a."
    ensures Normalize(Normalize("a..")) == "a"
  {
    NormalizeWord("a..");
    assert DropTrailingPunct("a..") == "a.";
    NormalizeWord("a.");
  }

  /** On a word without whitespace or capitals, normalisation only drops a final mark. */
  lemma NormalizeWord(s: string)
    requires NoSpace(s)
    requires forall i :: 0 <= i < |s| ==> !IsAsciiUpper(s[i])
    ensures Normalize(s) == DropTrailingPunct(s)
  {
    TrimNoOp(s);
    assert Lower(s) == s;
    CollapseNoOp(s);
  }

  // ---------------------------------------------------------------------------
  // Acronyms

  /**
   * `isAcronym`: `/^[A-Za-z]{2,5}$/` and no whitespace. The whitespace test is
   * implied by the first, so an acronym is exactly a run of 2 to 5 ASCII letters.
   */
  function IsAcronym(text: string): (r: bool)
    ensures r <==> 2 <= |text| <= 5 && forall i :: 0 <= i < |text| ==> IsAsciiLetter(text[i])
  {
    && 2 <= |text| <= 5
    && (forall i | 0 <= i < |text| :: 'A' <= text[i] <= 'Z' || 'a' <= text[i] <= 'z')
    && !(exists i | 0 <= i < |text| :: IsSpace(text[i]))
  }

  /** `word.charAt(0).toUpperCase()` for each word, joined. */
  function FirstLetters(words: seq<string>): (r: string)
    ensures |r| <= |words|
    ensures (forall k :: 0 <= k < |words| ==> words[k] != []) ==>
              |r| == |words| && forall k :: 0 <= k < |words| ==> r[k] == UpperChar(words[k][0])
  {
    if words == [] then []
    else
      var first := if words[0] == [] then [] else [words[0][0]];
      Upper(first) + FirstLetters(words[1..])
  }

  /**
   * `acronymMatchesText`: the upper-cased first letters of the first N words of
   * the text, where N is the acronym's length, spell the upper-cased acronym.
   * A text with fewer words than the acronym has letters never matches.
   */
  function AcronymMatchesText(acronym: string, fullText: string): (r: bool)
    ensures |SplitWhitespace(fullText)| < |acronym| ==> !r
    ensures r ==> |FirstLetters(SplitWhitespace(fullText)[..|acronym|])| == |acronym|
  {
    var words := SplitWhitespace(fullText);
    if |words| < |acronym| then false
    else FirstLetters(words[..|acronym|]) == Upper(acronym)
  }

  /**
   * For a text made of words joined by single spaces, the acronym matches
   * exactly when there are enough words and each of the first N words begins,
   * up to ASCII case, with the corresponding letter of the acronym.
   */
  lemma AcronymOfWords(acronym: string, ws: seq<string>)
    requires |ws| >= 1
    requires forall k :: 0 <= k < |ws| ==> ws[k] != [] && NoSpace(ws[k])
    ensures AcronymMatchesText(acronym, Join(ws, " ")) <==>
              |ws| >= |acronym| && forall k :: 0 <= k < |acronym| ==> UpperChar(ws[k][0]) == UpperChar(acronym[k])
  {
    SplitJoinWords(ws);
    if |ws| >= |acronym| {
      var fl := FirstLetters(ws[..|acronym|]);
      assert |fl| == |acronym|;
      if fl == Upper(acronym) {
        forall k | 0 <= k < |acronym| ensures UpperChar(ws[k][0]) == UpperChar(acronym[k]) {
          assert fl[k] == UpperChar(ws[..|acronym|][k][0]);
        }
      }
      if forall k :: 0 <= k < |acronym| ==> UpperChar(ws[k][0]) == UpperChar(acronym[k]) {
        assert fl == Upper(acronym);
      }
    }
  }

  /**
   * `isAcronymMatch`: exactly one side is an acronym, and it matches the other
   * side's words.
   */
  function IsAcronymMatch(input: string, expected: string): (r: bool)
    ensures r ==> IsAcronym(input) != IsAcronym(expected)
  {
    var inputIsAcronym := IsAcronym(input);
    var expectedIsAcronym := IsAcronym(expected);
    if inputIsAcronym && !expectedIsAcronym then AcronymMatchesText(input, expected)
    else if !inputIsAcronym && expectedIsAcronym then AcronymMatchesText(expected, input)
    else false
  }

  /** The acronym check does not care which side is the typed answer. */
  lemma AcronymMatchSymmetric(a: string, b: string)
    ensures IsAcronymMatch(a, b) == IsAcronymMatch(b, a)
  {
  }

  // ---------------------------------------------------------------------------
  // The legacy `ABBR (Full Text)` form: `/^(.+?)\s*\((.+)\)$/`

  /** The characters `.` does not match. */
  predicate IsLineTerminator(c: char) {
    c == '\n' || c == '\r' || c == '\U{2028}' || c == '\U{2029}'
  }

  predicate NoLineTerminator(s: string) {
    forall i :: 0 <= i < |s| ==> !IsLineTerminator(s[i])
  }

  /** The first index at or after `j` that is not whitespace (`\s*` is greedy). */
  function SkipSpaces(s: string, j: nat): (k: nat)
    requires j <= |s|
    ensures j <= k <= |s|
    ensures forall m :: j <= m < k ==> IsSpace(s[m])
    ensures k < |s| ==> !IsSpace(s[k])
    decreases |s| - j
  {
    if j < |s| && IsSpace(s[j]) then SkipSpaces(s, j + 1) else j
  }

  /**
   * The pattern matches with its lazy first group ending at index `i`: the
   * group `s[..i]` is non-empty, the whitespace after it is followed by `(`, and
   * the rest up to a final `)` is non-empty; neither group holds a line terminator.
   */
  predicate AbbrevMatchAt(s: string, i: nat) {
    && 1 <= i <= |s|
    && NoLineTerminator(s[..i])
    && var j := SkipSpaces(s, i);
    && j + 3 <= |s| && s[j] == '(' && s[|s| - 1] == ')'
    && NoLineTerminator(s[j + 1..|s| - 1])
  }

  /** The two groups, trimmed, when the lazy group ends at `i`. */
  function AbbrevGroups(s: string, i: nat): (string, string)
    requires AbbrevMatchAt(s, i)
  {
    var j := SkipSpaces(s, i);
    (Trim(s[..i]), Trim(s[j + 1..|s| - 1]))
  }

  /** Tries the lazy group lengths `i, i + 1, ...` in turn, as the regex engine does. */
  function FindAbbrev(s: string, i: nat): Option<(string, string)>
    requires 1 <= i
    decreases |s| - i
  {
    if i > |s| then None
    else if AbbrevMatchAt(s, i) then Some(AbbrevGroups(s, i))
    else FindAbbrev(s, i + 1)
  }

  /** `s.match(/^(.+?)\s*\((.+)\)$/)` with both groups trimmed. */
  function MatchAbbrev(s: string): (m: Option<(string, string)>)
    ensures m.None? <==> forall i :: 1 <= i <= |s| ==> !AbbrevMatchAt(s, i)
  {
    FindAbbrevNone(s, 1);
    FindAbbrev(s, 1)
  }

  /**
   * `A (B)` with a non-empty `A` that holds no `(` and does not end in
   * whitespace, and a non-empty `B`, splits back into `A` and `B` (trimmed).
   */
  lemma MatchAbbrevOfForm(a: string, b: string)
    requires a != [] && b != [] && !IsSpace(a[|a| - 1])
    requires forall k :: 0 <= k < |a| ==> a[k] != '('
    requires NoLineTerminator(a) && NoLineTerminator(b)
    ensures MatchAbbrev(a + " (" + b + ")") == Some((Trim(a), Trim(b)))
  {
    var s := a + " (" + b + ")";
    forall m | 1 <= m < |a| ensures !AbbrevMatchAt(s, m) {
      var j := SkipSpaces(s, m);
      if j >= |a| {
        assert false;
      }
    }
    assert s[..|a|] == a;
    assert SkipSpaces(s, |a|) == |a| + 1 by {
      assert s[|a|] == ' ' && s[|a| + 1] == '(';
      assert SkipSpaces(s, |a| + 1) == |a| + 1;
    }
    assert s[|a| + 2..|s| - 1] == b;
    assert AbbrevMatchAt(s, |a|);
    FindAbbrevFirst(s, 1, |a|);
  }

  /** The search returns the groups of the first index that matches. */
  lemma {:induction false} FindAbbrevFirst(s: string, i: nat, k: nat)
    requires 1 <= i <= k && AbbrevMatchAt(s, k)
    requires forall m :: i <= m < k ==> !AbbrevMatchAt(s, m)
    ensures FindAbbrev(s, i) == Some(AbbrevGroups(s, k))
    decreases k - i
  {
    if i < k {
      assert !AbbrevMatchAt(s, i);
      assert FindAbbrev(s, i) == FindAbbrev(s, i + 1);
      FindAbbrevFirst(s, i + 1, k);
    } else {
      assert FindAbbrev(s, i) == Some(AbbrevGroups(s, i));
    }
  }

  /** The search finds nothing exactly when no index from `i` on matches. */
  lemma {:induction false} FindAbbrevNone(s: string, i: nat)
    requires 1 <= i
    ensures FindAbbrev(s, i).None? <==> forall m :: i <= m <= |s| ==> !AbbrevMatchAt(s, m)
    decreases |s| - i
  {
    if i <= |s| && !AbbrevMatchAt(s, i) {
      FindAbbrevNone(s, i + 1);
    }
  }

  // ---------------------------------------------------------------------------
  // The matcher

  /**
   * `validateTypingAnswer`. `null` and `undefined` arguments take the same
   * falsy branch as the empty string and are represented by it.
   */
  function ValidateTypingAnswer(input: string, expected: string): (r: bool)
    ensures input == [] || expected == [] ==> !r
    ensures input != [] && expected != [] && Lower(input) == Lower(expected) ==> r
    ensures input != [] && expected != [] && IsAcronymMatch(Trim(input), Trim(expected)) ==> r
  {
    if input == [] || expected == [] then false
    else
      var normalizedInput := Normalize(input);
      var normalizedExpected := Normalize(expected);
      NormalizeIgnoresCase(input);
      NormalizeIgnoresCase(expected);
      if normalizedInput == normalizedExpected then true
      else if IsAcronymMatch(Trim(input), Trim(expected)) then true
      else match MatchAbbrev(normalizedExpected)
        case Some((abbreviation, fullText)) => normalizedInput == abbreviation || normalizedInput == fullText
        case None => false
  }

  /** Every non-empty answer is accepted against itself. */
  lemma ValidateReflexive(x: string)
    requires x != []
    ensures ValidateTypingAnswer(x, x)
  {
  }

  /**
   * Against an expected answer of the form `A (B)` (after normalisation), an
   * answer that normalises to `A` or to `B` is accepted.
   */
  lemma ValidateAcceptsAbbrevForm(input: string, expected: string, a: string, b: string)
    requires input != [] && expected != []
    requires Normalize(expected) == a + " (" + b + ")"
    requires a != [] && b != [] && !IsSpace(a[|a| - 1])
    requires forall k :: 0 <= k < |a| ==> a[k] != '('
    requires NoLineTerminator(a) && NoLineTerminator(b)
    requires Normalize(input) == Trim(a) || Normalize(input) == Trim(b)
    ensures ValidateTypingAnswer(input, expected)
  {
    MatchAbbrevOfForm(a, b);
  }

  /** An acronym is accepted against words joined by single spaces that it spells, in either direction. */
  lemma ValidateAcceptsAcronym(acronym: string, ws: seq<string>)
    requires IsAcronym(acronym) && |ws| >= 1
    requires forall k :: 0 <= k < |ws| ==> ws[k] != [] && NoSpace(ws[k])
    requires !IsAcronym(Join(ws, " "))
    requires |ws| >= |acronym| && forall k :: 0 <= k < |acronym| ==> UpperChar(ws[k][0]) == UpperChar(acronym[k])
    ensures ValidateTypingAnswer(acronym, Join(ws, " "))
    ensures ValidateTypingAnswer(Join(ws, " "), acronym)
  {
    AcronymOfWords(acronym, ws);
    var text := Join(ws, " ");
    JoinStartsWith(ws);
    assert text[|text| - 1] == ws[|ws| - 1][|ws[|ws| - 1]| - 1] by { JoinEndsWith(ws); }
    TrimNoOp(text);
    TrimNoOp(acronym);
  }

  lemma JoinEndsWith(ws: seq<string>)
    requires |ws| >= 1 && ws[|ws| - 1] != []
    ensures Join(ws, " ") != [] && Join(ws, " ")[|Join(ws, " ")| - 1] == ws[|ws| - 1][|ws[|ws| - 1]| - 1]
  {
  }

  /** "CSR" against "Corporate Social Responsibility", both ways. */
  lemma ValidateCsrExample()
    ensures ValidateTypingAnswer("CSR", "Corporate Social Responsibility")
    ensures ValidateTypingAnswer("Corporate Social Responsibility", "CSR")
  {
    var ws := ["Corporate", "Social", "Responsibility"];
    assert Join(ws, " ") == "Corporate Social Responsibility";
    assert !IsAcronym(Join(ws, " "));
    forall k | 0 <= k < |ws| ensures ws[k] != [] && NoSpace(ws[k]) {}
    ValidateAcceptsAcronym("CSR", ws);
  }
}
