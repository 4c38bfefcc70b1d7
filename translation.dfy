/**
 * Translation of parsed examples into vocabulary pairs. Each example's
 * sentence and word are sent to the translator together, joined by ` === `;
 * the word's translation is read back after the last `===` of the reply,
 * with a single retry on the bare word when the separator is lost and a
 * fallback to the English word when no usable translation comes back.
 */
module Translation {
  import opened Text
  import opened Wrappers
  import opened TextParser

  /**
   * One translator call as the loop sees it: the call throws (`Threw`), or it
   * returns a reply whose `[0]?.translation_text` is `text` (`None` when missing).
   */
  datatype Reply = Threw | Returned(text: Option<string>)

  /** A vocabulary pair as returned to the caller; `polish` holds the translation whatever the target language. */
  datatype Pair = Pair(english: string, polish: string, difficulty: string)

  /** `SEPARATOR`, placed between sentence and word in the query. */
  const Separator: string := " === "

  /** The marker looked for in the reply. */
  const Marker: string := "==="

  /** The query sent for an example: sentence, separator, word. */
  function Query(e: Example): (q: string)
    ensures StartsWith(q, e.sentence) && EndsWith(q, e.vocabulary)
    ensures Contains(q, Marker)
  {
    var q := e.sentence + Separator + e.vocabulary;
    assert q[|e.sentence| + 1..|e.sentence| + 4] == Marker;
    assert OccursAt(q, Marker, |e.sentence| + 1);
    assert q[..|e.sentence|] == e.sentence;
    assert q[|q| - |e.vocabulary|..] == e.vocabulary;
    q
  }

  predicate IsStripped(c: char) {
    c == '.' || c == ',' || c == ';' || c == '!' || c == '?'
  }

  /** `replace(/[.,;!?]+$/, '')`: removes the whole trailing run of those marks. */
  function StripTrailingMarks(s: string): (r: string)
    ensures |r| <= |s| && r == s[..|r|]
    ensures forall i :: |r| <= i < |s| ==> IsStripped(s[i])
    ensures r != [] ==> !IsStripped(r[|r| - 1])
  {
    if s != [] && IsStripped(s[|s| - 1]) then StripTrailingMarks(s[..|s| - 1]) else s
  }

  /** The word read from a reply that contains the marker: the last piece, trimmed, with trailing marks removed. */
  function ExtractWord(text: string): (w: string)
    ensures w != [] ==> !IsSpace(w[0]) && !IsStripped(w[|w| - 1])
  {
    StripTrailingMarks(Trim(LastOf(text, Marker)))
  }

  /** A reply whose text is present, non-empty and holds the marker: the answer is read from it without a retry. */
  predicate MarkedReply(r: Reply) {
    r.Returned? && r.text.Some? && r.text.value != [] && Contains(r.text.value, Marker)
  }

  /** `polishWord` just before the truthiness test at line 39; `None` when the call threw or the text was missing. */
  function Candidate(translate: string -> Reply, e: Example): (c: Option<string>)
    ensures translate(Query(e)).Threw? ==> c.None?
    ensures MarkedReply(translate(Query(e))) ==> c.Some? && !Contains(c.value, Marker)
    ensures translate(Query(e)).Returned? && !MarkedReply(translate(Query(e))) ==>
              (translate(e.vocabulary).Threw? ==> c.None?)
              && (translate(e.vocabulary).Returned? ==> c == translate(e.vocabulary).text)
  {
    match translate(Query(e))
    case Threw => None
    case Returned(full) =>
      if full.Some? && full.value != [] && Contains(full.value, Marker) then
        ExtractWordShape(full.value);
        Some(ExtractWord(full.value))
      else
        match translate(e.vocabulary)
        case Threw => None
        case Returned(retry) => retry
  }

  /** The pair pushed for one example: the lowercased candidate, or the English word as fallback. */
  function TranslateOne(translate: string -> Reply, e: Example): (p: Pair)
    ensures p.english == e.vocabulary && p.difficulty == e.difficulty
    ensures p.polish == e.vocabulary || (p.polish != [] && forall i :: 0 <= i < |p.polish| ==> !IsAsciiUpper(p.polish[i]))
  {
    var c := Candidate(translate, e);
    if c.Some? && c.value != [] then Pair(e.vocabulary, Lower(c.value), e.difficulty)
    else Pair(e.vocabulary, e.vocabulary, e.difficulty)
  }

  /**
   * `TranslationService.translateExamples` with the translator as a
   * parameter: the first `count` examples (JavaScript `slice(0, count)`),
   * one pair each, in order.
   */
  method TranslateExamples(examples: seq<Example>, count: int, translate: string -> Reply)
    returns (pairs: seq<Pair>)
    ensures |pairs| == SliceEnd(|examples|, count)
    ensures forall k :: 0 <= k < |pairs| ==> pairs[k] == TranslateOne(translate, examples[k])
  {
    var todo := examples[..SliceEnd(|examples|, count)];
    pairs := [];
    for i := 0 to |todo|
      invariant |pairs| == i
      invariant forall k :: 0 <= k < i ==> pairs[k] == TranslateOne(translate, todo[k])
    {
      var pair := TranslateExample(todo[i], translate);
      pairs := pairs + [pair];
    }
  }

  /** The body of the loop in `translateExamples` for one example, `try` and `catch` included. */
  method TranslateExample(example: Example, translate: string -> Reply) returns (pair: Pair)
    ensures pair == TranslateOne(translate, example)
  {
    var failed := false;
    var polishWord: Option<string> := Some("");
    var inputWithContext := example.sentence + Separator + example.vocabulary;
    var translationResult := translate(inputWithContext);
    if translationResult.Threw? {
      failed := true;
    } else {
      var fullTranslatedText := translationResult.text;
      if fullTranslatedText.Some? && fullTranslatedText.value != [] && Contains(fullTranslatedText.value, Marker) {
        var parts := SplitOn(fullTranslatedText.value, Marker);
        polishWord := Some(Trim(parts[|parts| - 1]));
        polishWord := Some(StripTrailingMarks(polishWord.value));
      } else {
        var retryResult := translate(example.vocabulary);
        if retryResult.Threw? {
          failed := true;
        } else {
          polishWord := retryResult.text;
        }
      }
      assert failed || polishWord == Candidate(translate, example);
      if !failed {
        if polishWord.Some? && polishWord.value != [] {
          polishWord := Some(Lower(polishWord.value));
          pair := Pair(example.vocabulary, polishWord.value, example.difficulty);
        } else {
          // `throw new Error("Empty translation")`, caught below.
          failed := true;
        }
      }
    }
    if failed {
      pair := Pair(example.vocabulary, example.vocabulary, example.difficulty);
    }
  }

  // ---------------------------------------------------------------------------
  // Properties

  /** Trimming keeps a marker-free text marker-free. */
  lemma TrimKeepsNoMarker(s: string)
    requires !Contains(s, Marker)
    ensures !Contains(Trim(s), Marker)
  {
    var t := TrimStart(s);
    TrimStartShape(s);
    TrimEndShape(t);
    InfixNotContains(s, Marker, |s| - |t|, |s|);
    assert s[|s| - |t|..|s|] == t;
    InfixNotContains(t, Marker, 0, |TrimEnd(t)|);
  }

  /** Stripping trailing marks keeps a marker-free text marker-free. */
  lemma StripKeepsNoMarker(s: string)
    requires !Contains(s, Marker)
    ensures !Contains(StripTrailingMarks(s), Marker)
  {
    var w := StripTrailingMarks(s);
    InfixNotContains(s, Marker, 0, |w|);
  }

  /** The extracted word holds no marker and does not end in one of the stripped marks. */
  lemma ExtractWordShape(text: string)
    ensures !Contains(ExtractWord(text), Marker)
    ensures ExtractWord(text) != [] ==> !IsStripped(ExtractWord(text)[|ExtractWord(text)| - 1])
  {
    LastPiece(text, Marker);
    var last := LastOf(text, Marker);
    assert !Contains(last, Marker);
    TrimKeepsNoMarker(last);
    StripKeepsNoMarker(Trim(last));
  }

  /** A translator that throws on the query gives the fallback pair. */
  lemma FallbackOnThrow(translate: string -> Reply, e: Example)
    requires translate(Query(e)).Threw?
    ensures TranslateOne(translate, e) == Pair(e.vocabulary, e.vocabulary, e.difficulty)
  {
  }

  /** Without the marker in the reply, a retry that throws, returns no text or returns `''` gives the fallback pair. */
  lemma FallbackOnFailedRetry(translate: string -> Reply, e: Example)
    requires translate(Query(e)).Returned?
    requires var full := translate(Query(e)).text; !(full.Some? && full.value != [] && Contains(full.value, Marker))
    requires translate(e.vocabulary).Threw? || translate(e.vocabulary).text.GetOr("") == ""
    ensures TranslateOne(translate, e) == Pair(e.vocabulary, e.vocabulary, e.difficulty)
  {
  }

  /** Without the marker in the reply, a non-empty retry text is used raw, only lowercased. */
  lemma RetryUsedRaw(translate: string -> Reply, e: Example, w: string)
    requires translate(Query(e)).Returned?
    requires var full := translate(Query(e)).text; !(full.Some? && full.value != [] && Contains(full.value, Marker))
    requires translate(e.vocabulary) == Returned(Some(w)) && w != ""
    ensures TranslateOne(translate, e).polish == Lower(w)
  {
  }

  /**
   * With the marker in the reply no retry is made: any two translators that
   * give the same reply to the query translate the example the same way.
   */
  lemma NoRetryWithMarker(t1: string -> Reply, t2: string -> Reply, e: Example, full: string)
    requires t1(Query(e)) == Returned(Some(full)) && t2(Query(e)) == Returned(Some(full))
    requires Contains(full, Marker)
    ensures TranslateOne(t1, e) == TranslateOne(t2, e)
    ensures ExtractWord(full) != [] ==> TranslateOne(t1, e).polish == Lower(ExtractWord(full))
    ensures ExtractWord(full) == [] ==> TranslateOne(t1, e).polish == e.vocabulary
  {
  }
}
