/**
 * The parser for the language model's output: the text is cut into lines, each
 * line is trimmed, blank lines, `Theme:` lines and lines mentioning `Generate`
 * are dropped, and the remaining `Difficulty:`, `Vocabulary:` and `Sentence:`
 * lines fill an accumulator that is emitted as one example record.
 */
module TextParser {
  import opened Text
  import opened Wrappers

  /** One parsed record. The difficulty is whatever lower-cased text followed `Difficulty:`. */
  datatype Example = Example(sentence: string, vocabulary: string, difficulty: string)

  /** The accumulator `currentExample`; a field that was never assigned is `None`. */
  datatype Pending = Pending(sentence: Option<string>, vocabulary: Option<string>, difficulty: Option<string>)

  const Fresh: Pending := Pending(None, None, None)

  /** JavaScript truthiness of an optional string field. */
  predicate Truthy(f: Option<string>) {
    f.Some? && f.value != []
  }

  predicate Complete(p: Pending) {
    Truthy(p.sentence) && Truthy(p.vocabulary) && Truthy(p.difficulty)
  }

  // ---------------------------------------------------------------------------
  // Line preparation

  /** The line filter: non-empty, not a `Theme:` line, and not mentioning `Generate`. */
  predicate Kept(line: string) {
    line != [] && !StartsWith(line, "Theme:") && !Contains(line, "Generate")
  }

  /** Trims every line and keeps those the filter accepts, in order. */
  function KeepLines(raw: seq<string>): (r: seq<string>)
    ensures |r| <= |raw|
    ensures forall i :: 0 <= i < |r| ==> Kept(r[i]) && Trim(r[i]) == r[i]
    ensures forall j :: 0 <= j < |raw| && Kept(Trim(raw[j])) ==> Trim(raw[j]) in r
  {
    if raw == [] then []
    else
      var t := Trim(raw[0]);
      TrimNoOp(t);
      assert forall j :: 1 <= j < |raw| ==> raw[j] == raw[1..][j - 1];
      (if Kept(t) then [t] else []) + KeepLines(raw[1..])
  }

  /** Every kept line is the trim of some raw line. */
  lemma {:induction false} KeepLinesFrom(raw: seq<string>)
    ensures forall i :: 0 <= i < |KeepLines(raw)| ==> exists j :: 0 <= j < |raw| && KeepLines(raw)[i] == Trim(raw[j])
  {
    if raw == [] {
      assert KeepLines(raw) == [];
    } else {
      KeepLinesFrom(raw[1..]);
      var head := if Kept(Trim(raw[0])) then [Trim(raw[0])] else [];
      assert KeepLines(raw) == head + KeepLines(raw[1..]);
      TrimsFrom(raw, head, KeepLines(raw[1..]));
    }
  }

  /** Lines that are trims of the tail, after at most the first line's trim, are trims of the whole. */
  lemma TrimsFrom(raw: seq<string>, head: seq<string>, rest: seq<string>)
    requires raw != [] && (head == [] || head == [Trim(raw[0])])
    requires forall i :: 0 <= i < |rest| ==> exists j :: 0 <= j < |raw[1..]| && rest[i] == Trim(raw[1..][j])
    ensures forall i :: 0 <= i < |head + rest| ==> exists j :: 0 <= j < |raw| && (head + rest)[i] == Trim(raw[j])
  {
    forall i | 0 <= i < |head + rest|
      ensures exists j :: 0 <= j < |raw| && (head + rest)[i] == Trim(raw[j])
    {
      if i < |head| {
        assert (head + rest)[i] == Trim(raw[0]);
      } else {
        assert (head + rest)[i] == rest[i - |head|];
        var j' :| 0 <= j' < |raw[1..]| && rest[i - |head|] == Trim(raw[1..][j']);
        assert raw[1..][j'] == raw[j' + 1];
      }
    }
  }

  /** Preparing the lines keeps their order: it distributes over concatenation. */
  lemma {:induction false} KeepLinesAppend(a: seq<string>, b: seq<string>)
    ensures KeepLines(a + b) == KeepLines(a) + KeepLines(b)
  {
    if a != [] {
      assert (a + b)[0] == a[0] && (a + b)[1..] == a[1..] + b;
      KeepLinesAppend(a[1..], b);
      var head := if Kept(Trim(a[0])) then [Trim(a[0])] else [];
      assert KeepLines(a + b) == head + KeepLines(a[1..] + b);
      assert KeepLines(a) == head + KeepLines(a[1..]);
      assert KeepLines(a + b) == KeepLines(a) + KeepLines(b);
    } else {
      assert a + b == b;
    }
  }

  /** `generatedText.split('\n').map(trim).filter(...)`. */
  function Lines(text: string): (ls: seq<string>)
    ensures |ls| <= |SplitOn(text, "\n")|
    ensures forall i :: 0 <= i < |ls| ==> Kept(ls[i]) && Trim(ls[i]) == ls[i]
  {
    KeepLines(SplitOn(text, "\n"))
  }

  /** What a prepared line contributes: the text after its label, or nothing. */
  datatype LineKind =
    | DifficultyLine(value: string)
    | VocabularyLine(value: string)
    | SentenceLine(value: string)
    | OtherLine

  /**
   * The if/else-if chain of the loop body: `Difficulty:` is tested first, then
   * `Vocabulary:`, then `Sentence:`. The difficulty value is trimmed and
   * lower-cased, the other two only trimmed.
   */
  function Classify(line: string): (k: LineKind)
    ensures k.DifficultyLine? <==> StartsWith(line, "Difficulty:")
    ensures k.VocabularyLine? <==> !StartsWith(line, "Difficulty:") && StartsWith(line, "Vocabulary:")
    ensures k.SentenceLine? <==> !StartsWith(line, "Difficulty:") && !StartsWith(line, "Vocabulary:") && StartsWith(line, "Sentence:")
  {
    if StartsWith(line, "Difficulty:") then DifficultyLine(Lower(Trim(line[11..])))
    else if StartsWith(line, "Vocabulary:") then VocabularyLine(Trim(line[11..]))
    else if StartsWith(line, "Sentence:") then SentenceLine(Trim(line[9..]))
    else OtherLine
  }

  // ---------------------------------------------------------------------------
  // The specification: one loop iteration, and the loop as a fold

  datatype ParseState = ParseState(examples: seq<Example>, current: Pending)

  const Start: ParseState := ParseState([], Fresh)

  /**
   * One iteration of the loop over the lines. With `checkSentence` false this
   * is the code as written (text-parser.ts:33 tests only vocabulary and
   * difficulty); with it true the `Sentence:` branch also requires a non-empty
   * sentence, as the `Difficulty:` flush does.
   */
  function Step(st: ParseState, kind: LineKind, checkSentence: bool): (r: ParseState)
    ensures st.examples <= r.examples && |r.examples| <= |st.examples| + 1
  {
    var cur := st.current;
    match kind
    case DifficultyLine(d) =>
      var flushed :=
        if Complete(cur) then st.examples + [Example(cur.sentence.value, cur.vocabulary.value, cur.difficulty.value)]
        else st.examples;
      ParseState(flushed, Pending(None, None, Some(d)))
    case VocabularyLine(v) =>
      ParseState(st.examples, cur.(vocabulary := Some(v)))
    case SentenceLine(sentence) =>
      if (!checkSentence || sentence != []) && Truthy(cur.vocabulary) && Truthy(cur.difficulty) then
        ParseState(st.examples + [Example(sentence, cur.vocabulary.value, cur.difficulty.value)], Fresh)
      else
        ParseState(st.examples, cur.(sentence := Some(sentence)))
    case OtherLine => st
  }

  /**
   * What one line does: only a `Difficulty:` line with a complete record, or
   * a `Sentence:` line with vocabulary and difficulty set, emits; the record
   * carries the pending vocabulary and difficulty; a `Difficulty:` line starts
   * a new record holding only its value; any other line changes nothing.
   */
  lemma StepEffect(st: ParseState, kind: LineKind, checkSentence: bool)
    ensures var r := Step(st, kind, checkSentence);
            && (|r.examples| > |st.examples| ==>
                  ((kind.DifficultyLine? && Complete(st.current)) || (kind.SentenceLine? && (!checkSentence || kind.value != [])))
                  && Truthy(st.current.vocabulary) && Truthy(st.current.difficulty)
                  && r.examples[|st.examples|].vocabulary == st.current.vocabulary.value
                  && r.examples[|st.examples|].difficulty == st.current.difficulty.value)
            && (kind.DifficultyLine? ==> r.current == Pending(None, None, Some(kind.value)))
            && (kind.OtherLine? ==> r == st)
  {
  }

  /** A `Sentence:` line with vocabulary and difficulty set emits the record and starts afresh. */
  lemma SentenceEmits(st: ParseState, s: string, checkSentence: bool)
    requires Truthy(st.current.vocabulary) && Truthy(st.current.difficulty)
    requires !checkSentence || s != []
    ensures Step(st, SentenceLine(s), checkSentence)
            == ParseState(st.examples + [Example(s, st.current.vocabulary.value, st.current.difficulty.value)], Fresh)
  {
  }

  /** Otherwise a `Sentence:` line only records its value. */
  lemma SentenceStores(st: ParseState, s: string, checkSentence: bool)
    requires !Truthy(st.current.vocabulary) || !Truthy(st.current.difficulty) || (checkSentence && s == [])
    ensures Step(st, SentenceLine(s), checkSentence) == ParseState(st.examples, st.current.(sentence := Some(s)))
  {
  }

  /** A `Vocabulary:` line only records its value. */
  lemma VocabularyStores(st: ParseState, v: string, checkSentence: bool)
    ensures Step(st, VocabularyLine(v), checkSentence) == ParseState(st.examples, st.current.(vocabulary := Some(v)))
  {
  }

  /** A `Difficulty:` line flushes a complete record, and only a complete one. */
  lemma DifficultyFlushes(st: ParseState, d: string, checkSentence: bool)
    ensures var cur := st.current;
            Step(st, DifficultyLine(d), checkSentence).examples
            == if Complete(cur) then st.examples + [Example(cur.sentence.value, cur.vocabulary.value, cur.difficulty.value)]
               else st.examples
  {
  }

  /** The state after the loop has consumed lines of the given kinds. */
  function Run(kinds: seq<LineKind>, checkSentence: bool): ParseState {
    if kinds == [] then Start
    else Step(Run(kinds[..|kinds| - 1], checkSentence), kinds[|kinds| - 1], checkSentence)
  }

  /** The classification of each line, in order. */
  function Kinds(lines: seq<string>): (ks: seq<LineKind>)
    ensures |ks| == |lines|
  {
    if lines == [] then [] else Kinds(lines[..|lines| - 1]) + [Classify(lines[|lines| - 1])]
  }

  /** `TextParser.parseExamples` as a function of the generated text. */
  function Parse(text: string): (examples: seq<Example>)
    ensures forall k :: 0 <= k < |examples| ==> examples[k].vocabulary != [] && examples[k].difficulty != []
    ensures IsSubsequence(Difficulties(examples), DifficultyValues(Kinds(Lines(text))))
  {
    FieldsPresent(Kinds(Lines(text)), false);
    DifficultiesInOrder(Kinds(Lines(text)), false);
    Run(Kinds(Lines(text)), false).examples
  }

  // ---------------------------------------------------------------------------
  // The method, as the source runs it

  /** `TextParser.parseExamples`: prepares the lines, then makes one pass over them. */
  method ParseExamples(generatedText: string) returns (examples: seq<Example>)
    ensures examples == Parse(generatedText)
    ensures forall k :: 0 <= k < |examples| ==> examples[k].vocabulary != [] && examples[k].difficulty != []
    ensures |examples| <= |DifficultyValues(Kinds(Lines(generatedText)))|
  {
    examples := ParseLines(Lines(generatedText));
  }

  /** The loop of `parseExamples` over the prepared lines, updating the accumulator in place. */
  method ParseLines(lines: seq<string>) returns (examples: seq<Example>)
    ensures examples == Run(Kinds(lines), false).examples
    ensures forall k :: 0 <= k < |examples| ==> examples[k].vocabulary != [] && examples[k].difficulty != []
    ensures |examples| <= |DifficultyValues(Kinds(lines))|
  {
    examples := [];
    var current := Fresh;
    for i := 0 to |lines|
      invariant ParseState(examples, current) == Run(Kinds(lines[..i]), false)
    {
      var line := lines[i];
      RunNext(lines, i, false);
      if StartsWith(line, "Difficulty:") {
        if current.sentence.Some? && current.sentence.value != []
           && current.vocabulary.Some? && current.vocabulary.value != []
           && current.difficulty.Some? && current.difficulty.value != [] {
          examples := examples + [Example(current.sentence.value, current.vocabulary.value, current.difficulty.value)];
        }
        var difficultyValue := Lower(Trim(line[11..]));
        assert Classify(line) == DifficultyLine(difficultyValue);
        current := Pending(None, None, Some(difficultyValue));
      } else if StartsWith(line, "Vocabulary:") {
        var vocabularyValue := Trim(line[11..]);
        assert Classify(line) == VocabularyLine(vocabularyValue);
        current := current.(vocabulary := Some(vocabularyValue));
      } else if StartsWith(line, "Sentence:") {
        var sentenceValue := Trim(line[9..]);
        assert Classify(line) == SentenceLine(sentenceValue);
        current := current.(sentence := Some(sentenceValue));
        if current.vocabulary.Some? && current.vocabulary.value != []
           && current.difficulty.Some? && current.difficulty.value != [] {
          examples := examples + [Example(current.sentence.value, current.vocabulary.value, current.difficulty.value)];
          current := Fresh;
        }
      } else {
        assert Classify(line) == OtherLine;
      }
    }
    assert lines[..|lines|] == lines;
    FieldsPresent(Kinds(lines), false);
    DifficultiesInOrder(Kinds(lines), false);
  }

  /** The loop's state after line `i` is one step from its state before it. */
  lemma RunNext(lines: seq<string>, i: nat, checkSentence: bool)
    requires i < |lines|
    ensures Run(Kinds(lines[..i + 1]), checkSentence) == Step(Run(Kinds(lines[..i]), checkSentence), Classify(lines[i]), checkSentence)
  {
    assert lines[..i + 1][..i] == lines[..i];
  }

  // ---------------------------------------------------------------------------
  // Properties

  /** Empty input yields no examples. */
  lemma EmptyInputNoExamples()
    ensures Parse("") == []
  {
    assert SplitOn("", "\n") == [[]];
    assert Lines("") == [];
  }

  /** Every emitted example has a non-empty vocabulary and a non-empty difficulty. */
  lemma {:induction false} FieldsPresent(kinds: seq<LineKind>, checkSentence: bool)
    ensures forall k :: 0 <= k < |Run(kinds, checkSentence).examples| ==>
              Run(kinds, checkSentence).examples[k].vocabulary != [] && Run(kinds, checkSentence).examples[k].difficulty != []
    ensures checkSentence ==> forall k :: 0 <= k < |Run(kinds, checkSentence).examples| ==> Run(kinds, checkSentence).examples[k].sentence != []
    decreases |kinds|
  {
    if kinds != [] {
      FieldsPresent(kinds[..|kinds| - 1], checkSentence);
    }
  }

  /** The values of the `Difficulty:` kinds, in order. */
  function DifficultyValues(kinds: seq<LineKind>): (vs: seq<string>)
    ensures |vs| <= |kinds|
  {
    if kinds == [] then []
    else
      var init := DifficultyValues(kinds[..|kinds| - 1]);
      var last := kinds[|kinds| - 1];
      match last
      case DifficultyLine(d) => init + [d]
      case _ => init
  }

  /** `a` can be obtained from `b` by deleting elements. */
  predicate IsSubsequence<T(==)>(a: seq<T>, b: seq<T>)
    decreases |b|
  {
    if a == [] then true
    else if b == [] then false
    else (a[|a| - 1] == b[|b| - 1] && IsSubsequence(a[..|a| - 1], b[..|b| - 1])) || IsSubsequence(a, b[..|b| - 1])
  }

  lemma {:induction false} SubsequenceExtend<T>(a: seq<T>, b: seq<T>, x: T)
    requires IsSubsequence(a, b)
    ensures IsSubsequence(a, b + [x])
  {
    if a != [] {
      assert (b + [x])[..|b|] == b;
    }
  }

  lemma {:induction false} SubsequenceLength<T>(a: seq<T>, b: seq<T>)
    requires IsSubsequence(a, b)
    ensures |a| <= |b|
    decreases |b|
  {
    if a != [] {
      if a[|a| - 1] == b[|b| - 1] && IsSubsequence(a[..|a| - 1], b[..|b| - 1]) {
        SubsequenceLength(a[..|a| - 1], b[..|b| - 1]);
      } else {
        SubsequenceLength(a, b[..|b| - 1]);
      }
    }
  }

  function Difficulties(es: seq<Example>): (ds: seq<string>)
    ensures |ds| == |es| && forall k :: 0 <= k < |es| ==> ds[k] == es[k].difficulty
  {
    if es == [] then [] else Difficulties(es[..|es| - 1]) + [es[|es| - 1].difficulty]
  }

  /**
   * The loop invariant behind ordering: the emitted difficulties are a
   * subsequence of the `Difficulty:` values, and a pending difficulty is the
   * latest value, not yet used by any emitted example.
   */
  predicate OrderInvariant(kinds: seq<LineKind>, st: ParseState) {
    var ds := Difficulties(st.examples);
    var vs := DifficultyValues(kinds);
    if st.current.difficulty.Some? then
      vs != [] && vs[|vs| - 1] == st.current.difficulty.value && IsSubsequence(ds, vs[..|vs| - 1])
    else IsSubsequence(ds, vs)
  }

  lemma {:induction false} OrderInvariantHolds(kinds: seq<LineKind>, checkSentence: bool)
    ensures OrderInvariant(kinds, Run(kinds, checkSentence))
    decreases |kinds|
  {
    if kinds != [] {
      var init := kinds[..|kinds| - 1];
      var line := kinds[|kinds| - 1];
      var st := Run(init, checkSentence);
      OrderInvariantHolds(init, checkSentence);
      var ds := Difficulties(st.examples);
      var vs := DifficultyValues(init);
      var st' := Step(st, line, checkSentence);
      assert Run(kinds, checkSentence) == st';
      if line.DifficultyLine? {
        var vs' := vs + [line.value];
        assert DifficultyValues(kinds) == vs';
        assert vs'[..|vs'| - 1] == vs;
        if Complete(st.current) {
          var ex := Example(st.current.sentence.value, st.current.vocabulary.value, st.current.difficulty.value);
          assert Difficulties(st.examples + [ex]) == ds + [ex.difficulty];
          assert vs[..|vs| - 1] + [vs[|vs| - 1]] == vs;
          assert IsSubsequence(ds + [ex.difficulty], vs);
        } else if st.current.difficulty.Some? {
          assert vs[..|vs| - 1] + [vs[|vs| - 1]] == vs;
          SubsequenceExtend(ds, vs[..|vs| - 1], vs[|vs| - 1]);
        }
      } else {
        assert DifficultyValues(kinds) == vs;
        if line.SentenceLine? && st'.examples != st.examples {
          var ex := st'.examples[|st'.examples| - 1];
          assert st'.examples == st.examples + [ex];
          assert Difficulties(st'.examples) == ds + [ex.difficulty];
          assert vs[..|vs| - 1] + [vs[|vs| - 1]] == vs;
          assert IsSubsequence(ds + [ex.difficulty], vs);
        }
      }
    }
  }

  /**
   * Examples appear in input order: their difficulties, in order, are a
   * subsequence of the `Difficulty:` values, so there are never more examples
   * than `Difficulty:` kinds.
   */
  lemma DifficultiesInOrder(kinds: seq<LineKind>, checkSentence: bool)
    ensures IsSubsequence(Difficulties(Run(kinds, checkSentence).examples), DifficultyValues(kinds))
    ensures |Run(kinds, checkSentence).examples| <= |DifficultyValues(kinds)|
  {
    OrderInvariantHolds(kinds, checkSentence);
    var st := Run(kinds, checkSentence);
    var vs := DifficultyValues(kinds);
    assert IsSubsequence(Difficulties(st.examples), vs) by {
      if st.current.difficulty.Some? {
        assert vs[..|vs| - 1] + [vs[|vs| - 1]] == vs;
        SubsequenceExtend(Difficulties(st.examples), vs[..|vs| - 1], vs[|vs| - 1]);
      }
    }
    SubsequenceLength(Difficulties(st.examples), vs);
  }

  /** Input without any `Difficulty:`, any `Vocabulary:` or any `Sentence:` line yields no example. */
  lemma {:induction false} MissingFieldNoExamples(kinds: seq<LineKind>, checkSentence: bool)
    requires (forall k :: 0 <= k < |kinds| ==> !kinds[k].DifficultyLine?)
          || (forall k :: 0 <= k < |kinds| ==> !kinds[k].VocabularyLine?)
          || (forall k :: 0 <= k < |kinds| ==> !kinds[k].SentenceLine?)
    ensures Run(kinds, checkSentence).examples == []
    ensures (forall k :: 0 <= k < |kinds| ==> !kinds[k].DifficultyLine?) ==> Run(kinds, checkSentence).current.difficulty == None
    ensures (forall k :: 0 <= k < |kinds| ==> !kinds[k].VocabularyLine?) ==> Run(kinds, checkSentence).current.vocabulary == None
    ensures (forall k :: 0 <= k < |kinds| ==> !kinds[k].SentenceLine?) ==> Run(kinds, checkSentence).current.sentence == None
    decreases |kinds|
  {
    if kinds != [] {
      MissingFieldNoExamples(kinds[..|kinds| - 1], checkSentence);
    }
  }

  /** The code as written emits an example whose sentence is empty (see Findings). */
  lemma EmptySentenceEmitted()
    ensures Run([DifficultyLine("beginner"), VocabularyLine("computer"), SentenceLine("")], false).examples
            == [Example("", "computer", "beginner")]
  {
    var kinds := [DifficultyLine("beginner"), VocabularyLine("computer"), SentenceLine("")];
    assert kinds[..2] == [DifficultyLine("beginner"), VocabularyLine("computer")];
    assert kinds[..1] == [DifficultyLine("beginner")];
    assert kinds[..0] == [];
    assert Run(kinds[..1], false) == ParseState([], Pending(None, None, Some("beginner")));
    assert Run(kinds[..2], false) == ParseState([], Pending(None, Some("computer"), Some("beginner")));
  }

  /** A bare `Sentence:` line classifies as a sentence line with an empty value. */
  lemma BareSentenceLine()
    ensures Classify("Sentence:") == SentenceLine("")
  {
    assert "Sentence:"[9..] == "";
    assert TrimStart("") == "";
    assert TrimEnd("") == "";
  }

  /** With the sentence check of the `Difficulty:` flush applied to the `Sentence:` branch, that input yields nothing. */
  lemma EmptySentenceRejected()
    ensures Run([DifficultyLine("beginner"), VocabularyLine("computer"), SentenceLine("")], true).examples == []
  {
    var kinds := [DifficultyLine("beginner"), VocabularyLine("computer"), SentenceLine("")];
    assert kinds[..2] == [DifficultyLine("beginner"), VocabularyLine("computer")];
    assert kinds[..1] == [DifficultyLine("beginner")];
    assert kinds[..0] == [];
    assert Run(kinds[..1], true) == ParseState([], Pending(None, None, Some("beginner")));
    assert Run(kinds[..2], true) == ParseState([], Pending(None, Some("computer"), Some("beginner")));
  }
  // ---------------------------------------------------------------------------
  // Round trip: records written in the prompt's format parse back

  /** A record whose three fields are non-empty. */
  predicate Filled(e: Example) {
    e.sentence != [] && e.vocabulary != [] && e.difficulty != []
  }

  /** The line kinds of one record, in the order the prompt asks for. */
  function Block(e: Example): seq<LineKind> {
    [DifficultyLine(e.difficulty), VocabularyLine(e.vocabulary), SentenceLine(e.sentence)]
  }

  /** The line kinds of several records, one block after another. */
  function Blocks(exs: seq<Example>): (ks: seq<LineKind>)
    ensures |ks| == 3 * |exs|
  {
    if exs == [] then [] else Blocks(exs[..|exs| - 1]) + Block(exs[|exs| - 1])
  }

  lemma SnocThree<T>(b: seq<T>, x: T, y: T, z: T)
    ensures b + [x, y, z] == b + [x] + [y] + [z]
  {
  }

  lemma SnocLast<T>(s: seq<T>)
    requires s != []
    ensures s[..|s| - 1] + [s[|s| - 1]] == s
  {
  }

  /** The fold consumes a final line kind with one step. */
  lemma RunSnoc(ks: seq<LineKind>, k: LineKind, checkSentence: bool)
    ensures Run(ks + [k], checkSentence) == Step(Run(ks, checkSentence), k, checkSentence)
  {
    assert (ks + [k])[..|ks|] == ks;
  }

  /** After any input that left the accumulator empty, one filled block emits its record. */
  lemma RunBlockAfter(b: seq<LineKind>, init: seq<Example>, e: Example, checkSentence: bool)
    requires Run(b, checkSentence) == ParseState(init, Fresh)
    requires Filled(e)
    ensures Run(b + Block(e), checkSentence) == ParseState(init + [e], Fresh)
  {
    var k1 := b + [DifficultyLine(e.difficulty)];
    var k2 := k1 + [VocabularyLine(e.vocabulary)];
    SnocThree(b, DifficultyLine(e.difficulty), VocabularyLine(e.vocabulary), SentenceLine(e.sentence));
    RunSnoc(b, DifficultyLine(e.difficulty), checkSentence);
    DifficultyFlushes(Run(b, checkSentence), e.difficulty, checkSentence);
    RunSnoc(k1, VocabularyLine(e.vocabulary), checkSentence);
    RunSnoc(k2, SentenceLine(e.sentence), checkSentence);
    var s2 := ParseState(init, Pending(None, Some(e.vocabulary), Some(e.difficulty)));
    assert Run(k2, checkSentence) == s2;
    SentenceEmits(s2, e.sentence, checkSentence);
  }

  /** Blocks of filled records yield exactly those records, with the accumulator empty again. */
  lemma {:induction false} RunBlocks(exs: seq<Example>, checkSentence: bool)
    requires forall k :: 0 <= k < |exs| ==> Filled(exs[k])
    ensures Run(Blocks(exs), checkSentence) == ParseState(exs, Fresh)
    decreases |exs|
  {
    if exs == [] {
      assert Blocks(exs) == [];
    } else {
      var init := exs[..|exs| - 1];
      RunBlocks(init, checkSentence);
      RunBlockAfter(Blocks(init), init, exs[|exs| - 1], checkSentence);
      SnocLast(exs);
    }
  }

  /** One block on its own: the shape of the single-record case. */
  lemma OneBlock(e: Example, checkSentence: bool)
    requires Filled(e)
    ensures Run(Block(e), checkSentence) == ParseState([e], Fresh)
  {
    assert [e][..0] == [];
    assert Blocks([e]) == Block(e);
    RunBlocks([e], checkSentence);
  }

  /** The three text lines of one record. */
  function RecordLines(e: Example): (ls: seq<string>)
    ensures |ls| == 3
  {
    ["Difficulty: " + e.difficulty, "Vocabulary: " + e.vocabulary, "Sentence: " + e.sentence]
  }

  /** The text lines of several records. */
  function AllRecordLines(exs: seq<Example>): (ls: seq<string>)
    ensures |ls| == 3 * |exs|
  {
    if exs == [] then [] else AllRecordLines(exs[..|exs| - 1]) + RecordLines(exs[|exs| - 1])
  }

  /** The lines of several records, with a blank line between consecutive records. */
  function SpacedLines(exs: seq<Example>): seq<string> {
    if exs == [] then []
    else if |exs| == 1 then RecordLines(exs[0])
    else SpacedLines(exs[..|exs| - 1]) + [""] + RecordLines(exs[|exs| - 1])
  }

  /** The records written out one field per line, a blank line between records, the lines joined with `\n`. */
  function Render(exs: seq<Example>): string {
    if exs == [] then "" else Join(SpacedLines(exs), "\n")
  }

  predicate NoNewline(x: string) {
    forall i :: 0 <= i < |x| ==> x[i] != '\n'
  }

  /** A field the parser reads back unchanged: non-empty, its own trim, on one line and free of `Generate`. */
  predicate CleanField(x: string) {
    x != [] && Trim(x) == x && NoNewline(x) && !Contains(x, "Generate")
  }

  /** A record that survives the round trip; the difficulty must already be lower case. */
  predicate Clean(e: Example) {
    CleanField(e.sentence) && CleanField(e.vocabulary) && CleanField(e.difficulty) && Lower(e.difficulty) == e.difficulty
  }

  /** A line the preparation keeps as it is and that holds no line break. */
  predicate Prepared(line: string) {
    Kept(line) && Trim(line) == line && NoNewline(line)
  }

  /**
   * A field label that adds nothing the filter reacts to: it does not begin
   * with `T` or with white space, and holds neither a line break nor a `G`.
   */
  predicate PlainTag(tag: string) {
    tag != [] && tag[0] != 'T' && !IsSpace(tag[0]) && '\n' !in tag && 'G' !in tag
  }

  lemma TagsPlain()
    ensures PlainTag("Difficulty: ") && PlainTag("Vocabulary: ") && PlainTag("Sentence: ")
  {
  }

  /** A label followed by a clean field is a prepared line. */
  lemma LabelledPrepared(tag: string, x: string)
    requires CleanField(x)
    requires PlainTag(tag)
    ensures Prepared(tag + x)
  {
    var line := tag + x;
    assert line[0] == tag[0];
    assert !StartsWith(line, "Theme:") by {
      if |"Theme:"| <= |line| {
        assert line[..6][0] == line[0];
      }
    }
    PrefixKeepsAbsent(tag, x, "Generate");
    assert !IsSpace(x[|x| - 1]);
    assert line[|line| - 1] == x[|x| - 1];
    TrimNoOp(line);
    forall i | 0 <= i < |line|
      ensures line[i] != '\n'
    {
      if i >= |tag| {
        assert line[i] == x[i - |tag|];
      }
    }
  }

  /** The three lines of a clean record are prepared lines. */
  lemma RecordLinesPrepared(e: Example)
    requires Clean(e)
    ensures forall i :: 0 <= i < 3 ==> Prepared(RecordLines(e)[i])
  {
    TagsPlain();
    var ls := RecordLines(e);
    LabelledPrepared("Difficulty: ", e.difficulty);
    LabelledPrepared("Vocabulary: ", e.vocabulary);
    LabelledPrepared("Sentence: ", e.sentence);
    assert Prepared(ls[0]) && Prepared(ls[1]) && Prepared(ls[2]);
  }

  /** The preparation keeps prepared lines exactly as they are. */
  lemma {:induction false} KeepPrepared(raw: seq<string>)
    requires forall i :: 0 <= i < |raw| ==> Prepared(raw[i])
    ensures KeepLines(raw) == raw
    decreases |raw|
  {
    if raw != [] {
      assert Prepared(raw[0]);
      assert forall i :: 0 <= i < |raw[1..]| ==> raw[1..][i] == raw[i + 1];
      KeepPrepared(raw[1..]);
      assert [raw[0]] + raw[1..] == raw;
    }
  }

  /** The preparation drops the blank separator lines and keeps every record line. */
  lemma {:induction false} KeepSpaced(exs: seq<Example>)
    requires forall k :: 0 <= k < |exs| ==> Clean(exs[k])
    ensures KeepLines(SpacedLines(exs)) == AllRecordLines(exs)
    decreases |exs|
  {
    if exs == [] {
    } else {
      var init := exs[..|exs| - 1];
      var r := RecordLines(exs[|exs| - 1]);
      RecordLinesPrepared(exs[|exs| - 1]);
      KeepPrepared(r);
      if |exs| == 1 {
        assert init == [];
        assert AllRecordLines(exs) == [] + r;
      } else {
        KeepSpaced(init);
        KeepBlankThen(SpacedLines(init), r);
      }
    }
  }

  /** A blank line between two blocks is dropped. */
  lemma KeepBlankThen(a: seq<string>, r: seq<string>)
    ensures KeepLines(a + [""] + r) == KeepLines(a) + KeepLines(r)
  {
    KeepLinesAppend(a + [""], r);
    KeepLinesAppend(a, [""]);
    assert Trim("") == "";
    assert KeepLines([""]) == [];
  }

  /** No line of the written-out records holds a line break. */
  lemma {:induction false} SpacedNoNewline(exs: seq<Example>)
    requires forall k :: 0 <= k < |exs| ==> Clean(exs[k])
    ensures forall i :: 0 <= i < |SpacedLines(exs)| ==> NoNewline(SpacedLines(exs)[i])
    decreases |exs|
  {
    if exs != [] {
      var r := RecordLines(exs[|exs| - 1]);
      RecordLinesPrepared(exs[|exs| - 1]);
      if |exs| > 1 {
        var init := exs[..|exs| - 1];
        SpacedNoNewline(init);
        var a := SpacedLines(init) + [""];
        assert forall i :: 0 <= i < |a| ==> NoNewline(a[i]);
        forall i | 0 <= i < |a + r|
          ensures NoNewline((a + r)[i])
        {
          if i < |a| {
            assert (a + r)[i] == a[i];
          } else {
            assert (a + r)[i] == r[i - |a|];
          }
        }
      }
    }
  }

  /** Classifying lines distributes over concatenation. */
  lemma {:induction false} KindsAppend(a: seq<string>, b: seq<string>)
    ensures Kinds(a + b) == Kinds(a) + Kinds(b)
    decreases |b|
  {
    if b == [] {
      assert a + b == a;
    } else {
      var b0 := b[..|b| - 1];
      assert (a + b)[..|a + b| - 1] == a + b0;
      KindsAppend(a, b0);
    }
  }

  /** A `Difficulty:` line classifies as its lower-case field. */
  lemma DifficultyLineKind(x: string)
    requires CleanField(x) && Lower(x) == x
    ensures Classify("Difficulty: " + x) == DifficultyLine(x)
  {
    var line := "Difficulty: " + x;
    TrimAfterSpace(x);
    assert line[..11] == "Difficulty:";
    assert line[11..] == " " + x;
  }

  /** A `Vocabulary:` line classifies as its field. */
  lemma VocabularyLineKind(x: string)
    requires CleanField(x)
    ensures Classify("Vocabulary: " + x) == VocabularyLine(x)
  {
    var line := "Vocabulary: " + x;
    TrimAfterSpace(x);
    assert line[..11] == "Vocabulary:";
    assert !StartsWith(line, "Difficulty:") by { assert line[..11][0] == 'V'; }
    assert line[11..] == " " + x;
  }

  /** A `Sentence:` line classifies as its field. */
  lemma SentenceLineKind(x: string)
    requires CleanField(x)
    ensures Classify("Sentence: " + x) == SentenceLine(x)
  {
    var line := "Sentence: " + x;
    TrimAfterSpace(x);
    assert line[..9] == "Sentence:";
    assert !StartsWith(line, "Difficulty:") && !StartsWith(line, "Vocabulary:") by {
      if 11 <= |line| {
        assert line[..11][0] == 'S';
      }
    }
    assert line[9..] == " " + x;
  }

  lemma KindsThree(a: string, b: string, c: string)
    ensures Kinds([a, b, c]) == [Classify(a), Classify(b), Classify(c)]
  {
    assert [a, b, c][..2] == [a, b];
    assert [a, b][..1] == [a];
    assert [a][..0] == [];
    assert Kinds([a]) == [Classify(a)];
    assert Kinds([a, b]) == [Classify(a), Classify(b)];
  }

  /** The lines of a clean record classify as its block. */
  lemma RecordKinds(e: Example)
    requires Clean(e)
    ensures Kinds(RecordLines(e)) == Block(e)
  {
    KindsThree("Difficulty: " + e.difficulty, "Vocabulary: " + e.vocabulary, "Sentence: " + e.sentence);
    DifficultyLineKind(e.difficulty);
    VocabularyLineKind(e.vocabulary);
    SentenceLineKind(e.sentence);
  }

  lemma {:induction false} AllRecordKinds(exs: seq<Example>)
    requires forall k :: 0 <= k < |exs| ==> Clean(exs[k])
    ensures Kinds(AllRecordLines(exs)) == Blocks(exs)
    decreases |exs|
  {
    if exs == [] {
      assert AllRecordLines(exs) == [];
    } else {
      var init := exs[..|exs| - 1];
      AllRecordKinds(init);
      RecordKinds(exs[|exs| - 1]);
      KindsAppend(AllRecordLines(init), RecordLines(exs[|exs| - 1]));
    }
  }

  /**
   * Clean records written in the prompt's format, one field per line, parse
   * back to exactly those records, in order.
   */
  lemma ParseRender(exs: seq<Example>)
    requires forall k :: 0 <= k < |exs| ==> Clean(exs[k])
    ensures Parse(Render(exs)) == exs
  {
    if exs == [] {
      EmptyInputNoExamples();
    } else {
      var ls := SpacedLines(exs);
      SpacedNoNewline(exs);
      SplitJoinChar(ls, '\n');
      KeepSpaced(exs);
      AllRecordKinds(exs);
      RunBlocks(exs, false);
    }
  }
}
