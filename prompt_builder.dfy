/**
 * The chat prompt that asks the language model for vocabulary examples in
 * the `Difficulty:` / `Vocabulary:` / `Sentence:` line format read back by
 * the text parser.
 */
module PromptBuilder {
  import opened Text
  import opened Wrappers

  datatype Message = Message(role: string, content: string)

  const SystemContent: string := "You are an expert English teacher. Generate clear, context-rich vocabulary examples."

  const MixInstruction: string := "Include a mix of difficulty levels: beginner, intermediate, and advanced words."

  /** The three lines of the record format the prompt asks for. */
  const FormatDifficulty: string := "Difficulty: [beginner/intermediate/advanced]"
  const FormatVocabulary: string := "Vocabulary: [vocabulary word]"
  const FormatSentence: string := "Sentence: [complete sentence using the vocabulary word in context]"

  /** The fixed middle of the user prompt: the word-choice rule, the format and three examples, one string per line. */
  const Body: seq<string> := [
    "Crucial: The 'Sentence' must clearly demonstrate the meaning of the 'Vocabulary' word. The 'Vocabulary' word should be exactly a single word or phrase, not multiple words after commas.",
    "",
    "Format (repeat exactly for each example):",
    FormatDifficulty,
    FormatVocabulary,
    FormatSentence,
    "",
    "Examples:",
    "Difficulty: beginner",
    "Vocabulary: computer",
    "Sentence: I use my computer every day for work.",
    "",
    "Difficulty: intermediate",
    "Vocabulary: algorithm",
    "Sentence: The programmer wrote an efficient algorithm to solve the problem.",
    "",
    "Difficulty: advanced",
    "Vocabulary: virtualization",
    "Sentence: Server virtualization allows multiple operating systems to run on a single physical machine.",
    ""]

  /** `difficultyMap[d]` as the template renders it; a missing key renders as `undefined`. */
  function DifficultyName(d: int): (name: string)
    ensures d == 1 ==> name == "beginner"
    ensures d == 2 ==> name == "intermediate"
    ensures d == 3 ==> name == "advanced"
    ensures d !in {1, 2, 3} ==> name == "undefined"
  {
    if d == 1 then "beginner"
    else if d == 2 then "intermediate"
    else if d == 3 then "advanced"
    else "undefined"
  }

  /** A difficulty that is given and not 0 (JavaScript truthiness of a number). */
  predicate HasLevel(difficulty: Option<int>) {
    difficulty.Some? && difficulty.value != 0
  }

  function Instruction(difficulty: Option<int>): string {
    if HasLevel(difficulty) then "Generate words at " + DifficultyName(difficulty.value) + " difficulty level only."
    else MixInstruction
  }

  function Opening(theme: string, count: int): string {
    "Generate exactly " + IntToString(count) + " vocabulary learning examples for the theme \"" + theme + "\"."
  }

  /** The end of the closing line, colon included. */
  function ClosingTail(difficulty: Option<int>): string {
    if HasLevel(difficulty) then " at " + DifficultyName(difficulty.value) + " level:"
    else " with a balanced mix of difficulty levels:"
  }

  function Closing(theme: string, count: int, difficulty: Option<int>): string {
    ClosingHead(theme, count) + ClosingTail(difficulty)
  }

  function ClosingHead(theme: string, count: int): string {
    "Now generate exactly " + IntToString(count) + " examples for theme \"" + theme + "\""
  }

  /** `buildPrompt`'s template literal, line by line. */
  function UserPrompt(theme: string, count: int, difficulty: Option<int>): (prompt: string)
    ensures StartsWith(prompt, Opening(theme, count) + "\n" + Instruction(difficulty) + "\n")
    ensures EndsWith(prompt, "\n" + Closing(theme, count, difficulty))
    ensures EndsWith(prompt, ClosingTail(difficulty))
  {
    JoinFrame(Opening(theme, count), Instruction(difficulty), Body, Closing(theme, count, difficulty), "\n");
    var prompt := Join([Opening(theme, count), Instruction(difficulty)] + Body + [Closing(theme, count, difficulty)], "\n");
    var closing := Closing(theme, count, difficulty);
    EndsWithConcat("\n", closing);
    EndsWithTrans(prompt, "\n" + closing, closing);
    EndsWithConcat(ClosingHead(theme, count), ClosingTail(difficulty));
    EndsWithTrans(prompt, closing, ClosingTail(difficulty));
    prompt
  }

  /** `PromptBuilder.buildPrompt`: a system message with fixed content, then the user's prompt. */
  function BuildPrompt(theme: string, count: int, difficulty: Option<int>): (messages: seq<Message>)
    ensures |messages| == 2
    ensures messages[0] == Message("system", SystemContent)
    ensures messages[1].role == "user"
    ensures StartsWith(messages[1].content, Opening(theme, count) + "\n" + Instruction(difficulty) + "\n")
    ensures EndsWith(messages[1].content, "\n" + Closing(theme, count, difficulty))
    ensures EndsWith(messages[1].content, ClosingTail(difficulty))
  {
    [Message("system", SystemContent), Message("user", UserPrompt(theme, count, difficulty))]
  }

  /** A join of `a`, `b`, any middle lines and `z` starts with `a` and `b` and ends with `z`, each with its separator. */
  lemma JoinFrame(a: string, b: string, mid: seq<string>, z: string, sep: string)
    ensures StartsWith(Join([a, b] + mid + [z], sep), a + sep + b + sep)
    ensures EndsWith(Join([a, b] + mid + [z], sep), sep + z)
  {
    var parts := [a, b] + mid + [z];
    assert parts[0] == a && parts[1] == b && parts[|parts| - 1] == z;
    JoinShape(parts, sep);
  }

  /** A join of at least three parts starts with the first two and their separators, and ends with the separator and the last part. */
  lemma {:induction false} JoinShape(parts: seq<string>, sep: string)
    requires |parts| >= 3
    ensures StartsWith(Join(parts, sep), parts[0] + sep + parts[1] + sep)
    ensures EndsWith(Join(parts, sep), sep + parts[|parts| - 1])
  {
    JoinEnds(parts[1..], sep);
    var rest := Join(parts[2..], sep);
    assert Join(parts[1..], sep) == parts[1] + sep + rest by {
      assert parts[1..][1..] == parts[2..];
    }
    assert Join(parts, sep) == parts[0] + sep + parts[1] + sep + rest;
    assert parts[1..][|parts[1..]| - 1] == parts[|parts| - 1];
  }

  /** A join of at least two parts ends with the separator and the last part. */
  lemma {:induction false} JoinEnds(parts: seq<string>, sep: string)
    requires |parts| >= 2
    ensures EndsWith(Join(parts, sep), sep + parts[|parts| - 1])
    decreases |parts|
  {
    var tail := Join(parts[1..], sep);
    assert Join(parts, sep) == parts[0] + sep + tail;
    if |parts| == 2 {
      assert parts[1..] == [parts[1]];
      assert tail == parts[1];
    } else {
      JoinEnds(parts[1..], sep);
      assert parts[1..][|parts[1..]| - 1] == parts[|parts| - 1];
    }
  }

  // ---------------------------------------------------------------------------
  // Properties

  /** With a level, the prompt asks for that level twice: in the instruction and in the closing line. */
  lemma LevelStated(theme: string, count: int, d: int)
    requires d != 0
    ensures var content := BuildPrompt(theme, count, Some(d))[1].content;
            && Contains(content, "Generate words at " + DifficultyName(d) + " difficulty level only.")
            && EndsWith(content, " at " + DifficultyName(d) + " level:")
  {
    var content := BuildPrompt(theme, count, Some(d))[1].content;
    LineAfter(content, Opening(theme, count), Instruction(Some(d)));
  }

  /** Without a level (none given, or 0), the prompt asks for the mix and closes with the balanced mix. */
  lemma MixStated(theme: string, count: int, difficulty: Option<int>)
    requires !HasLevel(difficulty)
    ensures var content := BuildPrompt(theme, count, difficulty)[1].content;
            && Contains(content, MixInstruction)
            && EndsWith(content, " with a balanced mix of difficulty levels:")
  {
    var content := BuildPrompt(theme, count, difficulty)[1].content;
    LineAfter(content, Opening(theme, count), Instruction(difficulty));
  }

  /** The opening line names the count and the theme. */
  lemma OpeningStated(theme: string, count: int, difficulty: Option<int>)
    ensures StartsWith(BuildPrompt(theme, count, difficulty)[1].content,
                       "Generate exactly " + IntToString(count) + " vocabulary learning examples for the theme \"" + theme + "\".")
  {
    var content := BuildPrompt(theme, count, difficulty)[1].content;
    var o := Opening(theme, count);
    var i := Instruction(difficulty);
    StartsWithConcat(o + "\n" + i, "\n");
    StartsWithTrans(content, o + "\n" + i + "\n", o + "\n" + i);
    StartsWithConcat(o + "\n", i);
    StartsWithTrans(content, o + "\n" + i, o + "\n");
    StartsWithConcat(o, "\n");
    StartsWithTrans(content, o + "\n", o);
  }

  lemma StartsWithConcat(a: string, b: string)
    ensures StartsWith(a + b, a)
  {
    assert (a + b)[..|a|] == a;
  }

  lemma StartsWithTrans(s: string, t: string, u: string)
    requires StartsWith(s, t) && StartsWith(t, u)
    ensures StartsWith(s, u)
  {
    assert s[..|u|] == t[..|u|];
  }

  /** A text starting with `a`, a newline, `b` and a newline contains `b`. */
  lemma LineAfter(s: string, a: string, b: string)
    requires StartsWith(s, a + "\n" + b + "\n")
    ensures Contains(s, b)
  {
    var p := a + "\n" + b + "\n";
    assert s[|a| + 1..|a| + 1 + |b|] == p[|a| + 1..|a| + 1 + |b|] == b;
    assert OccursAt(s, b, |a| + 1);
  }

  lemma EndsWithConcat(a: string, b: string)
    ensures EndsWith(a + b, b)
  {
    assert (a + b)[|a + b| - |b|..] == b;
  }

  lemma EndsWithTrans(s: string, t: string, u: string)
    requires EndsWith(s, t) && EndsWith(t, u)
    ensures EndsWith(s, u)
  {
    assert s[|s| - |u|..] == t[|t| - |u|..];
  }

  /** The prompt spells out the three-line record format the text parser reads back. */
  lemma FormatStated(theme: string, count: int, difficulty: Option<int>)
    ensures var content := BuildPrompt(theme, count, difficulty)[1].content;
            Contains(content, FormatDifficulty) && Contains(content, FormatVocabulary) && Contains(content, FormatSentence)
  {
    FormatInJoin(Opening(theme, count), Instruction(difficulty), Closing(theme, count, difficulty));
  }

  /** A prompt framed by any opening, instruction and closing holds the three format lines of the body. */
  lemma FormatInJoin(o: string, i: string, c: string)
    ensures var s := Join([o, i] + Body + [c], "\n");
            Contains(s, FormatDifficulty) && Contains(s, FormatVocabulary) && Contains(s, FormatSentence)
  {
    var parts := [o, i] + Body + [c];
    assert parts[5] == FormatDifficulty && parts[6] == FormatVocabulary && parts[7] == FormatSentence;
    JoinContains(parts, "\n", 5);
    JoinContains(parts, "\n", 6);
    JoinContains(parts, "\n", 7);
  }

  /** Every part of a join occurs in it. */
  lemma {:induction false} JoinContains(parts: seq<string>, sep: string, k: nat)
    requires k < |parts|
    ensures Contains(Join(parts, sep), parts[k])
    decreases |parts|
  {
    var s := Join(parts, sep);
    if k == 0 {
      assert s[..|parts[0]|] == parts[0];
      assert OccursAt(s, parts[0], 0);
    } else {
      JoinContains(parts[1..], sep, k - 1);
      var t := Join(parts[1..], sep);
      var i :| 0 <= i <= |t| - |parts[k]| && OccursAt(t, parts[1..][k - 1], i);
      var pre := parts[0] + sep;
      assert s == pre + t;
      assert s[|pre| + i..|pre| + i + |parts[k]|] == t[i..i + |parts[k]|];
      assert OccursAt(s, parts[k], |pre| + i);
    }
  }

  /** The three mapped levels are exactly the difficulties the text parser reads back. */
  lemma LevelNames()
    ensures forall d :: 1 <= d <= 3 ==> DifficultyName(d) in ["beginner", "intermediate", "advanced"]
    ensures DifficultyName(0) == "undefined" && DifficultyName(4) == "undefined"
  {
  }
}
