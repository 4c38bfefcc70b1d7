# bizzwords game logic in Dafny

bizzwords is a vocabulary-learning game. A learner works through cards in timed rounds of recognition, recall and writing. In the writing round they type the answer, and a lenient matcher accepts it. Word lists come from bundled vocabulary files or from an in-browser language model, whose output is parsed and then translated. A freemium layer makes the first fifteen words of each category free.

This project models the self-contained game logic of the repository and proves properties of it:

- **Validation**: the typing-answer matcher. It normalises both sides, checks acronyms in both directions, and handles the legacy `ABBR (Full Text)` form.
- **TextParser**: the line-oriented parser for the language model's `Difficulty:` / `Vocabulary:` / `Sentence:` output.
- **FreemiumRules**: the free-word selection of the maintenance script. It runs in place on an array: a quota phase, then a backfill waterfall.
- **GameModes** and **CardRenderer**: the standard and blitz round definitions, and the choice of field, label and template for each side of a card.
- **Translation**: the per-example translation loop. The translator is a function parameter. The loop covers the separator protocol, one retry, and the fallback.
- **StaticVocabulary** and **Freemium**: drawing a deck from a bundled file, and the free-word counters per category.
- **TypingCard**, **Theme**, **Flashcard** and **Learning**: the small state machines of the typing card, the theme service, the legacy flashcard and the learning screen. Each is a class whose methods update its fields.
- **PromptBuilder** and **AiWordGeneration**: the prompt sent to the model, and the fixed fallback word tables.

`Text` gives the JavaScript string built-ins these rely on:

- `trim`, using the JavaScript whitespace set;
- `toLowerCase` and `toUpperCase`, on ASCII;
- `split` on a string and on `/\s+/`;
- `replace(/\s+/g, ' ')`;
- `join`, `slice(0, n)` and number formatting.

`Wrappers` gives `Option`.

Pure code is modelled as functions with lemmas. Imperative code keeps its loops:

- the parser's accumulator loop, `TextParser.ParseLines`;
- the script's passes over the word array, `FreemiumRules.QuotaPass` and `FreemiumRules.BackfillPass`;
- the translation loop, `Translation.TranslateExamples`;
- the free-id collection, `Freemium.CollectFreeIds` and `Freemium.FreemiumService.LoadFreeWordIds`.

Each loop is proved against a specification function, and the source's promises are proved about that function. For the parser these include both directions of each line's effect, and a round trip: records written in the prompt's format parse back to exactly those records.

## Model

| member | source | states |
|---|---|---|
| Validation.ValidateTypingAnswer | src/app/services/validation.service.ts:15-46 | an empty input or expected answer is rejected; two non-empty answers that differ only in ASCII case are accepted; so is an acronym match between the trimmed sides |
| Validation.ValidateReflexive | src/app/services/validation.service.ts:20-26 | every non-empty answer is accepted against itself |
| Validation.ValidateAcceptsAbbrevForm | src/app/services/validation.service.ts:33-43 | if the expected answer normalises to `A (B)`, an input that normalises to trimmed `A` or trimmed `B` is accepted |
| Validation.ValidateAcceptsAcronym | src/app/services/validation.service.ts:28-31 | an acronym is accepted against words joined by spaces whose first letters it spells (up to case), and the words are accepted against the acronym |
| Validation.ValidateCsrExample | src/app/services/validation.service.spec.ts:50-59 | `CSR` and `Corporate Social Responsibility` are accepted against each other in both directions |
| Validation.DropTrailingPunct | src/app/services/validation.service.ts:57 | the result is a prefix that is at most one character shorter; it is shorter exactly when the last character is one of `.,!?;:` |
| Validation.Normalize | src/app/services/validation.service.ts:52-58 | normalising never lengthens a string |
| Validation.NormalizeShape | src/app/services/validation.service.ts:52-58 | a normalised string has no ASCII capital, its only whitespace is single spaces, no two spaces are adjacent, it does not start with a space, and it is empty for an all-whitespace input |
| Validation.NormalizeIgnoresCase | src/app/services/validation.service.ts:55 | lowercasing the input first does not change the normal form |
| Validation.NormalizeNotIdempotent | src/app/services/validation.service.ts:57 | `a..` normalises to `a.`, which normalises to `a`, so normalising is not idempotent |
| Validation.NormalizeWord | src/app/services/validation.service.ts:52-58 | on a lowercase word without whitespace, normalising only removes one final punctuation mark |
| Validation.CollapseDrawsFrom | src/app/services/validation.service.ts:56 | every character of the collapsed string is a space or a character of the input |
| Validation.IsAcronym | src/app/services/validation.service.ts:84-86 | a string is an acronym iff it has 2 to 5 characters, all ASCII letters |
| Validation.FirstLetters | src/app/services/validation.service.ts:98-101 | with non-empty words, the result has one character per word: the uppercased first letter |
| Validation.AcronymMatchesText | src/app/services/validation.service.ts:91-104 | a text with fewer words than the acronym has letters never matches; a match spells exactly as many letters as the acronym has |
| Validation.AcronymOfWords | src/app/services/validation.service.ts:91-104 | for words joined by single spaces, a match holds iff there are enough words and word k starts, up to case, with letter k of the acronym |
| Validation.IsAcronymMatch | src/app/services/validation.service.ts:64-79 | a match needs exactly one side to be an acronym, so both-acronym and neither-acronym pairs are rejected |
| Validation.AcronymMatchSymmetric | src/app/services/validation.service.ts:64-79 | the acronym check gives the same answer with its arguments swapped |
| Validation.SkipSpaces | src/app/services/validation.service.ts:34 | `\s*` consumes exactly the maximal whitespace run from the given index |
| Validation.MatchAbbrevOfForm | src/app/services/validation.service.ts:34-37 | `A (B)`, with `A` non-empty, free of `(` and not ending in whitespace, matches the pattern with groups trimmed `A` and trimmed `B` |
| Validation.FindAbbrevFirst | src/app/services/validation.service.ts:34 | the lazy group ends at the first index where the rest of the pattern matches |
| Validation.FindAbbrevNone | src/app/services/validation.service.ts:34-35 | the pattern fails iff no length of the lazy group lets the rest match |
| Validation.MatchAbbrev | src/app/services/validation.service.ts:34-35 | the pattern fails iff no length of the lazy first group lets the rest of the pattern match |
| TextParser.KeepLines | src/app/services/ai-worker/text-parser.ts:10 | every kept line passes the filter (non-empty, no `Theme:` prefix, no `Generate`) and is already trimmed; every input line whose trim passes the filter is kept; never more lines than the input |
| TextParser.KeepLinesFrom | src/app/services/ai-worker/text-parser.ts:10 | every kept line is the trim of some input line |
| TextParser.KeepLinesAppend | src/app/services/ai-worker/text-parser.ts:10 | preparing two blocks of lines gives the prepared first block followed by the prepared second, so line order is kept |
| TextParser.Lines | src/app/services/ai-worker/text-parser.ts:10 | the prepared text has no more lines than the split at `\n` gives, and each passes the filter and is trimmed |
| TextParser.Classify | src/app/services/ai-worker/text-parser.ts:15-31 | a line counts as a difficulty line iff it starts with `Difficulty:`; as a vocabulary line iff it starts with `Vocabulary:` and not `Difficulty:`; as a sentence line iff it starts with `Sentence:` and neither of the other two |
| TextParser.Step | src/app/services/ai-worker/text-parser.ts:15-41 | one line never removes or changes an emitted example, and adds at most one; what each kind of line emits, in both directions, is stated by `StepEffect`, `SentenceEmits`, `SentenceStores`, `VocabularyStores` and `DifficultyFlushes` |
| TextParser.StepEffect | src/app/services/ai-worker/text-parser.ts:15-41 | only a `Difficulty:` line with a complete record, or a `Sentence:` line with vocabulary and difficulty set, emits an example, which carries the pending vocabulary and difficulty; a `Difficulty:` line starts a record holding only its value; any other line changes nothing |
| TextParser.SentenceEmits | src/app/services/ai-worker/text-parser.ts:30-40 | a `Sentence:` line with vocabulary and difficulty set (and, with the corrected check, a non-empty value) appends the record of that sentence, vocabulary and difficulty and empties the accumulator |
| TextParser.SentenceStores | src/app/services/ai-worker/text-parser.ts:30-33 | in every other case a `Sentence:` line only stores its value and emits nothing |
| TextParser.VocabularyStores | src/app/services/ai-worker/text-parser.ts:28-29 | a `Vocabulary:` line only stores its value and emits nothing |
| TextParser.DifficultyFlushes | src/app/services/ai-worker/text-parser.ts:15-23 | a `Difficulty:` line appends the pending record exactly when it is complete, and otherwise emits nothing |
| TextParser.RunBlockAfter | src/app/services/ai-worker/text-parser.ts:14-42 | from an empty accumulator, a filled `Difficulty:`, `Vocabulary:`, `Sentence:` block appends exactly its record and empties the accumulator again |
| TextParser.RunBlocks | src/app/services/ai-worker/text-parser.ts:14-42 | any sequence of such blocks yields exactly their records, in order, with either sentence check |
| TextParser.OneBlock | src/app/services/ai-worker/text-parser.spec.ts:6-20 | one filled block yields the single record, the shape of the single-example test |
| TextParser.LabelledPrepared | src/app/services/ai-worker/text-parser.ts:10 | a label followed by a clean field survives the trim and the filter unchanged |
| TextParser.RecordLinesPrepared | src/app/services/ai-worker/text-parser.ts:10 | the three lines of a clean record survive the trim and the filter unchanged |
| TextParser.KeepPrepared | src/app/services/ai-worker/text-parser.ts:10 | lines that are their own trims and pass the filter are kept as they are |
| TextParser.KeepSpaced | src/app/services/ai-worker/text-parser.ts:10 | the blank lines between written-out records are dropped and every record line is kept, in order |
| TextParser.SpacedNoNewline | src/app/services/ai-worker/text-parser.ts:10 | no line of written-out records holds a line break, so the split at `\n` gives them back |
| TextParser.KindsAppend | src/app/services/ai-worker/text-parser.ts:14 | classifying the lines of two blocks gives the first block's kinds followed by the second's |
| TextParser.DifficultyLineKind | src/app/services/ai-worker/text-parser.ts:15-24 | `Difficulty: ` followed by a clean lower-case field classifies as that field |
| TextParser.VocabularyLineKind | src/app/services/ai-worker/text-parser.ts:28-29 | `Vocabulary: ` followed by a clean field classifies as that field |
| TextParser.SentenceLineKind | src/app/services/ai-worker/text-parser.ts:30-31 | `Sentence: ` followed by a clean field classifies as that field |
| TextParser.RecordKinds | src/app/services/ai-worker/text-parser.ts:14-31 | the three lines of a clean record classify as its `Difficulty:`, `Vocabulary:`, `Sentence:` block |
| TextParser.AllRecordKinds | src/app/services/ai-worker/text-parser.ts:14-31 | the lines of several clean records classify as their blocks, in order |
| TextParser.ParseRender | src/app/services/ai-worker/text-parser.spec.ts:6-54 | clean records written one field per line, with blank lines between records, parse back to exactly those records in order: the single-example and multiple-example tests for every such input |
| TextParser.Parse | src/app/services/ai-worker/text-parser.ts:8-45 | every example has a non-empty vocabulary and difficulty, and the example difficulties are a subsequence of the `Difficulty:` values of the prepared lines; which records are emitted is stated by the step lemmas and `ParseRender` |
| TextParser.ParseExamples | src/app/services/ai-worker/text-parser.ts:8-45 | the result is the fold of the loop step over the prepared lines; every example has a non-empty vocabulary and difficulty; there are no more examples than `Difficulty:` lines; on clean records written out one field per line it returns exactly those records (`ParseRender`) |
| TextParser.ParseLines | src/app/services/ai-worker/text-parser.ts:14-42 | the in-place loop over the accumulator computes the fold of the step function, with the same guarantees |
| TextParser.EmptyInputNoExamples | src/app/services/ai-worker/text-parser.ts:8-10 | empty input parses to no examples |
| TextParser.FieldsPresent | src/app/services/ai-worker/text-parser.ts:17-38 | every emitted example has a non-empty vocabulary and a non-empty difficulty; with the corrected sentence check it also has a non-empty sentence |
| TextParser.OrderInvariantHolds | src/app/services/ai-worker/text-parser.ts:14-42 | the loop keeps the emitted difficulties a subsequence of the `Difficulty:` values; a pending difficulty is the latest such value and has not been used yet |
| TextParser.DifficultiesInOrder | src/app/services/ai-worker/text-parser.ts:14-42 | examples appear in input order: their difficulties form a subsequence of the `Difficulty:` values, so there are at most that many examples |
| TextParser.MissingFieldNoExamples | src/app/services/ai-worker/text-parser.ts:14-42 | input with no `Difficulty:`, no `Vocabulary:` or no `Sentence:` line yields no example, and the missing field stays unset |
| TextParser.EmptySentenceEmitted | src/app/services/ai-worker/text-parser.ts:30-40 | as written, a difficulty, a vocabulary and then an empty sentence emit an example whose sentence is empty |
| TextParser.BareSentenceLine | src/app/services/ai-worker/text-parser.ts:30-31 | a bare `Sentence:` line is a sentence line with an empty value |
| TextParser.EmptySentenceRejected | src/app/services/ai-worker/text-parser.ts:30-40 | with the sentence check of the `Difficulty:` flush applied, the same input emits nothing |
| FreemiumRules.ApplyFreemiumRules | scripts/apply-freemium-rules.mjs:10-77 | only free flags change, and length and order are kept; only difficulties 1-3 are free; each quota counter is `min(5, #words of that difficulty)`; `freeCount` is the number of free words and equals `min(15, #words of difficulty 1, 2 or 3)`; each difficulty's free words are its first ones; the first five of each difficulty are always free; the free words per difficulty are the waterfall split of the counts: the quotas, then medium, then easy, then hard words up to 15 |
| FreemiumRules.QuotaPass | scripts/apply-freemium-rules.mjs:16-23 | one quota loop marks exactly the first `min(5, count)` words of its difficulty, in array order, and changes nothing else |
| FreemiumRules.QuotaStep | scripts/apply-freemium-rules.mjs:15-43 | a quota loop on the selection state sets its difficulty's free prefix to `min(5, count)` and keeps the other difficulties' prefixes |
| FreemiumRules.QuotaPhase | scripts/apply-freemium-rules.mjs:15-43 | the three quota loops, hard, then medium, then easy, leave `min(5, count)` free words of each difficulty |
| FreemiumRules.BackfillPass | scripts/apply-freemium-rules.mjs:52-58 | one backfill loop stops at 15, and otherwise marks the next unmarked words of its difficulty; it marks `min(15 - freeCount, #unmarked words of that difficulty)` |
| FreemiumRules.BackfillAt | scripts/apply-freemium-rules.mjs:53-57 | the loop body on one word marks it iff it has the pass's difficulty and is not yet free, and keeps the pass invariant |
| FreemiumRules.BackfillWord | scripts/apply-freemium-rules.mjs:53-57 | a word the body marks is the next one of its difficulty, and the counter stays `min(allowed, unmarked seen)` |
| FreemiumRules.BackfillStep | scripts/apply-freemium-rules.mjs:51-76 | one backfill loop on the selection state extends its difficulty's free prefix by what it marks and keeps the other difficulties' prefixes |
| FreemiumRules.Backfill | scripts/apply-freemium-rules.mjs:48-77 | after a quota phase below 15, the medium, easy and hard backfills leave each difficulty's free words a prefix of its words, between its quota and its count; the three prefix lengths are the waterfall split of the counts, and the counter is their sum |
| FreemiumRules.BackfillTotals | scripts/apply-freemium-rules.mjs:48-77 | the three backfill counters stay within their difficulties, add up to `min(15, n1 + n2 + n3)`, and are exactly the waterfall split |
| FreemiumRules.WaterfallTotal | scripts/apply-freemium-rules.mjs:46-77 | quota counts below 15 topped up in the order medium, easy, hard reach `min(15, n1 + n2 + n3)` |
| FreemiumRules.QuotaFillsTarget | scripts/apply-freemium-rules.mjs:46-48 | a quota phase that already reached 15 chose `min(15, n1 + n2 + n3)` words, which is the waterfall split, so skipping the backfill is right |
| FreemiumRules.PhaseFinal | scripts/apply-freemium-rules.mjs:13-77 | in the final state the free count is the sum of the three prefixes, and each difficulty's free words are a prefix of its words |
| FreemiumRules.PhaseQuotaMet | scripts/apply-freemium-rules.mjs:15-43 | once each difficulty's prefix reaches `min(5, count)`, the first five words of every difficulty are free |
| FreemiumRules.QuotaMetAt | scripts/apply-freemium-rules.mjs:15-43 | a word ranked below five within its difficulty is free once that difficulty's prefix reaches `min(5, count)` |
| FreemiumRules.PhaseSplit | scripts/apply-freemium-rules.mjs:13-77 | in a selection state within the counts, each difficulty has exactly its prefix length of free words |
| FreemiumRules.PhaseOutcome | scripts/apply-freemium-rules.mjs:10-77 | a selection state whose prefix lengths are the waterfall split is a finished result: only graded words are free, the free count is `min(15, n1 + n2 + n3)`, each difficulty's free words are a prefix, the quota words are free, and the per-difficulty split is the waterfall |
| FreemiumRules.Waterfall | scripts/apply-freemium-rules.mjs:13-77 | the reference split of the free words per difficulty: each difficulty gets at most its words, and the three add up to `min(15, n1 + n2 + n3)` |
| FreemiumRules.WaterfallOrder | scripts/apply-freemium-rules.mjs:45-76 | every difficulty keeps its quota; easy words beyond the quota are free only once every medium word is, and hard words beyond the quota only once every easy and medium word is |
| FreemiumRules.WaterfallMediumFirst | scripts/apply-freemium-rules.mjs:51-76 | ten medium and ten hard words, with no easy ones, leave ten medium and five hard words free |
| FreemiumRules.FreeUpToCount | scripts/apply-freemium-rules.mjs:13-77 | free words that form a prefix of length k of difficulty d number `min(k, count of d)` |
| FreemiumRules.FreeCountGraded | scripts/apply-freemium-rules.mjs:13-77 | when only difficulties 1-3 are free, the free count is the sum over the three difficulties |
| FreemiumRules.MarkFirstNext | scripts/apply-freemium-rules.mjs:17-22 | marking one more word of difficulty d marks the word whose rank is the current count |
| GameModes.MapLanguageToField | src/app/core/config/game-modes.ts:5-14 | the field is `polish` or `spanish`, and `spanish` exactly for `es` |
| GameModes.CreateStandardGameMode | src/app/core/config/game-modes.ts:17-85 | standard mode has id `standard` and three rounds |
| GameModes.CreateBlitzGameMode | src/app/core/config/game-modes.ts:88-136 | blitz mode has id `blitz` and two rounds |
| GameModes.StandardRoundOrder | src/app/core/config/game-modes.ts:22-84 | the standard rounds are recognition, recall and writing, in that order |
| GameModes.StandardDirections | src/app/core/config/game-modes.ts:28-71 | recognition goes from English to the native field; recall and writing go from the native field to English |
| GameModes.TemplatesAndSides | src/app/core/config/game-modes.ts:27-71 | only writing uses `typing_challenge`, the others use `flashcard_standard`, and no round shows the same field on both sides |
| GameModes.UniformRoundPolicy | src/app/core/config/game-modes.ts:33-81 | every round of both modes starts from `deck_start`, needs one success, and requeues at static offset 3 |
| GameModes.BlitzIsStandardPrefix | src/app/core/config/game-modes.ts:88-136 | the blitz rounds are the first two standard rounds for the same language |
| GameModes.UnsupportedLanguageIsPolish | src/app/core/config/game-modes.ts:5-14 | any code other than `es` configures both modes exactly as `pl` does |
| CardRenderer.FieldText | src/app/components/game/card-renderer/card-renderer.component.ts:61-71 | `english` selects the English word; a present translation key selects its value or `''`; any other field selects `''` |
| CardRenderer.FrontText | src/app/components/game/card-renderer/card-renderer.component.ts:54-72 | `''` without a layout; the English word when the primary field is `english`; otherwise the primary field's stored translation (`''` when its value is unset) if the card's translations hold that field, and `''` if they do not; a non-empty text is that stored translation |
| CardRenderer.BackText | src/app/components/game/card-renderer/card-renderer.component.ts:74-92 | `''` without a layout; the English word when the secondary field is `english`; otherwise the secondary field's stored translation (`''` when its value is unset) if the card's translations hold that field, and `''` if they do not; a non-empty text is that stored translation |
| CardRenderer.FieldLabel | src/app/components/game/card-renderer/card-renderer.component.ts:98-111 | `English` for the `english` field, the display name otherwise; the label is `English` iff the field is `english` or the display name is `English` |
| CardRenderer.FrontLabel | src/app/components/game/card-renderer/card-renderer.component.ts:94-101 | `Front` without a layout; with one, `English` for the `english` field and otherwise the display name |
| CardRenderer.BackLabel | src/app/components/game/card-renderer/card-renderer.component.ts:103-112 | `Back` without a layout; with one, `English` for the `english` field and otherwise the display name |
| CardRenderer.Render | src/app/components/game/card-renderer/card-renderer.component.ts:17-35 | an empty or `flashcard_standard` template gives the flip card; `typing_challenge` gives the typing card, whose prompt is the front text and whose expected answer is the back text |
| CardRenderer.NoLayoutDefaults | src/app/components/game/card-renderer/card-renderer.component.ts:54-106 | without a layout both texts are `''` and the labels are `Front` and `Back` |
| CardRenderer.LabelEnglishIff | src/app/components/game/card-renderer/card-renderer.component.ts:94-112 | a label is `English` iff its field is `english`, provided the language's own display name is not `English` |
| CardRenderer.SwapSwapsSides | src/app/components/game/card-renderer/card-renderer.component.ts:54-112 | swapping primary and secondary swaps the front and back texts and labels |
| CardRenderer.StandardModeCards | src/app/components/game/card-renderer/card-renderer.component.ts:17-35 | in standard mode, recognition shows English in front and the translation behind; writing is a typing card that prompts with the translation and expects the English word |
| Translation.Query | src/app/services/ai-worker/translation-service.ts:16 | the query starts with the sentence, ends with the vocabulary, and contains `===` |
| Translation.StripTrailingMarks | src/app/services/ai-worker/translation-service.ts:29 | the result is a prefix; everything removed is one of `.,;!?`; the result does not end in one |
| Translation.ExtractWord | src/app/services/ai-worker/translation-service.ts:26-29 | a non-empty extracted word starts with no whitespace and does not end in one of `.,;!?` |
| Translation.Candidate | src/app/services/ai-worker/translation-service.ts:23-37 | a query that throws gives no word; a reply holding `===` gives a word without `===`, and no retry; any other reply retries on the bare vocabulary and uses the retry's text as is, or no word when the retry throws |
| Translation.TranslateOne | src/app/services/ai-worker/translation-service.ts:23-58 | each pair keeps the example's vocabulary and difficulty; its `polish` is the vocabulary (fallback) or a non-empty lowercase word |
| Translation.TranslateExamples | src/app/services/ai-worker/translation-service.ts:11-59 | one pair per example of `examples.slice(0, count)`, in order, each the translation of its example |
| Translation.TranslateExample | src/app/services/ai-worker/translation-service.ts:12-58 | the `try`/`catch` body, with its retry and fallback, computes the pair the specification function gives |
| Translation.TrimKeepsNoMarker | src/app/services/ai-worker/translation-service.ts:28 | trimming cannot create a `===` |
| Translation.StripKeepsNoMarker | src/app/services/ai-worker/translation-service.ts:29 | stripping trailing marks cannot create a `===` |
| Translation.ExtractWordShape | src/app/services/ai-worker/translation-service.ts:26-29 | the extracted word contains no `===` and does not end in one of `.,;!?` |
| Translation.FallbackOnThrow | src/app/services/ai-worker/translation-service.ts:51-58 | a translator that throws on the query yields the fallback pair |
| Translation.FallbackOnFailedRetry | src/app/services/ai-worker/translation-service.ts:30-49 | without the separator, a retry that throws or returns no text or `''` yields the fallback pair |
| Translation.RetryUsedRaw | src/app/services/ai-worker/translation-service.ts:30-41 | without the separator, a non-empty retry text is used as is, only lowercased |
| Translation.NoRetryWithMarker | src/app/services/ai-worker/translation-service.ts:26-41 | with the separator in the reply, the outcome depends only on that reply: the lowercased extracted word, or the fallback when the word is empty |
| StaticVocabulary.TopicUrl | src/app/services/static-vocabulary.service.ts:18-23 | the URL is the HR or the PM file, and the PM file exactly when the lowercased topic is `pm` |
| StaticVocabulary.OfDifficulty | src/app/services/static-vocabulary.service.ts:47-50 | the filter keeps exactly the items of that difficulty, each no more often than it occurs, and is empty iff no item has it |
| StaticVocabulary.Filtered | src/app/services/static-vocabulary.service.ts:44-56 | without a difficulty all items are used; with one, its items are used, or all items when it has none |
| StaticVocabulary.ToCard | src/app/services/static-vocabulary.service.ts:63-66 | a card carries the item's English word and, under `polish`, its Polish word |
| StaticVocabulary.GenerateWords | src/app/services/static-vocabulary.service.ts:36-69 | the deck has `slice(0, count)` of the filtered length and is the cards of the first items of the shuffled list |
| StaticVocabulary.UnknownTopicLoadsHr | src/app/services/static-vocabulary.service.ts:23 | every topic other than `pm` loads the HR file |
| StaticVocabulary.TopicIgnoresCase | src/app/services/static-vocabulary.service.ts:23 | the topic is matched regardless of ASCII case |
| StaticVocabulary.DrawnFromFiltered | src/app/services/static-vocabulary.service.ts:58-66 | the items behind the deck are a sub-multiset of the filtered list, and the deck has `min(count, filtered length)` cards when the count is not negative |
| StaticVocabulary.DifficultyRespected | src/app/services/static-vocabulary.service.ts:47-66 | when the difficulty has items, every card comes from an item of it, and a large enough count draws all of them |
| StaticVocabulary.MissingDifficultyUsesAll | src/app/services/static-vocabulary.service.ts:53-56 | a difficulty no item has falls back to the whole list |
| Freemium.CollectFreeIds | src/app/services/freemium.service.ts:51-56 | the collected set holds exactly the ids of the items marked free |
| Freemium.FreemiumService.constructor | src/app/services/freemium.service.ts:19-20 | before loading, the map is empty and the service is loading |
| Freemium.FreemiumService.LoadFreeWordIds | src/app/services/freemium.service.ts:39-75 | after loading, each topic whose file arrived maps to that file's free ids, and loading is over |
| Freemium.FreemiumService.GetFreeWordsForCategory | src/app/services/freemium.service.ts:78-80 | a loaded category gives its set; an unknown category gives the empty set |
| Freemium.FreemiumService.GetEncounteredFreeWordCountForCategory | src/app/services/freemium.service.ts:83-95 | the count is the number of distinct lowercased English words in the category's statistics that are free, and never exceeds the number of free words |
| Freemium.FreemiumService.GetRemainingFreeWordsForCategory | src/app/services/freemium.service.ts:98-102 | remaining is the free total minus the encountered count, and never negative |
| Freemium.FreemiumService.IsCategoryExhausted | src/app/services/freemium.service.ts:105-108 | a premium learner never has an exhausted category |
| Freemium.FreemiumService.ExhaustedIff | src/app/services/freemium.service.ts:98-108 | a category is exhausted iff the learner is not premium and every free word of it appears among the category's statistics |
| Freemium.FreemiumService.IsFreeWord | src/app/services/freemium.service.ts:111-113 | a word is free iff its lowercase form is in the category's free set, which needs the category to be loaded |
| Freemium.FreemiumService.IsFreeWordIgnoresCase | src/app/services/freemium.service.ts:111-113 | whether a word is free does not depend on its ASCII case |
| Freemium.FreemiumService.GetTotalFreeWordsForCategory | src/app/services/freemium.service.ts:116-118 | the total is the size of the free set, and 0 for an unknown category |
| Freemium.OnlyTopicsLoaded | src/app/services/freemium.service.ts:42-68 | only the five topics are ever loaded, so any other category has no free words |
| TypingCard.IncorrectFeedback | src/app/components/game/card-renderer/typing-card/typing-card.component.ts:52 | the wrong-answer feedback is not correct, and its message is `Incorrect. It was: ` followed by the expected answer |
| TypingCard.TypingCardComponent.constructor | src/app/components/game/card-renderer/typing-card/typing-card.component.ts:22-35 | the card starts with an empty input, no feedback, not paused, nothing scheduled or emitted, and the input enabled |
| TypingCard.TypingCardComponent.SetExpectedAnswer | src/app/components/game/card-renderer/typing-card/typing-card.component.ts:16 | rebinding the expected answer changes only it: input, feedback, pause, pending callbacks and emitted events stay |
| TypingCard.TypingCardComponent.SetInput | src/app/components/game/card-renderer/typing-card/typing-card.component.ts:22 | typing changes only the input value |
| TypingCard.TypingCardComponent.CheckTyping | src/app/components/game/card-renderer/typing-card/typing-card.component.ts:38-55 | an empty input changes nothing; a valid answer shows `Correct!` and schedules one callback without pausing; an invalid one shows the expected answer and pauses; nothing is emitted synchronously |
| TypingCard.TypingCardComponent.Accept | src/app/components/game/card-renderer/typing-card/typing-card.component.ts:45-50 | the correct branch sets the feedback and schedules exactly one callback |
| TypingCard.TypingCardComponent.Reject | src/app/components/game/card-renderer/typing-card/typing-card.component.ts:52-53 | the wrong branch sets the wrong-answer feedback and pauses |
| TypingCard.TypingCardComponent.TimerFires | src/app/components/game/card-renderer/typing-card/typing-card.component.ts:46-50 | the scheduled callback emits success, clears the input and the feedback, and changes nothing else |
| TypingCard.TypingCardComponent.ContinueAfterWrongAnswer | src/app/components/game/card-renderer/typing-card/typing-card.component.ts:57-62 | continuing unpauses, re-enables the input, clears feedback and input, and emits failure |
| TypingCard.WrongAnswerRound | src/app/components/game/card-renderer/typing-card/typing-card.component.ts:38-62 | typing a wrong answer, checking and continuing emits exactly one failure and leaves the input enabled |
| TypingCard.CorrectAnswerRound | src/app/components/game/card-renderer/typing-card/typing-card.component.ts:38-62 | typing a right answer, checking and letting the timer fire emits exactly one success and leaves a clean, enabled card |
| TypingCard.RebindWhilePaused | src/app/components/game/card-renderer/typing-card/typing-card.component.ts:16-62 | a wrong answer checked against one expected answer, then a rebind to the next card's answer and continuing, emits exactly one failure and leaves a cleared, enabled card bound to the new answer |
| Theme.ModeName | src/app/services/theme.service.ts:51 | the stored name is `light`, `dark` or `system` |
| Theme.ParseMode | src/app/services/theme.service.ts:22-25 | a saved value is adopted iff it names one of the three modes, and then it names the adopted mode |
| Theme.IndexOf | src/app/services/theme.service.ts:61-62 | every mode is in the cycle list at its index |
| Theme.Next | src/app/services/theme.service.ts:60-64 | cycling always changes the mode |
| Theme.ShouldBeDark | src/app/services/theme.service.ts:41 | the dark mode always looks dark, the light mode never does, and the system mode follows the system preference |
| Theme.LookOf | src/app/services/theme.service.ts:41-43 | `currentMode` is dark exactly when dark should be used |
| Theme.ThemeService.constructor | src/app/services/theme.service.ts:19-54 | off the browser nothing is read or stored; in it, a valid saved mode is adopted (otherwise `system`), the preference is read, and look, class and storage match |
| Theme.ThemeService.RunEffect | src/app/services/theme.service.ts:37-52 | the effect makes the look, the `dark` class and the stored mode agree with the mode and the preference |
| Theme.ThemeService.SystemPreferenceChanged | src/app/services/theme.service.ts:32-34 | the listener updates only the preference |
| Theme.ThemeService.SetThemeMode | src/app/services/theme.service.ts:56-58 | only the mode changes |
| Theme.ThemeService.CycleTheme | src/app/services/theme.service.ts:60-64 | the mode moves to its successor, and nothing else changes |
| Theme.CycleOrder | src/app/services/theme.service.ts:60-64 | the cycle goes light, dark, system, light |
| Theme.ThreeCycles | src/app/services/theme.service.ts:60-64 | three cycles return to the starting mode |
| Theme.StoredModeRestored | src/app/services/theme.service.ts:22-25 | a stored mode name is adopted back as the same mode |
| Theme.PreferenceMattersOnlyForSystem | src/app/services/theme.service.ts:41 | the system preference changes the look iff the mode is system |
| Flashcard.FrontLabel | src/app/flashcard.component.ts:17-21 | the front label is `English` exactly in `RECOGNIZE_EN`, and `Polish` otherwise |
| Flashcard.BackLabel | src/app/flashcard.component.ts:31-35 | the back label is `Polish` exactly in `RECOGNIZE_EN`, and `English` otherwise |
| Flashcard.FrontText | src/app/flashcard.component.ts:23-29 | empty without a card, else one of the card's two words |
| Flashcard.BackText | src/app/flashcard.component.ts:37-43 | empty without a card, else one of the card's two words |
| Flashcard.SidesDiffer | src/app/flashcard.component.ts:17-43 | the two labels always differ, and each side shows the word of the language its label names |
| Flashcard.RoundsMirror | src/app/flashcard.component.ts:17-43 | every round other than `RECOGNIZE_EN` shows the recognition card reversed |
| Flashcard.FlashcardComponent.constructor | src/app/flashcard.component.ts:15 | the card starts unflipped |
| Flashcard.FlashcardComponent.Flip | src/app/flashcard.component.ts:45-49 | flipping toggles, except in `WRITE_EN`, where it does nothing |
| Flashcard.FlashcardComponent.ResetFlip | src/app/flashcard.component.ts:51-53 | resetting leaves the card unflipped |
| Flashcard.FlipTwice | src/app/flashcard.component.ts:45-49 | two flips in the same round restore the card |
| Learning.LearningComponent.constructor | src/app/learning.component.ts:19-21 | the screen starts with no words, at index 0, with the translation hidden |
| Learning.LearningComponent.CurrentWord | src/app/learning.component.ts:60-62 | the current word is the word at the index, and there is none past the end |
| Learning.LearningComponent.IsLastWord | src/app/learning.component.ts:64-66 | last iff the index is at or past the last position, which holds for an empty list |
| Learning.LearningComponent.WordsLoaded | src/app/learning.component.ts:51 | loading the generated words replaces the list and keeps the index |
| Learning.LearningComponent.RevealTranslation | src/app/learning.component.ts:73-75 | the translation is shown, and the words and index are unchanged |
| Learning.LearningComponent.MarkCorrect | src/app/learning.component.ts:77-85 | the translation is hidden; the index moves forward by one unless on the last word; an index in range stays in range |
| Learning.LearningComponent.MarkIncorrect | src/app/learning.component.ts:87-95 | the same effect as marking correct |
| PromptBuilder.DifficultyName | src/app/services/ai-worker/prompt-builder.ts:2-6 | 1, 2 and 3 map to beginner, intermediate and advanced; any other key renders as `undefined` |
| PromptBuilder.UserPrompt | src/app/services/ai-worker/prompt-builder.ts:13-35 | the prompt starts with the opening line and the difficulty instruction, and its last line is the closing `Now generate exactly {count} examples for theme "{theme}"` followed by the level or the balanced mix |
| PromptBuilder.BuildPrompt | src/app/services/ai-worker/prompt-builder.ts:8-41 | exactly two messages: the fixed system message, then a user message that starts with the opening line and the instruction, and ends with the closing line for that count, theme and difficulty |
| PromptBuilder.FormatStated | src/app/services/ai-worker/prompt-builder.ts:17-20 | the user message contains the three format lines `Difficulty: [beginner/intermediate/advanced]`, `Vocabulary: [vocabulary word]` and `Sentence: […]` |
| PromptBuilder.FormatInJoin | src/app/services/ai-worker/prompt-builder.ts:13-35 | whatever the opening, instruction and closing lines, the joined prompt holds the three format lines of its body |
| PromptBuilder.JoinContains | src/app/services/ai-worker/prompt-builder.ts:13-35 | every line of a join occurs in the joined text |
| PromptBuilder.LevelStated | src/app/services/ai-worker/prompt-builder.ts:9-35 | a non-zero difficulty appears in the `Generate words at … difficulty level only.` instruction and in the closing `at … level:` |
| PromptBuilder.MixStated | src/app/services/ai-worker/prompt-builder.ts:9-35 | without a difficulty, or with 0, the prompt asks for the mix and closes with the balanced mix |
| PromptBuilder.OpeningStated | src/app/services/ai-worker/prompt-builder.ts:13 | the prompt starts with `Generate exactly {count} vocabulary learning examples for the theme "{theme}".` |
| PromptBuilder.LevelNames | src/app/services/ai-worker/prompt-builder.ts:2-6 | the mapped levels are exactly the difficulty names of the output format; 0 and 4 render as `undefined` |
| AiWordGeneration.GetFallbackWords | src/app/services/ai-word-generation.ts:60-115 | a known theme gives `slice(0, count)` of its table, and any other theme gives the IT table's |
| AiWordGeneration.GenerateWords | src/app/services/ai-word-generation.ts:12-17 | off the browser the fallback list is returned at once (default count 10), with no worker; in the browser, a worker request for the theme and count |
| AiWordGeneration.FallbackSize | src/app/services/ai-word-generation.ts:113-114 | a non-negative count yields `min(count, 10)` words |
| AiWordGeneration.DefaultIsWholeTable | src/app/services/ai-word-generation.ts:12-16 | the default count returns a whole table |
| AiWordGeneration.FallbackPrefixes | src/app/services/ai-word-generation.ts:114 | a shorter request returns a prefix of a longer one |
| AiWordGeneration.TablesDistinct | src/app/services/ai-word-generation.ts:62-111 | no table repeats an English word |
| AiWordGeneration.LearningScreenFallback | src/app/learning.component.ts:49 | the learning screen's request for 20 IT words, off the browser, is the whole IT table |
| Text.Trim | src/app/services/ai-worker/text-parser.ts:10 | the trim is never longer than its input and has no whitespace at either end |
| Text.TrimInfix | src/app/services/ai-worker/text-parser.ts:10 | the trim is the infix after the leading whitespace run, with only whitespace around it |
| Text.TrimEmptyIff | src/app/services/ai-worker/text-parser.ts:10 | a line trims to empty iff it is all whitespace |
| Text.TrimNoOp | src/app/services/validation.service.ts:29 | a string with no whitespace at either end is its own trim |
| Text.TrimLower | src/app/services/validation.service.ts:54-55 | trimming and lowercasing commute |
| Text.LowerIdempotent | src/app/services/validation.service.ts:55 | lowercasing twice is lowercasing once |
| Text.JoinSplitOn | src/app/services/ai-worker/text-parser.ts:10 | joining the pieces of a split with the separator gives the original text |
| Text.SplitOnPiecesFree | src/app/services/ai-worker/translation-service.ts:27 | no piece of a split contains the separator |
| Text.LastPiece | src/app/services/ai-worker/translation-service.ts:27-28 | the last piece ends the text and follows the last separator, or is the whole text |
| Text.SplitFreePiece | src/app/services/ai-worker/text-parser.ts:10 | a text without the separator character splits into itself alone |
| Text.SplitFreeThen | src/app/services/ai-worker/text-parser.ts:10 | a piece without the separator character, then the separator, splits off as the first piece |
| Text.SplitJoinChar | src/app/services/ai-worker/text-parser.ts:10 | splitting at a one-character separator gives back pieces joined by it, when none contains it |
| Text.PrefixKeepsAbsent | src/app/services/ai-worker/text-parser.ts:10 | a prefix that never holds the first character of a word creates no occurrence of it |
| Text.TrimAfterSpace | src/app/services/ai-worker/text-parser.ts:24-31 | trimming the text after a label's space gives back a field that is its own trim |
| Text.SplitWhitespace | src/app/services/validation.service.ts:92 | `split(/\s+/)` always yields at least one piece |
| Text.CollapseSpaces | src/app/services/validation.service.ts:56 | every whitespace run becomes one space: no other whitespace, no double spaces, and empty iff the input is |
| Text.CollapseIsSplitJoin | src/app/services/validation.service.ts:56 | collapsing whitespace equals splitting at whitespace runs and joining with one space |
| Text.CollapseNoOp | src/app/services/validation.service.ts:56 | a string that only has single spaces is unchanged |
| Text.SplitJoinWords | src/app/services/validation.service.ts:92 | words joined by single spaces split back into the same words |
| Text.SliceEnd | src/app/services/ai-worker/translation-service.ts:11 | `slice(0, n)` ends at `min(n, len)` for `n >= 0`, and counts from the end for negative `n` |
| Text.Take | src/app/services/ai-worker/translation-service.ts:11 | `slice(0, n)` is a prefix of the string, of length `min(n, len)` for `n >= 0`, and `max(len + n, 0)` for negative `n` |
| Text.NatToString | src/app/services/ai-worker/prompt-builder.ts:13 | a number renders as a non-empty string of decimal digits without a leading zero |
| Text.ParseNatToString | src/app/services/ai-worker/prompt-builder.ts:13 | the decimal rendering reads back as the same number |

## Left out

- `toLowerCase` and `toUpperCase` are modelled on ASCII letters only. Full Unicode case mapping, including characters whose case form changes the string length, is not modelled.
- Whitespace (`\s`, `trim`) is the JavaScript set of WhiteSpace and LineTerminator code points. Strings are sequences of code points, not of UTF-16 units.
- `null` and `undefined` strings are represented by `''` where the source only tests truthiness, and by `Option` where the difference matters (parser fields, translator text, translation values).
- Object keys inherited from the JavaScript prototype (`fallbackThemes['constructor']`, `topicMap['toString']`) are not modelled: maps hold only the declared keys.
- HTTP requests, file reads and writes, `console` output and `alert` are left out. Their results are parameters:
  - the loaded vocabulary list;
  - the per-topic responses of the free-id load, where a failed request leaves its key out;
  - the parsed words of the script.
- The parser's unit-test inputs are not evaluated as literal strings. `TextParser.ParseRender` proves the round trip for every list of clean records written out in that layout, which includes them. Text that is not in that layout is covered only by the step lemmas and the order and field properties.
- Randomness is left out. The shuffle in `generateWords` is a caller-supplied permutation of the filtered list.
- Timers are left out. The `setTimeout` of a correct answer is the explicit step `TimerFires`, and only the order of events is modelled, not the delay.
- Signals, effects and the DOM are fields updated by explicit steps: `RunEffect`, `SystemPreferenceChanged` and the constructors. `localStorage` is a field, and `matchMedia` is a constructor parameter. The `FormControl` disabled state is the predicate `InputEnabled`.
- The translator is a deterministic function parameter. Its asynchrony, the pipeline factory, the progress callback and the language pair are not modelled.
- The worker path of `AiWordGeneration.GenerateWords` is left out: creating the worker, its messages, termination and errors. The model only records the request that would be posted.
- The round engine (`game-store.ts`, `game.service.ts`) is not part of this model. The legacy flashcard takes the store's round and card as parameters, and the card renderer takes the display name.
- `progress` on the learning screen is floating-point and is not modelled. Neither is the route parameter handling.
- Vocabulary counts and difficulties are integers. Non-integer numbers, and the `as` casts that let any lowercased string through as a difficulty, are outside the model.
- `loadFreeWordIds` can run more than once at a time. The constructor starts one load, and the auth effect starts another whenever a user with a ready profile appears (src/app/services/freemium.service.ts:27-36). These asynchronous runs can interleave, and one run can clear `isLoading` while another is still loading. The model runs each load as one atomic step, so these interleavings are not modelled.
- The script reads `word.metadata.difficulty`, which throws for a word without `metadata` (scripts/apply-freemium-rules.mjs:18). Every `Word` of the model carries a difficulty, so this error path is not modelled.
- The typing card's `expectedAnswer` input is a field that the renderer rebinds through the explicit step `SetExpectedAnswer`. When Angular's change detection delivers the new binding is not modelled.
- Validation.ValidateTypingAnswer: its own contract states the empty-side rejection and two sufficient conditions for acceptance. The `ABBR (Full Text)` route is proved separately in `ValidateAcceptsAbbrevForm`, for the `A (B)` shape only, and not for every string the pattern matches.
- Validation.Normalize: its own contract only bounds the length. What normalising does is stated by `NormalizeShape`, `NormalizeIgnoresCase`, `NormalizeWord` and `NormalizeNotIdempotent`.

## Findings

| source | as written | input that shows it | evidently intended | confidence | as-written member | corrected member |
|---|---|---|---|---|---|---|
| src/app/services/ai-worker/text-parser.ts:33 | the `Sentence:` branch emits the record when vocabulary and difficulty are set, without testing the sentence it just stored | the lines `Difficulty: beginner`, `Vocabulary: computer`, `Sentence:` | a record is emitted only with all three fields non-empty, as the `Difficulty:` flush at line 17 requires and the comment at line 32 assumes | low; not executed | TextParser.EmptySentenceEmitted | TextParser.EmptySentenceRejected |

The parser's step function takes a `checkSentence` flag. `false` is the code as written; `TextParser.ParseExamples` runs this version, because it is what the application ships. `true` is the corrected branch. For the corrected branch, `TextParser.FieldsPresent` also proves that every emitted sentence is non-empty. Both versions keep the order and counting properties: `TextParser.DifficultiesInOrder` and `TextParser.MissingFieldNoExamples` hold for either flag.
