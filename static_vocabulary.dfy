/**
 * The static vocabulary deck: which bundled file a topic loads, and how a
 * deck of cards is drawn from the loaded items (difficulty filter, fallback
 * to the whole list, shuffle, `slice(0, count)`, projection to cards).
 */
module StaticVocabulary {
  import opened Text
  import opened Wrappers
  import CardRenderer

  /** An entry of a bundled vocabulary file. */
  datatype VocabularyItem = VocabularyItem(english: string, polish: string, difficulty: int)

  const HrFile: string := "hr_eng_pl/vocabulary.json"
  const PmFile: string := "pm_eng_pl/vocabulary.json"

  /** The URL `loadVocabulary` requests: `hr` and `pm` (in any ASCII case) have their own files, any other topic gets the HR file. */
  function TopicUrl(topic: string): (url: string)
    ensures url == HrFile || url == PmFile
    ensures url == PmFile <==> Lower(topic) == "pm"
  {
    var key := Lower(topic);
    if key == "hr" then HrFile
    else if key == "pm" then PmFile
    else HrFile
  }

  /** `vocab.filter(item => item.difficulty === d)`. */
  function OfDifficulty(vocab: seq<VocabularyItem>, d: int): (r: seq<VocabularyItem>)
    ensures forall x :: x in r <==> x in vocab && x.difficulty == d
    ensures multiset(r) <= multiset(vocab)
    ensures |r| <= |vocab|
    ensures r == [] <==> forall x :: x in vocab ==> x.difficulty != d
  {
    if vocab == [] then []
    else
      var init := OfDifficulty(vocab[..|vocab| - 1], d);
      var last := vocab[|vocab| - 1];
      assert vocab == vocab[..|vocab| - 1] + [last];
      if last.difficulty == d then init + [last] else init
  }

  /** The list the deck is drawn from: the difficulty's items when a difficulty is given and has any, otherwise every item. */
  function Filtered(vocab: seq<VocabularyItem>, difficulty: Option<int>): (r: seq<VocabularyItem>)
    ensures difficulty.None? ==> r == vocab
    ensures difficulty.Some? && OfDifficulty(vocab, difficulty.value) != [] ==> r == OfDifficulty(vocab, difficulty.value)
    ensures difficulty.Some? && OfDifficulty(vocab, difficulty.value) == [] ==> r == vocab
  {
    var filtered := if difficulty.Some? then OfDifficulty(vocab, difficulty.value) else vocab;
    if filtered == [] then vocab else filtered
  }

  /** The card built for an item: its English word, and its Polish word under the `polish` key. */
  function ToCard(item: VocabularyItem): (card: CardRenderer.Flashcard)
    ensures card.english == item.english
    ensures CardRenderer.FieldText(card, "polish") == item.polish
  {
    CardRenderer.Flashcard(item.english, Some(map["polish" := Some(item.polish)]))
  }

  /**
   * `generateWords` after the file is loaded. `shuffled` stands for the
   * random reordering of the filtered list; any permutation of it is allowed.
   */
  function GenerateWords(vocab: seq<VocabularyItem>, count: int, difficulty: Option<int>, shuffled: seq<VocabularyItem>)
    : (cards: seq<CardRenderer.Flashcard>)
    requires multiset(shuffled) == multiset(Filtered(vocab, difficulty))
    ensures |cards| == SliceEnd(|Filtered(vocab, difficulty)|, count)
    ensures forall k :: 0 <= k < |cards| ==> cards[k] == ToCard(shuffled[k])
  {
    var selected := Take(shuffled, count);
    assert |shuffled| == |multiset(shuffled)| == |Filtered(vocab, difficulty)|;
    seq(|selected|, k requires 0 <= k < |selected| => ToCard(selected[k]))
  }

  // ---------------------------------------------------------------------------
  // Properties

  /** Every topic other than `pm` (in any ASCII case) loads the HR file. */
  lemma UnknownTopicLoadsHr(topic: string)
    requires Lower(topic) != "pm"
    ensures TopicUrl(topic) == HrFile
  {
  }

  /** The topic is matched without regard to ASCII case. */
  lemma TopicIgnoresCase(topic: string)
    ensures TopicUrl(Upper(topic)) == TopicUrl(topic)
  {
    LowerOfUpper(topic);
  }

  /** A drawn card comes from distinct items of the filtered list: the items behind the deck are a sub-multiset of it. */
  lemma {:induction false} DrawnFromFiltered(vocab: seq<VocabularyItem>, count: int, difficulty: Option<int>, shuffled: seq<VocabularyItem>)
    requires multiset(shuffled) == multiset(Filtered(vocab, difficulty))
    ensures var n := |GenerateWords(vocab, count, difficulty, shuffled)|;
            && n <= |shuffled|
            && multiset(shuffled[..n]) <= multiset(Filtered(vocab, difficulty))
            && (count >= 0 ==> n == if count < |Filtered(vocab, difficulty)| then count else |Filtered(vocab, difficulty)|)
  {
    var n := |GenerateWords(vocab, count, difficulty, shuffled)|;
    assert shuffled == shuffled[..n] + shuffled[n..];
    assert multiset(shuffled) == multiset(shuffled[..n]) + multiset(shuffled[n..]);
  }

  /**
   * When the given difficulty has items, every card drawn is the card of an
   * item of that difficulty, and with a large enough count every such item is drawn.
   */
  lemma DifficultyRespected(vocab: seq<VocabularyItem>, count: int, d: int, shuffled: seq<VocabularyItem>)
    requires multiset(shuffled) == multiset(Filtered(vocab, Some(d)))
    requires exists x :: x in vocab && x.difficulty == d
    ensures forall k :: 0 <= k < |GenerateWords(vocab, count, Some(d), shuffled)| ==>
              shuffled[k] in vocab && shuffled[k].difficulty == d
    ensures count >= |shuffled| ==>
              forall x :: x in vocab && x.difficulty == d ==> ToCard(x) in GenerateWords(vocab, count, Some(d), shuffled)
  {
    var x :| x in vocab && x.difficulty == d;
    assert x in OfDifficulty(vocab, d);
    var cards := GenerateWords(vocab, count, Some(d), shuffled);
    forall k | 0 <= k < |cards| ensures shuffled[k] in vocab && shuffled[k].difficulty == d {
      assert shuffled[k] in multiset(shuffled);
    }
    if count >= |shuffled| {
      forall y | y in vocab && y.difficulty == d ensures ToCard(y) in cards {
        assert y in multiset(shuffled);
        var k :| 0 <= k < |shuffled| && shuffled[k] == y;
        assert cards[k] == ToCard(y);
      }
    }
  }

  /** A difficulty that no item has falls back to the whole list. */
  lemma MissingDifficultyUsesAll(vocab: seq<VocabularyItem>, d: int)
    requires forall x :: x in vocab ==> x.difficulty != d
    ensures Filtered(vocab, Some(d)) == vocab
  {
  }
}
