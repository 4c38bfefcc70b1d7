/**
 * The learning screen: a list of word pairs walked one at a time, with the
 * translation hidden until revealed. Marking a word right or wrong hides
 * the translation and moves on, except on the last word.
 */
module Learning {
  import opened Wrappers

  datatype WordPair = WordPair(english: string, polish: string)

  class LearningComponent {
    var words: seq<WordPair>
    var currentIndex: nat
    var showTranslation: bool

    constructor()
      ensures words == [] && currentIndex == 0 && !showTranslation
    {
      words := [];
      currentIndex := 0;
      showTranslation := false;
    }

    /** The index stays within the list, or at 0 for an empty list. */
    predicate InRange()
      reads this
    {
      currentIndex < |words| || currentIndex == 0
    }

    /** `currentWord`: the word at the index, or none past the end. */
    function CurrentWord(): (w: Option<WordPair>)
      reads this
      ensures w.Some? <==> currentIndex < |words|
      ensures w.Some? ==> w.value == words[currentIndex]
    {
      if currentIndex < |words| then Some(words[currentIndex]) else None
    }

    /** `isLastWord`: at or past the last index; true for an empty list. */
    function IsLastWord(): (last: bool)
      reads this
      ensures words == [] ==> last
      ensures last <==> currentIndex + 1 >= |words|
    {
      currentIndex >= |words| - 1
    }

    /** The generated words arrive; the index is left where it was. */
    method WordsLoaded(generated: seq<WordPair>)
      modifies this
      ensures words == generated && currentIndex == old(currentIndex) && showTranslation == old(showTranslation)
    {
      words := generated;
    }

    /** `revealTranslation`. */
    method RevealTranslation()
      modifies this
      ensures showTranslation && words == old(words) && currentIndex == old(currentIndex)
    {
      showTranslation := true;
    }

    /** `markCorrect`: hide the translation and move to the next word unless on the last one. */
    method MarkCorrect()
      modifies this
      ensures !showTranslation && words == old(words)
      ensures currentIndex == if old(currentIndex) + 1 >= |words| then old(currentIndex) else old(currentIndex) + 1
      ensures old(InRange()) ==> InRange()
      ensures old(currentIndex) < |words| ==> currentIndex < |words|
    {
      showTranslation := false;
      if !IsLastWord() {
        currentIndex := currentIndex + 1;
      }
    }

    /** `markIncorrect`: the same steps as `markCorrect`. */
    method MarkIncorrect()
      modifies this
      ensures !showTranslation && words == old(words)
      ensures currentIndex == if old(currentIndex) + 1 >= |words| then old(currentIndex) else old(currentIndex) + 1
      ensures old(InRange()) ==> InRange()
      ensures old(currentIndex) < |words| ==> currentIndex < |words|
    {
      showTranslation := false;
      if !IsLastWord() {
        currentIndex := currentIndex + 1;
      }
    }
  }
}
