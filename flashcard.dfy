/**
 * The legacy flashcard: the current round of the game store decides which
 * side shows English and which Polish, and the card can be flipped except in
 * the writing round. The store's round and card are parameters.
 */
module Flashcard {
  import opened Wrappers

  /** A card of the legacy store. */
  datatype Card = Card(english: string, polish: string)

  const RecognizeEn: string := "RECOGNIZE_EN"
  const WriteEn: string := "WRITE_EN"

  /** `frontLabel`. */
  function FrontLabel(round: string): (name: string)
    ensures name == "English" <==> round == RecognizeEn
    ensures name == "English" || name == "Polish"
  {
    if round == RecognizeEn then "English" else "Polish"
  }

  /** `backLabel`. */
  function BackLabel(round: string): (name: string)
    ensures name == "Polish" <==> round == RecognizeEn
    ensures name == "English" || name == "Polish"
  {
    if round == RecognizeEn then "Polish" else "English"
  }

  /** `frontText`: empty without a card. */
  function FrontText(card: Option<Card>, round: string): (text: string)
    ensures card.None? ==> text == ""
    ensures card.Some? ==> text == card.value.english || text == card.value.polish
  {
    if card.None? then "" else if round == RecognizeEn then card.value.english else card.value.polish
  }

  /** `backText`: empty without a card. */
  function BackText(card: Option<Card>, round: string): (text: string)
    ensures card.None? ==> text == ""
    ensures card.Some? ==> text == card.value.english || text == card.value.polish
  {
    if card.None? then "" else if round == RecognizeEn then card.value.polish else card.value.english
  }

  class FlashcardComponent {
    var isFlipped: bool

    constructor()
      ensures !isFlipped
    {
      isFlipped := false;
    }

    /** `flip`, in the store's current round: toggles, except in the writing round. */
    method Flip(round: string)
      modifies this
      ensures round != WriteEn ==> isFlipped == !old(isFlipped)
      ensures round == WriteEn ==> isFlipped == old(isFlipped)
    {
      if round != WriteEn {
        isFlipped := !isFlipped;
      }
    }

    /** `resetFlip`. */
    method ResetFlip()
      modifies this
      ensures !isFlipped
    {
      isFlipped := false;
    }
  }

  // ---------------------------------------------------------------------------
  // Properties

  /** The two sides always carry different labels, and each side shows the field its label names. */
  lemma SidesDiffer(card: Card, round: string)
    ensures FrontLabel(round) != BackLabel(round)
    ensures FrontText(Some(card), round) == (if FrontLabel(round) == "English" then card.english else card.polish)
    ensures BackText(Some(card), round) == (if BackLabel(round) == "English" then card.english else card.polish)
  {
  }

  /** Front and back of a card are each other's mirror between the recognition round and any other round. */
  lemma RoundsMirror(card: Option<Card>, round: string)
    requires round != RecognizeEn
    ensures FrontText(card, round) == BackText(card, RecognizeEn)
    ensures BackText(card, round) == FrontText(card, RecognizeEn)
  {
  }

  /** Two flips in the same round restore the card. */
  method FlipTwice(c: FlashcardComponent, round: string)
    modifies c
    ensures c.isFlipped == old(c.isFlipped)
  {
    c.Flip(round);
    c.Flip(round);
  }
}
