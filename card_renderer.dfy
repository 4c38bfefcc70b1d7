/**
 * The card renderer's selectors: which card field is shown on each side,
 * what the two sides are labelled, and which card template is used, all as
 * functions of the card, the round's layout policy and the display name of
 * the current language.
 */
module CardRenderer {
  import opened Wrappers
  import opened GameModes

  /**
   * A card in play. `translations` is `None` when the card has no translation
   * object; a key mapped to `None` is present with an `undefined` or `null` value.
   */
  datatype Flashcard = Flashcard(english: string, translations: Option<map<string, Option<string>>>)

  /** The text a layout field selects: `english` directly, otherwise a present translation or `''`. */
  function FieldText(card: Flashcard, field: string): (text: string)
    ensures field == "english" ==> text == card.english
    ensures field != "english" && (card.translations.None? || field !in card.translations.value) ==> text == ""
    ensures field != "english" && card.translations.Some? && field in card.translations.value ==>
              text == card.translations.value[field].GetOr("")
  {
    if field == "english" then card.english
    else if card.translations.Some? && field in card.translations.value then card.translations.value[field].GetOr("")
    else ""
  }

  /** `frontText`: the primary field, or `''` without a layout. */
  function FrontText(card: Flashcard, config: Option<LayoutPolicy>): (text: string)
    ensures config.None? ==> text == ""
    ensures config.Some? && config.value.dataMap.primary == "english" ==> text == card.english
    ensures config.Some? && config.value.dataMap.primary != "english" && text != "" ==>
              ShowsTranslation(card, config.value.dataMap.primary, text)
    ensures config.Some? ==> var f := config.value.dataMap.primary;
              f != "english" && (card.translations.None? || f !in card.translations.value) ==> text == ""
    ensures config.Some? ==> var f := config.value.dataMap.primary;
              f != "english" && card.translations.Some? && f in card.translations.value ==>
                text == card.translations.value[f].GetOr("")
  {
    if config.None? then "" else FieldText(card, config.value.dataMap.primary)
  }

  /** `backText`: the secondary field, or `''` without a layout. */
  function BackText(card: Flashcard, config: Option<LayoutPolicy>): (text: string)
    ensures config.None? ==> text == ""
    ensures config.Some? && config.value.dataMap.secondary == "english" ==> text == card.english
    ensures config.Some? && config.value.dataMap.secondary != "english" && text != "" ==>
              ShowsTranslation(card, config.value.dataMap.secondary, text)
    ensures config.Some? ==> var f := config.value.dataMap.secondary;
              f != "english" && (card.translations.None? || f !in card.translations.value) ==> text == ""
    ensures config.Some? ==> var f := config.value.dataMap.secondary;
              f != "english" && card.translations.Some? && f in card.translations.value ==>
                text == card.translations.value[f].GetOr("")
  {
    if config.None? then "" else FieldText(card, config.value.dataMap.secondary)
  }

  /** A non-empty text shown for a translation field is that field's stored translation. */
  predicate ShowsTranslation(card: Flashcard, field: string, text: string) {
    card.translations.Some? && field in card.translations.value && card.translations.value[field] == Some(text)
  }

  /** The label of a side: `English` for the English field, else the display name. */
  function FieldLabel(field: string, displayName: string): (name: string)
    ensures field == "english" ==> name == "English"
    ensures field != "english" ==> name == displayName
    ensures name == "English" <==> field == "english" || displayName == "English"
  {
    if field == "english" then "English" else displayName
  }

  /** `frontLabel`: `English` for the English field, else the current language's display name. */
  function FrontLabel(config: Option<LayoutPolicy>, displayName: string): (name: string)
    ensures config.None? ==> name == "Front"
    ensures config.Some? ==> name == "English" || name == displayName
    ensures config.Some? && config.value.dataMap.primary == "english" ==> name == "English"
  {
    if config.None? then "Front" else FieldLabel(config.value.dataMap.primary, displayName)
  }

  /** `backLabel`: as `frontLabel`, for the secondary field. */
  function BackLabel(config: Option<LayoutPolicy>, displayName: string): (name: string)
    ensures config.None? ==> name == "Back"
    ensures config.Some? ==> name == "English" || name == displayName
    ensures config.Some? && config.value.dataMap.secondary == "english" ==> name == "English"
  {
    if config.None? then "Back" else FieldLabel(config.value.dataMap.secondary, displayName)
  }

  /** What the template shows: a flip card, a typing card, or nothing for an unknown template. */
  datatype View =
    | FlipCard(frontText: string, backText: string, frontLabel: string, backLabel: string)
    | TypingCard(promptText: string, expectedAnswer: string, labelText: string, placeholder: string)
    | NoCard

  /** The template's choice (lines 17 and 26): an empty template id means the standard flashcard. */
  function Render(card: Flashcard, config: LayoutPolicy, displayName: string): (v: View)
    ensures v.FlipCard? <==> config.templateId == "" || config.templateId == "flashcard_standard"
    ensures v.TypingCard? <==> config.templateId == "typing_challenge"
    ensures v.TypingCard? ==> v.expectedAnswer == BackText(card, Some(config))
                              && v.promptText == FrontText(card, Some(config))
  {
    var templateId := if config.templateId == "" then "flashcard_standard" else config.templateId;
    if templateId == "flashcard_standard" then
      FlipCard(FrontText(card, Some(config)), BackText(card, Some(config)),
               FrontLabel(Some(config), displayName), BackLabel(Some(config), displayName))
    else if config.templateId == "typing_challenge" then
      var backLabel := BackLabel(Some(config), displayName);
      TypingCard(FrontText(card, Some(config)), BackText(card, Some(config)),
                 "Translate to " + backLabel, "Type " + backLabel + " word...")
    else NoCard
  }

  // ---------------------------------------------------------------------------
  // Properties

  /** Without a layout the texts are empty and the labels are `Front` and `Back`. */
  lemma NoLayoutDefaults(card: Flashcard, displayName: string)
    ensures FrontText(card, None) == "" && BackText(card, None) == ""
    ensures FrontLabel(None, displayName) == "Front" && BackLabel(None, displayName) == "Back"
  {
  }

  /** A label reads `English` exactly when its field is `english`, as long as the language's own name is not `English`. */
  lemma LabelEnglishIff(config: LayoutPolicy, displayName: string)
    requires displayName != "English"
    ensures FrontLabel(Some(config), displayName) == "English" <==> config.dataMap.primary == "english"
    ensures BackLabel(Some(config), displayName) == "English" <==> config.dataMap.secondary == "english"
  {
  }

  function Swap(config: LayoutPolicy): LayoutPolicy {
    config.(dataMap := DataMap(config.dataMap.secondary, config.dataMap.primary))
  }

  /** Front and back apply one rule to the two fields, so swapping the fields swaps the sides. */
  lemma SwapSwapsSides(card: Flashcard, config: LayoutPolicy, displayName: string)
    ensures FrontText(card, Some(Swap(config))) == BackText(card, Some(config))
    ensures BackText(card, Some(Swap(config))) == FrontText(card, Some(config))
    ensures FrontLabel(Some(Swap(config)), displayName) == BackLabel(Some(config), displayName)
    ensures BackLabel(Some(Swap(config)), displayName) == FrontLabel(Some(config), displayName)
  {
  }

  /**
   * In the standard mode, the recognition card shows the English word first
   * and the translation on the back, and the writing round is a typing card
   * whose expected answer is the English word.
   */
  lemma StandardModeCards(card: Flashcard, language: string, displayName: string)
    ensures var rs := CreateStandardGameMode(language).rounds;
            && FrontText(card, Some(rs[0].layout)) == card.english
            && BackText(card, Some(rs[0].layout)) == FieldText(card, MapLanguageToField(language))
            && Render(card, rs[2].layout, displayName).TypingCard?
            && Render(card, rs[2].layout, displayName).expectedAnswer == card.english
            && Render(card, rs[2].layout, displayName).promptText == FieldText(card, MapLanguageToField(language))
  {
  }
}
