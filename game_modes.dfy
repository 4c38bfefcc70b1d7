/**
 * The game-mode configurations: a standard mode of three rounds
 * (recognition, recall, writing) and a blitz mode of the first two, each
 * built for the learner's current language.
 */
module GameModes {

  /** Which card field is shown on the front (`primary`) and on the back (`secondary`). */
  datatype DataMap = DataMap(primary: string, secondary: string)

  datatype LayoutPolicy = LayoutPolicy(templateId: string, dataMap: DataMap)

  datatype FailureBehavior = FailureBehavior(action: string, strategy: string, params: seq<int>)

  datatype RoundDefinition = RoundDefinition(
    id: string,
    name: string,
    layout: LayoutPolicy,
    inputSource: string,
    requiredSuccesses: nat,
    failureBehavior: FailureBehavior)

  datatype GameMode = GameMode(id: string, description: string, rounds: seq<RoundDefinition>)

  /** `mapLanguageToField`: the translation field for a language code; unsupported codes fall back to Polish. */
  function MapLanguageToField(language: string): (field: string)
    ensures field == "polish" || field == "spanish"
    ensures field == "spanish" <==> language == "es"
  {
    if language == "pl" then "polish"
    else if language == "es" then "spanish"
    else "polish"
  }

  /** The failure behaviour every round uses: requeue the card three places later. */
  const Requeue: FailureBehavior := FailureBehavior("requeue", "static_offset", [3])

  function Round(id: string, name: string, templateId: string, primary: string, secondary: string): RoundDefinition {
    RoundDefinition(id, name, LayoutPolicy(templateId, DataMap(primary, secondary)), "deck_start", 1, Requeue)
  }

  function RecognitionRound(native: string): RoundDefinition {
    Round("recognition", "Recognition", "flashcard_standard", "english", native)
  }

  function RecallRound(native: string): RoundDefinition {
    Round("recall", "Recall", "flashcard_standard", native, "english")
  }

  function WritingRound(native: string): RoundDefinition {
    Round("writing", "Writing", "typing_challenge", native, "english")
  }

  /** `createStandardGameMode`, taking the current language code. */
  function CreateStandardGameMode(language: string): (mode: GameMode)
    ensures mode.id == "standard" && |mode.rounds| == 3
  {
    var native := MapLanguageToField(language);
    GameMode("standard", "Classic Learning Mode",
      [RecognitionRound(native), RecallRound(native), WritingRound(native)])
  }

  /** `createBlitzGameMode`, taking the current language code. */
  function CreateBlitzGameMode(language: string): (mode: GameMode)
    ensures mode.id == "blitz" && |mode.rounds| == 2
  {
    var native := MapLanguageToField(language);
    GameMode("blitz", "Blitz Mode - Fast Flipping", [RecognitionRound(native), RecallRound(native)])
  }

  // ---------------------------------------------------------------------------
  // Properties

  /** The standard rounds come in the order recognition, recall, writing. */
  lemma StandardRoundOrder(language: string)
    ensures CreateStandardGameMode(language).rounds[0].id == "recognition"
    ensures CreateStandardGameMode(language).rounds[1].id == "recall"
    ensures CreateStandardGameMode(language).rounds[2].id == "writing"
  {
  }

  /**
   * Recognition asks from English to the native language; recall and writing
   * ask from the native language to English.
   */
  lemma StandardDirections(language: string)
    ensures var native := MapLanguageToField(language);
            var rs := CreateStandardGameMode(language).rounds;
            && rs[0].layout.dataMap == DataMap("english", native)
            && rs[1].layout.dataMap == DataMap(native, "english")
            && rs[2].layout.dataMap == DataMap(native, "english")
  {
  }

  /** Only the writing round is a typing challenge, and no round shows English on both sides. */
  lemma TemplatesAndSides(language: string)
    ensures forall r :: r in CreateStandardGameMode(language).rounds ==>
              (r.layout.templateId == "typing_challenge" <==> r.id == "writing")
              && (r.layout.templateId == "typing_challenge" || r.layout.templateId == "flashcard_standard")
              && r.layout.dataMap.primary != r.layout.dataMap.secondary
  {
  }

  /** Every round of either mode starts from the deck, needs one success, and requeues at offset 3 on failure. */
  lemma UniformRoundPolicy(language: string)
    ensures forall r :: r in CreateStandardGameMode(language).rounds + CreateBlitzGameMode(language).rounds ==>
              r.inputSource == "deck_start" && r.requiredSuccesses == 1
              && r.failureBehavior == FailureBehavior("requeue", "static_offset", [3])
  {
  }

  /** Blitz mode is standard mode without its writing round. */
  lemma BlitzIsStandardPrefix(language: string)
    ensures CreateBlitzGameMode(language).rounds == CreateStandardGameMode(language).rounds[..2]
  {
  }

  /** Unsupported language codes configure the same modes as Polish. */
  lemma UnsupportedLanguageIsPolish(language: string)
    requires language != "es"
    ensures CreateStandardGameMode(language) == CreateStandardGameMode("pl")
    ensures CreateBlitzGameMode(language) == CreateBlitzGameMode("pl")
  {
  }
}
