/**
 * Word generation outside the worker: the fixed fallback tables by theme,
 * and the choice between the fallback (off the browser) and a worker request.
 */
module AiWordGeneration {
  import opened Text
  import opened Wrappers

  datatype WordPair = WordPair(english: string, polish: string)

  const ItWords: seq<WordPair> := [
    WordPair("computer", "komputer"), WordPair("software", "oprogramowanie"),
    WordPair("internet", "internet"), WordPair("database", "baza danych"),
    WordPair("algorithm", "algorytm"), WordPair("network", "sieć"),
    WordPair("server", "serwer"), WordPair("browser", "przeglądarka"),
    WordPair("keyboard", "klawiatura"), WordPair("mouse", "mysz")]

  const HrWords: seq<WordPair> := [
    WordPair("employee", "pracownik"), WordPair("manager", "menedżer"),
    WordPair("interview", "wywiad"), WordPair("salary", "wynagrodzenie"),
    WordPair("recruitment", "rekrutacja"), WordPair("benefits", "świadczenia"),
    WordPair("performance", "wydajność"), WordPair("training", "szkolenie"),
    WordPair("contract", "umowa"), WordPair("vacation", "urlop")]

  const BusinessWords: seq<WordPair> := [
    WordPair("meeting", "spotkanie"), WordPair("project", "projekt"),
    WordPair("budget", "budżet"), WordPair("strategy", "strategia"),
    WordPair("deadline", "termin"), WordPair("presentation", "prezentacja"),
    WordPair("client", "klient"), WordPair("profit", "zysk"),
    WordPair("investment", "inwestycja"), WordPair("partnership", "partnerstwo")]

  const MedicalWords: seq<WordPair> := [
    WordPair("doctor", "lekarz"), WordPair("patient", "pacjent"),
    WordPair("medicine", "lek"), WordPair("hospital", "szpital"),
    WordPair("diagnosis", "diagnoza"), WordPair("treatment", "leczenie"),
    WordPair("symptom", "objaw"), WordPair("prescription", "recepta"),
    WordPair("appointment", "wizyta"), WordPair("emergency", "nagły wypadek")]

  /** `fallbackThemes`, keyed by theme name (case-sensitive). */
  const FallbackThemes: map<string, seq<WordPair>> :=
    map["IT" := ItWords, "HR" := HrWords, "Business" := BusinessWords, "Medical" := MedicalWords]

  /** `getFallbackWords`: a prefix of the theme's table, or of the IT table for an unknown theme. */
  function GetFallbackWords(theme: string, count: int): (words: seq<WordPair>)
    ensures theme in FallbackThemes ==> words == Take(FallbackThemes[theme], count)
    ensures theme !in FallbackThemes ==> words == Take(ItWords, count)
    ensures |words| == SliceEnd(10, count)
  {
    var table := if theme in FallbackThemes then FallbackThemes[theme] else FallbackThemes["IT"];
    table[..SliceEnd(|table|, count)]
  }

  /** What `generateWords` does: return the fallback list at once, or post `{theme, count}` to a new worker. */
  datatype Outcome = Fallback(words: seq<WordPair>) | WorkerRequest(theme: string, count: int)

  /** `generateWords`; `count` is `None` when the caller leaves it out (default 10). */
  function GenerateWords(isBrowser: bool, theme: string, count: Option<int>): (outcome: Outcome)
    ensures !isBrowser <==> outcome.Fallback?
    ensures outcome.Fallback? ==> outcome.words == GetFallbackWords(theme, count.GetOr(10))
    ensures outcome.WorkerRequest? ==> outcome == WorkerRequest(theme, count.GetOr(10))
  {
    var n := count.GetOr(10);
    if !isBrowser then Fallback(GetFallbackWords(theme, n)) else WorkerRequest(theme, n)
  }

  // ---------------------------------------------------------------------------
  // Properties

  /** Every table has ten entries, so a non-negative count yields `min(count, 10)` words. */
  lemma FallbackSize(theme: string, count: nat)
    ensures |GetFallbackWords(theme, count)| == if count < 10 then count else 10
  {
  }

  /** Off the browser, the default count returns a whole table: the theme's, or the IT table. */
  lemma DefaultIsWholeTable(theme: string)
    ensures GenerateWords(false, theme, None).words == if theme in FallbackThemes then FallbackThemes[theme] else ItWords
  {
  }

  /** A longer request extends a shorter one: the results are prefixes of each other. */
  lemma FallbackPrefixes(theme: string, m: nat, n: nat)
    requires m <= n
    ensures GetFallbackWords(theme, m) == GetFallbackWords(theme, n)[..|GetFallbackWords(theme, m)|]
  {
  }

  /** No table repeats an English word. */
  lemma TablesDistinct(theme: string)
    requires theme in FallbackThemes
    ensures forall i, j :: 0 <= i < j < |FallbackThemes[theme]| ==> FallbackThemes[theme][i].english != FallbackThemes[theme][j].english
  {
  }

  /** The fallback for the IT page of the learning screen (20 words asked) is the whole IT table. */
  lemma LearningScreenFallback()
    ensures GenerateWords(false, "IT", Some(20)) == Fallback(ItWords)
  {
  }
}
