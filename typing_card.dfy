/**
 * The typing card: the learner types an answer, a correct one is announced
 * and submitted once the feedback delay has passed, a wrong one pauses the
 * card until the learner continues. The delay is an explicit step,
 * `TimerFires`, and the emitted answers are recorded in `emitted`.
 */
module TypingCard {
  import opened Wrappers
  import opened Validation

  datatype Feedback = Feedback(correct: bool, msg: string)

  /** `GAME_CONSTANTS.FEEDBACK_DELAY`, in milliseconds; only the order of steps is modelled, not time. */
  const FeedbackDelay: nat := 800

  /** The feedback shown for a wrong answer. */
  function IncorrectFeedback(expected: string): (f: Feedback)
    ensures !f.correct && |f.msg| == 19 + |expected|
    ensures f.msg[..19] == "Incorrect. It was: " && f.msg[19..] == expected
  {
    Feedback(false, "Incorrect. It was: " + expected)
  }

  class TypingCardComponent {
    /** The `expectedAnswer` input; the renderer rebinds it to the back text of the current card. */
    var expectedAnswer: string
    /** The value of `inputControl`. */
    var inputValue: string
    /** `typingFeedback`; `None` is `null`. */
    var typingFeedback: Option<Feedback>
    /** `isPaused`. */
    var isPaused: bool
    /** Callbacks scheduled by a correct answer that have not yet run. */
    var pendingTimers: nat
    /** The `success` flags emitted by `answerSubmitted`, oldest first. */
    var emitted: seq<bool>

    /** The input enabled by the constructor's effect: enabled exactly when the card is not paused. */
    predicate InputEnabled()
      reads this
    {
      !isPaused
    }

    constructor(expected: string)
      ensures expectedAnswer == expected
      ensures inputValue == "" && typingFeedback.None? && !isPaused
      ensures pendingTimers == 0 && emitted == []
      ensures InputEnabled()
    {
      expectedAnswer := expected;
      inputValue := "";
      typingFeedback := None;
      isPaused := false;
      pendingTimers := 0;
      emitted := [];
    }

    /** The renderer binds a new expected answer; the input, feedback, pause and pending callbacks stay. */
    method SetExpectedAnswer(expected: string)
      modifies this
      ensures expectedAnswer == expected
      ensures inputValue == old(inputValue) && typingFeedback == old(typingFeedback) && isPaused == old(isPaused)
      ensures pendingTimers == old(pendingTimers) && emitted == old(emitted)
    {
      expectedAnswer := expected;
    }

    /** The learner types into the input. */
    method SetInput(value: string)
      modifies this
      ensures inputValue == value && expectedAnswer == old(expectedAnswer)
      ensures typingFeedback == old(typingFeedback) && isPaused == old(isPaused)
      ensures pendingTimers == old(pendingTimers) && emitted == old(emitted)
    {
      inputValue := value;
    }

    /**
     * `checkTyping`: nothing for an empty input; a correct answer shows
     * `Correct!` and schedules the submission; a wrong one shows the expected
     * answer and pauses. Nothing is emitted here.
     */
    method CheckTyping()
      modifies this
      ensures emitted == old(emitted) && inputValue == old(inputValue) && expectedAnswer == old(expectedAnswer)
      ensures old(inputValue) == "" ==>
                typingFeedback == old(typingFeedback) && isPaused == old(isPaused) && pendingTimers == old(pendingTimers)
      ensures old(inputValue) != "" && ValidateTypingAnswer(old(inputValue), expectedAnswer) ==>
                typingFeedback == Some(Feedback(true, "Correct!")) && isPaused == old(isPaused)
                && pendingTimers == old(pendingTimers) + 1
      ensures old(inputValue) != "" && !ValidateTypingAnswer(old(inputValue), expectedAnswer) ==>
                typingFeedback == Some(IncorrectFeedback(expectedAnswer)) && isPaused
                && pendingTimers == old(pendingTimers)
    {
      if inputValue == "" {
        return;
      }
      var input := inputValue;
      var expected := expectedAnswer;
      var valid := ValidateTypingAnswer(input, expected);
      if valid {
        Accept();
      } else {
        Reject(expected);
      }
    }

    /** The correct-answer branch of `checkTyping`. */
    method Accept()
      modifies this
      ensures typingFeedback == Some(Feedback(true, "Correct!")) && pendingTimers == old(pendingTimers) + 1
      ensures inputValue == old(inputValue) && isPaused == old(isPaused) && emitted == old(emitted)
      ensures expectedAnswer == old(expectedAnswer)
    {
      typingFeedback := Some(Feedback(true, "Correct!"));
      pendingTimers := pendingTimers + 1;
    }

    /** The wrong-answer branch of `checkTyping`. */
    method Reject(expected: string)
      modifies this
      ensures typingFeedback == Some(IncorrectFeedback(expected)) && isPaused
      ensures inputValue == old(inputValue) && pendingTimers == old(pendingTimers) && emitted == old(emitted)
      ensures expectedAnswer == old(expectedAnswer)
    {
      typingFeedback := Some(IncorrectFeedback(expected));
      isPaused := true;
    }

    /** A callback scheduled by a correct answer runs: it emits success, clears the input and clears the feedback. */
    method TimerFires()
      requires pendingTimers > 0
      modifies this
      ensures emitted == old(emitted) + [true]
      ensures inputValue == "" && typingFeedback.None?
      ensures isPaused == old(isPaused) && pendingTimers == old(pendingTimers) - 1
      ensures expectedAnswer == old(expectedAnswer)
    {
      emitted := emitted + [true];
      inputValue := "";
      typingFeedback := None;
      pendingTimers := pendingTimers - 1;
    }

    /** `continueAfterWrongAnswer`: unpause, clear feedback and input, emit failure. */
    method ContinueAfterWrongAnswer()
      modifies this
      ensures !isPaused && InputEnabled() && typingFeedback.None? && inputValue == ""
      ensures emitted == old(emitted) + [false]
      ensures pendingTimers == old(pendingTimers) && expectedAnswer == old(expectedAnswer)
    {
      isPaused := false;
      typingFeedback := None;
      inputValue := "";
      emitted := emitted + [false];
    }
  }

  /**
   * A wrong answer followed by continuing: the card is paused with the
   * expected answer shown, then ready again, and exactly one failure is emitted.
   */
  method WrongAnswerRound(expected: string, answer: string) returns (card: TypingCardComponent)
    requires answer != "" && !ValidateTypingAnswer(answer, expected)
    ensures fresh(card) && card.emitted == [false] && card.InputEnabled() && card.typingFeedback.None?
  {
    card := new TypingCardComponent(expected);
    card.SetInput(answer);
    card.CheckTyping();
    assert !card.InputEnabled() && card.typingFeedback == Some(IncorrectFeedback(expected)) && card.emitted == [];
    card.ContinueAfterWrongAnswer();
  }

  /**
   * A correct answer: `Correct!` is shown with nothing emitted until the
   * delay fires, then exactly one success is emitted and the card is cleared.
   */
  method CorrectAnswerRound(expected: string, answer: string) returns (card: TypingCardComponent)
    requires answer != "" && ValidateTypingAnswer(answer, expected)
    ensures fresh(card) && card.emitted == [true] && card.InputEnabled()
    ensures card.inputValue == "" && card.typingFeedback.None? && card.pendingTimers == 0
  {
    card := new TypingCardComponent(expected);
    card.SetInput(answer);
    card.CheckTyping();
    assert card.typingFeedback == Some(Feedback(true, "Correct!")) && card.emitted == [];
    card.TimerFires();
  }

  /**
   * The renderer moves on to the next card while a wrong answer is still
   * shown: the card stays paused with the old message, and only continuing
   * emits the failure; the next check uses the new expected answer.
   */
  method RebindWhilePaused(first: string, next: string, answer: string) returns (card: TypingCardComponent)
    requires answer != "" && !ValidateTypingAnswer(answer, first)
    ensures fresh(card) && card.expectedAnswer == next && card.emitted == [false]
    ensures card.InputEnabled() && card.typingFeedback.None? && card.inputValue == ""
  {
    card := new TypingCardComponent(first);
    card.SetInput(answer);
    card.CheckTyping();
    card.SetExpectedAnswer(next);
    assert card.isPaused && card.typingFeedback == Some(IncorrectFeedback(first)) && card.emitted == [];
    card.ContinueAfterWrongAnswer();
  }
}
