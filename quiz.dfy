/**
 * The quiz session controller of the `Home` page: four phases, a user/assistant
 * transcript handed to the quiz agent on every call, and the handlers that
 * drive one exchange with the agent each.
 */
module Quiz {
  import opened Wrappers
  import opened Strings

  datatype Role = User | Assistant

  /** One transcript entry, `{ role, content }`. */
  datatype Turn = Turn(role: Role, content: string)

  /** `QuizState` */
  datatype Phase = Setup | Active | Feedback | Results

  datatype Difficulty = Easy | Medium | Hard

  function DifficultyName(d: Difficulty): string {
    match d
    case Easy => "Easy"
    case Medium => "Medium"
    case Hard => "Hard"
  }

  /** The names of the selectable categories, in display order. */
  const CategoryNames: seq<string> :=
    ["Science", "History", "Sports", "Entertainment", "Geography", "General Knowledge"]

  datatype QuizOption = QuizOption(optionLabel: string, text: string)

  /** `QuizMasterResponse`: every field may be absent. */
  datatype QuizResponse = QuizResponse(
    questionText: Option<string>,
    options: Option<seq<QuizOption>>,
    questionNumber: Option<int>,
    isCorrect: Option<bool>,
    correctAnswer: Option<string>,
    explanation: Option<string>,
    currentScore: Option<int>,
    currentStreak: Option<int>,
    bestStreak: Option<int>,
    finalScore: Option<int>,
    accuracyPercentage: Option<int>,
    quizComplete: Option<bool>)

  /**
   * What a call to the agent came to: a usable result object, a reply without
   * one (`success` false or no `response.result`), or an exception.
   */
  datatype AgentOutcome = Replied(result: QuizResponse) | Unsuccessful | Threw

  /** The message and history one handler hands to the agent. */
  datatype Request = Request(message: string, history: seq<Turn>)

  const StartPrefix := "Start quiz: Category="
  const AnswerPrefix := "My answer is "
  const NextMessage := "Next question"

  /** What follows the category in a start message. */
  function SettingSuffix(difficulty: Difficulty): string {
    ", Difficulty=" + DifficultyName(difficulty)
  }

  /**
   * How the agent reads the settings back from a start message: the text
   * between the prefix and the difficulty suffix is the category.
   */
  function ReadStart(message: string): Option<(string, Difficulty)> {
    if !StartsWith(message, StartPrefix) then None
    else
      var rest := message[|StartPrefix|..];
      if EndsWith(rest, SettingSuffix(Easy)) then Some((rest[..|rest| - |SettingSuffix(Easy)|], Easy))
      else if EndsWith(rest, SettingSuffix(Medium)) then Some((rest[..|rest| - |SettingSuffix(Medium)|], Medium))
      else if EndsWith(rest, SettingSuffix(Hard)) then Some((rest[..|rest| - |SettingSuffix(Hard)|], Hard))
      else None
  }

  /** How the agent reads the chosen label back from an answer message. */
  function ReadAnswer(message: string): Option<string> {
    if StartsWith(message, AnswerPrefix) then Some(message[|AnswerPrefix|..]) else None
  }

  function StartMessage(category: string, difficulty: Difficulty): string {
    StartPrefix + category + SettingSuffix(difficulty)
  }

  /** The message that starts a quiz carries the category and difficulty readably. */
  lemma StartMessageRoundTrip(category: string, difficulty: Difficulty)
    ensures ReadStart(StartMessage(category, difficulty)) == Some((category, difficulty))
    ensures ReadAnswer(StartMessage(category, difficulty)).None?
  {
    var m := StartMessage(category, difficulty);
    assert m[..|StartPrefix|] == StartPrefix && m[|StartPrefix|..] == category + SettingSuffix(difficulty);
    assert m[..|AnswerPrefix|] != AnswerPrefix by { assert m[0] == 'S'; }
    DifficultyFromSuffix(category, difficulty);
  }

  /** The last letter of a difficulty's name: no two names share it. */
  function LastLetter(difficulty: Difficulty): (c: char)
    ensures c == DifficultyName(difficulty)[|DifficultyName(difficulty)| - 1]
  {
    match difficulty
    case Easy => 'y'
    case Medium => 'm'
    case Hard => 'd'
  }

  /** The difficulty suffixes end differently, so only the right one matches. */
  lemma DifficultyFromSuffix(category: string, difficulty: Difficulty)
    ensures var rest := category + SettingSuffix(difficulty);
      && (EndsWith(rest, SettingSuffix(Easy)) <==> difficulty == Easy)
      && (EndsWith(rest, SettingSuffix(Medium)) <==> difficulty == Medium)
      && (EndsWith(rest, SettingSuffix(Hard)) <==> difficulty == Hard)
      && rest[..|rest| - |SettingSuffix(difficulty)|] == category
  {
    var rest := category + SettingSuffix(difficulty);
    assert rest[|rest| - |SettingSuffix(difficulty)|..] == SettingSuffix(difficulty);
    var last := rest[|rest| - 1];
    assert last == LastLetter(difficulty);
    forall other: Difficulty | other != difficulty
      ensures !EndsWith(rest, SettingSuffix(other))
    {
      var suffix := SettingSuffix(other);
      assert suffix[|suffix| - 1] == LastLetter(other) != last;
      if |suffix| <= |rest| {
        assert rest[|rest| - |suffix|..][|suffix| - 1] == last;
      }
    }
  }

  function AnswerMessage(choice: string): string {
    AnswerPrefix + choice
  }

  /** The message that submits an answer carries the chosen label readably. */
  lemma AnswerMessageRoundTrip(choice: string)
    ensures ReadAnswer(AnswerMessage(choice)) == Some(choice)
    ensures ReadStart(AnswerMessage(choice)).None?
  {
    var m := AnswerMessage(choice);
    assert m[..|AnswerPrefix|] == AnswerPrefix && m[|AnswerPrefix|..] == choice;
    if |StartPrefix| <= |m| {
      assert m[..|StartPrefix|][0] == 'M';
    }
  }

  /** The three messages are told apart: "Next question" reads as neither of the others. */
  lemma NextMessageDistinct()
    ensures ReadStart(NextMessage).None? && ReadAnswer(NextMessage).None?
  {
    assert NextMessage[0] == 'N';
  }

  const StartFailed := "Failed to start quiz. Please try again."
  const StartThrew := "An error occurred while starting the quiz."
  const SubmitFailed := "Failed to submit answer. Please try again."
  const SubmitThrew := "An error occurred while submitting your answer."
  const NextFailed := "Failed to load next question. Please try again."
  const NextThrew := "An error occurred while loading the next question."

  // ---------------------------------------------------------------------------
  // Transcripts
  // ---------------------------------------------------------------------------

  /** One successful exchange: the user's message and the serialized reply. */
  datatype Exchange = Exchange(prompt: string, reply: string)

  /** The transcript that a sequence of exchanges leaves behind. */
  function Flatten(exchanges: seq<Exchange>): seq<Turn> {
    if exchanges == [] then []
    else Flatten(exchanges[..|exchanges| - 1])
         + [Turn(User, exchanges[|exchanges| - 1].prompt), Turn(Assistant, exchanges[|exchanges| - 1].reply)]
  }

  /** Turns alternate user, assistant, user, …, and the last one is the assistant's. */
  predicate IsTranscript(h: seq<Turn>) {
    |h| % 2 == 0 && forall i :: 0 <= i < |h| ==> h[i].role == (if i % 2 == 0 then User else Assistant)
  }

  /** The exchanges a well-formed transcript is made of. */
  function Exchanges(h: seq<Turn>): seq<Exchange>
    requires |h| % 2 == 0
  {
    if h == [] then []
    else Exchanges(h[..|h| - 2]) + [Exchange(h[|h| - 2].content, h[|h| - 1].content)]
  }

  /** Transcript parity: n exchanges leave exactly 2n turns, alternating from the user's. */
  lemma {:induction false} FlattenIsTranscript(exchanges: seq<Exchange>)
    ensures |Flatten(exchanges)| == 2 * |exchanges|
    ensures IsTranscript(Flatten(exchanges))
  {
    if exchanges != [] {
      FlattenIsTranscript(exchanges[..|exchanges| - 1]);
    }
  }

  /** Every transcript is the flattening of its exchanges, so the two views agree. */
  lemma {:induction false} TranscriptExchanges(h: seq<Turn>)
    requires IsTranscript(h)
    ensures Flatten(Exchanges(h)) == h
  {
    if h != [] {
      var front := h[..|h| - 2];
      TranscriptPrefix(h);
      TranscriptExchanges(front);
      var last := Exchange(h[|h| - 2].content, h[|h| - 1].content);
      assert Exchanges(h) == Exchanges(front) + [last];
      FlattenAppend(Exchanges(front), last);
      assert h[|h| - 2] == Turn(User, last.prompt);
      assert h[|h| - 1] == Turn(Assistant, last.reply);
      assert h == front + [h[|h| - 2], h[|h| - 1]];
    }
  }

  /** Reading the exchanges back out of their transcript gives the same exchanges. */
  lemma {:induction false} ExchangesFlatten(exchanges: seq<Exchange>)
    ensures |Flatten(exchanges)| % 2 == 0 && Exchanges(Flatten(exchanges)) == exchanges
  {
    FlattenIsTranscript(exchanges);
    if exchanges != [] {
      var front := exchanges[..|exchanges| - 1];
      ExchangesFlatten(front);
      var h := Flatten(exchanges);
      assert h[..|h| - 2] == Flatten(front);
      assert exchanges == front + [exchanges[|exchanges| - 1]];
    }
  }

  /** Dropping the last exchange of a transcript leaves a transcript. */
  lemma TranscriptPrefix(h: seq<Turn>)
    requires IsTranscript(h) && h != []
    ensures IsTranscript(h[..|h| - 2])
  {
    var front := h[..|h| - 2];
    forall i | 0 <= i < |front| ensures front[i].role == (if i % 2 == 0 then User else Assistant) {
      assert front[i] == h[i];
    }
  }

  /** Appending one exchange appends its two turns and nothing else. */
  lemma FlattenAppend(exchanges: seq<Exchange>, x: Exchange)
    ensures Flatten(exchanges + [x]) == Flatten(exchanges) + [Turn(User, x.prompt), Turn(Assistant, x.reply)]
  {
    assert (exchanges + [x])[..|exchanges|] == exchanges;
  }

  // ---------------------------------------------------------------------------
  // The session
  // ---------------------------------------------------------------------------

  /**
   * The state cells of `Home`. `serialize` stands for JSON.stringify, which the
   * model does not interpret. `exchanges` records the successful exchanges the
   * transcript is built from.
   */
  class QuizSession {
    var quizState: Phase
    var selectedCategory: string
    var difficulty: Difficulty
    var messageHistory: seq<Turn>
    var currentQuestion: Option<QuizResponse>
    var selectedAnswer: string
    var loading: bool
    var error: string
    var feedbackData: Option<QuizResponse>
    var finalResults: Option<QuizResponse>
    const serialize: QuizResponse -> string
    ghost var exchanges: seq<Exchange>

    /**
     * The transcript is made of whole exchanges; every phase has the data its
     * screen needs; the setup screen has no transcript and no selection.
     */
    ghost predicate Valid()
      reads this
    {
      && messageHistory == Flatten(exchanges)
      && selectedCategory in CategoryNames
      && (quizState == Setup ==> messageHistory == [] && selectedAnswer == "")
      && (quizState == Active ==> currentQuestion.Some?)
      && (quizState == Feedback ==> feedbackData.Some?)
      && (quizState == Results ==> finalResults.Some?)
    }

    /**
     * The phase whose screen the page shows, if its data is there: each screen
     * is guarded by its phase and, past setup, by the result it displays.
     */
    function Screen(): (shown: Option<Phase>)
      reads this
      ensures Valid() ==> shown == Some(quizState)
      ensures shown.Some? ==> shown.value == quizState
    {
      match quizState
      case Setup => Some(Setup)
      case Active => if currentQuestion.Some? then Some(Active) else None
      case Feedback => if feedbackData.Some? then Some(Feedback) else None
      case Results => if finalResults.Some? then Some(Results) else None
    }

    /**
     * Transcript parity and alternation: the transcript holds two turns per
     * successful exchange, user first, and is read back as exactly those exchanges.
     */
    lemma TranscriptParity()
      requires Valid()
      ensures IsTranscript(messageHistory)
      ensures |messageHistory| == 2 * |exchanges|
      ensures Exchanges(messageHistory) == exchanges
    {
      FlattenIsTranscript(exchanges);
      ExchangesFlatten(exchanges);
    }

    /** The initial state cells. */
    constructor (serialize: QuizResponse -> string)
      ensures Valid() && !loading
      ensures quizState == Setup && selectedCategory == "Science" && difficulty == Medium
      ensures messageHistory == [] && currentQuestion == None && selectedAnswer == ""
      ensures error == "" && feedbackData == None && finalResults == None
      ensures this.serialize == serialize
    {
      quizState := Setup;
      selectedCategory := "Science";
      difficulty := Medium;
      messageHistory := [];
      currentQuestion := None;
      selectedAnswer := "";
      loading := false;
      error := "";
      feedbackData := None;
      finalResults := None;
      this.serialize := serialize;
      exchanges := [];
    }

    /** A category button. */
    method SelectCategory(name: string)
      requires Valid() && name in CategoryNames
      modifies this`selectedCategory
      ensures Valid()
      ensures selectedCategory == name
    {
      selectedCategory := name;
    }

    /** A difficulty button. */
    method SelectDifficulty(level: Difficulty)
      requires Valid()
      modifies this`difficulty
      ensures Valid()
      ensures difficulty == level
    {
      difficulty := level;
    }

    /** An option button: shown only on the question screen, disabled while loading. */
    method SelectAnswer(choice: string)
      requires Valid() && !loading
      requires quizState == Active && currentQuestion.value.options.Some?
      requires exists o :: o in currentQuestion.value.options.value && o.optionLabel == choice
      modifies this`selectedAnswer
      ensures Valid()
      ensures selectedAnswer == choice
    {
      selectedAnswer := choice;
    }

    /**
     * `startQuiz`: asks for the first question with an empty history. A usable
     * result replaces the transcript with this one exchange and shows the
     * question; otherwise only the error message changes.
     */
    method StartQuiz(outcome: AgentOutcome) returns (sent: Request)
      requires Valid() && !loading
      modifies this`loading, this`error, this`currentQuestion, this`messageHistory, this`exchanges, this`quizState
      ensures Valid() && !loading
      ensures sent == Request(StartMessage(selectedCategory, difficulty), [])
      ensures outcome.Replied? ==>
        && quizState == Active
        && currentQuestion == Some(outcome.result)
        && messageHistory == [Turn(User, sent.message), Turn(Assistant, serialize(outcome.result))]
        && exchanges == [Exchange(sent.message, serialize(outcome.result))]
        && error == ""
      ensures !outcome.Replied? ==>
        && quizState == old(quizState)
        && currentQuestion == old(currentQuestion)
        && messageHistory == old(messageHistory)
        && exchanges == old(exchanges)
        && error == (if outcome.Threw? then StartThrew else StartFailed)
    {
      loading := true;
      error := "";
      var message := StartMessage(selectedCategory, difficulty);
      sent := Request(message, []);
      match outcome {
      case Replied(data) =>
        currentQuestion := Some(data);
        messageHistory := [Turn(User, message), Turn(Assistant, serialize(data))];
        exchanges := [Exchange(message, serialize(data))];
        assert messageHistory == Flatten(exchanges) by {
          FlattenAppend([], exchanges[0]);
        }
        quizState := Active;
      case Unsuccessful =>
        error := StartFailed;
      case Threw =>
        error := StartThrew;
      }
      loading := false;
    }

    /**
     * `submitAnswer`: does nothing without a selection; otherwise sends the
     * selected label with the whole transcript. A usable result appends one
     * exchange and shows the feedback; otherwise only the error message changes.
     */
    method SubmitAnswer(outcome: AgentOutcome) returns (sent: Option<Request>)
      requires Valid() && !loading
      modifies this`loading, this`error, this`feedbackData, this`messageHistory, this`exchanges, this`quizState
      ensures Valid() && !loading
      ensures old(selectedAnswer) == "" ==> sent == None && error == old(error)
      ensures old(selectedAnswer) != "" ==>
        sent == Some(Request(AnswerMessage(old(selectedAnswer)), old(messageHistory)))
      ensures sent.Some? && outcome.Replied? ==>
        && quizState == Feedback
        && feedbackData == Some(outcome.result)
        && messageHistory == old(messageHistory)
           + [Turn(User, sent.value.message), Turn(Assistant, serialize(outcome.result))]
        && exchanges == old(exchanges) + [Exchange(sent.value.message, serialize(outcome.result))]
        && error == ""
      ensures sent.None? || !outcome.Replied? ==>
        && quizState == old(quizState)
        && feedbackData == old(feedbackData)
        && messageHistory == old(messageHistory)
        && exchanges == old(exchanges)
      ensures sent.Some? && !outcome.Replied? ==> error == (if outcome.Threw? then SubmitThrew else SubmitFailed)
    {
      if selectedAnswer == "" {
        return None;
      }
      loading := true;
      error := "";
      var message := AnswerMessage(selectedAnswer);
      sent := Some(Request(message, messageHistory));
      match outcome {
      case Replied(data) =>
        feedbackData := Some(data);
        AppendExchange(message, serialize(data));
        quizState := Feedback;
      case Unsuccessful =>
        error := SubmitFailed;
      case Threw =>
        error := SubmitThrew;
      }
      loading := false;
    }

    /**
     * `nextQuestion`: drops the selection first, then sends "Next question" with
     * the whole transcript. A result marked complete shows the final results
     * and leaves the transcript as it is; any other usable result appends one
     * exchange and shows the new question; a failure changes only the error.
     */
    method NextQuestion(outcome: AgentOutcome) returns (sent: Request)
      requires Valid() && !loading
      modifies this`loading, this`error, this`selectedAnswer, this`finalResults, this`currentQuestion, this`messageHistory, this`exchanges, this`quizState
      ensures Valid() && !loading
      ensures sent == Request(NextMessage, old(messageHistory))
      ensures selectedAnswer == ""
      ensures outcome.Replied? && outcome.result.quizComplete == Some(true) ==>
        && quizState == Results
        && finalResults == Some(outcome.result)
        && currentQuestion == old(currentQuestion)
        && messageHistory == old(messageHistory)
        && exchanges == old(exchanges)
        && error == ""
      ensures outcome.Replied? && outcome.result.quizComplete != Some(true) ==>
        && quizState == Active
        && currentQuestion == Some(outcome.result)
        && finalResults == old(finalResults)
        && messageHistory == old(messageHistory)
           + [Turn(User, NextMessage), Turn(Assistant, serialize(outcome.result))]
        && exchanges == old(exchanges) + [Exchange(NextMessage, serialize(outcome.result))]
        && error == ""
      ensures !outcome.Replied? ==>
        && quizState == old(quizState)
        && currentQuestion == old(currentQuestion)
        && finalResults == old(finalResults)
        && messageHistory == old(messageHistory)
        && exchanges == old(exchanges)
        && error == (if outcome.Threw? then NextThrew else NextFailed)
    {
      loading := true;
      error := "";
      selectedAnswer := "";
      var message := NextMessage;
      sent := Request(message, messageHistory);
      match outcome {
      case Replied(data) =>
        if data.quizComplete == Some(true) {
          finalResults := Some(data);
          quizState := Results;
        } else {
          currentQuestion := Some(data);
          AppendExchange(message, serialize(data));
          quizState := Active;
        }
      case Unsuccessful =>
        error := NextFailed;
      case Threw =>
        error := NextThrew;
      }
      loading := false;
    }

    /** `[...prev, userMessage, assistantMessage]`: one more exchange in the transcript. */
    method AppendExchange(prompt: string, reply: string)
      requires messageHistory == Flatten(exchanges)
      modifies this`messageHistory, this`exchanges
      ensures messageHistory == old(messageHistory) + [Turn(User, prompt), Turn(Assistant, reply)]
      ensures exchanges == old(exchanges) + [Exchange(prompt, reply)]
      ensures messageHistory == Flatten(exchanges)
    {
      FlattenAppend(exchanges, Exchange(prompt, reply));
      messageHistory := messageHistory + [Turn(User, prompt), Turn(Assistant, reply)];
      exchanges := exchanges + [Exchange(prompt, reply)];
    }

    /**
     * `resetQuiz`: back to setup with an empty transcript and no results;
     * the chosen category and difficulty are kept.
     */
    method ResetQuiz()
      requires Valid()
      modifies this`quizState, this`messageHistory, this`exchanges, this`currentQuestion, this`selectedAnswer, this`feedbackData, this`finalResults, this`error
      ensures Valid()
      ensures quizState == Setup && messageHistory == [] && exchanges == []
      ensures currentQuestion == None && selectedAnswer == ""
      ensures feedbackData == None && finalResults == None && error == ""
    {
      quizState := Setup;
      messageHistory := [];
      exchanges := [];
      currentQuestion := None;
      selectedAnswer := "";
      feedbackData := None;
      finalResults := None;
      error := "";
    }
  }
}
