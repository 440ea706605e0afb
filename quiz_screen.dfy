/**
 * The quiz session of the quiz screen. The screen holds `current`, `score`,
 * `timeLeft` and `selected`; a per-second interval counts the current
 * question down from 15, an answer press or the time running out resolves
 * the question, and a delayed `moveToNext` either shows the next question or
 * ends the session with the score. Each timer callback is an explicit event
 * here; `Phase` stands for what the hooks keep implicitly: whether questions
 * are shown yet, whether the interval runs, whether a `moveToNext` is pending,
 * and whether the session has navigated to the result.
 */
module QuizScreen {
  import opened Wrappers
  import opened QuizService

  /** The seconds each question gets. */
  const QuestionSeconds: int := 15

  datatype Phase =
    | Idle       // questions loaded, the timer effect has not started yet
    | Counting   // the interval runs for question `current`
    | Revealed   // answered or timed out; a `moveToNext` is pending
    | Finished   // navigated to the result screen

  datatype Session = Session(current: nat, score: nat, timeLeft: int, selected: Option<string>, phase: Phase)

  /** The parameters passed to the result screen. */
  datatype Summary = Summary(score: nat, total: nat)

  datatype Event =
    | StartEvent              // the effect that runs `startTimer` once questions are there
    | TickEvent               // one interval callback
    | AnswerEvent(option: string)  // a press on an option
    | AdvanceEvent            // the delayed `moveToNext` fires

  /** The state when the questions have just been loaded. */
  function Initial(): Session {
    Session(0, 0, QuestionSeconds, None, Idle)
  }

  /** JavaScript truthiness of `selected`: null and the empty string are falsy. */
  predicate Truthy(selected: Option<string>) {
    selected.Some? && selected.value != ""
  }

  /** What holds of every session state the screen can reach. */
  predicate Inv(qs: seq<Question>, s: Session) {
    && (s.phase == Idle ==> s == Initial())
    && (s.phase != Idle ==> s.current < |qs|)
    && 0 <= s.timeLeft <= QuestionSeconds
    && s.score <= s.current + (if s.phase == Revealed || s.phase == Finished then 1 else 0)
    && (s.phase == Counting ==> 1 <= s.timeLeft && s.selected == None)
    && (s.selected.Some? ==> s.phase == Revealed)
    && (s.phase == Revealed && s.selected == None ==> s.timeLeft == 0)
    && (s.phase == Finished ==> s.current == |qs| - 1)
  }

  /**
   * The first run of the timer effect: with at least one question,
   * `startTimer` sets the seconds to 15 and installs the interval; without a
   * current question it does nothing.
   */
  function StartRule(qs: seq<Question>, s: Session): (t: Session)
    ensures s.phase == Idle && |qs| > 0 ==> t == s.(timeLeft := QuestionSeconds, phase := Counting)
    ensures !(s.phase == Idle && |qs| > 0) ==> t == s
  {
    if s.phase == Idle && |qs| > 0 then s.(timeLeft := QuestionSeconds, phase := Counting) else s
  }

  /**
   * One interval callback: the seconds drop by one; the callback that sees 1
   * clears the interval and schedules `moveToNext`. Without a running
   * interval nothing happens.
   */
  function TickRule(s: Session): (t: Session)
    ensures s.phase == Counting ==> t.timeLeft == s.timeLeft - 1
    ensures s.phase == Counting ==> (t.phase == Revealed <==> s.timeLeft == 1)
    ensures s.phase == Counting ==> t.phase == Revealed || t.phase == Counting
    ensures t.current == s.current && t.score == s.score && t.selected == s.selected
    ensures s.phase != Counting ==> t == s
  {
    if s.phase != Counting then s
    else if s.timeLeft == 1 then s.(timeLeft := 0, phase := Revealed)
    else s.(timeLeft := s.timeLeft - 1)
  }

  /** Whether `option` is the answer of the question on screen. */
  predicate IsCorrect(qs: seq<Question>, s: Session, option: string)
    requires s.current < |qs|
  {
    option == qs[s.current].answer
  }

  /**
   * `checkAnswer`: the press is recorded, the interval is cleared (so the
   * seconds stay where they are), the score rises by exactly one when the
   * option is the answer, and `moveToNext` is scheduled. A press is accepted
   * only while the question is counting down: once it is answered or timed
   * out, presses are ignored.
   */
  function AnswerRule(qs: seq<Question>, s: Session, option: string): (t: Session)
    ensures s.phase == Counting && s.current < |qs| ==>
      && t.score == s.score + (if IsCorrect(qs, s, option) then 1 else 0)
      && t.selected == Some(option) && t.phase == Revealed
      && t.timeLeft == s.timeLeft && t.current == s.current
    ensures !(s.phase == Counting && s.current < |qs|) ==> t == s
  {
    if s.phase == Counting && s.current < |qs| then
      s.(selected := Some(option), phase := Revealed,
         score := s.score + (if IsCorrect(qs, s, option) then 1 else 0))
    else s
  }

  /**
   * `moveToNext`: `selected` is cleared; with a further question, `current`
   * moves to it and the timer effect restarts the countdown at 15; on the
   * last question the session ends. Without a pending advance nothing
   * happens.
   */
  function AdvanceRule(qs: seq<Question>, s: Session): (t: Session)
    ensures s.phase == Revealed && s.current + 1 < |qs| ==>
      t == Session(s.current + 1, s.score, QuestionSeconds, None, Counting)
    ensures s.phase == Revealed && s.current + 1 >= |qs| ==>
      t == s.(selected := None, phase := Finished)
    ensures s.phase != Revealed ==> t == s
  {
    if s.phase != Revealed then s
    else if s.current + 1 < |qs| then
      s.(current := s.current + 1, timeLeft := QuestionSeconds, selected := None, phase := Counting)
    else s.(selected := None, phase := Finished)
  }

  function Step(qs: seq<Question>, s: Session, e: Event): Session {
    match e
    case StartEvent => StartRule(qs, s)
    case TickEvent => TickRule(s)
    case AnswerEvent(option) => AnswerRule(qs, s, option)
    case AdvanceEvent => AdvanceRule(qs, s)
  }

  /** The state after the events, in order. */
  function Run(qs: seq<Question>, s: Session, events: seq<Event>): Session
    decreases |events|
  {
    if |events| == 0 then s else Run(qs, Step(qs, s, events[0]), events[1..])
  }

  /** Every event keeps the invariant. */
  lemma StepKeepsInv(qs: seq<Question>, s: Session, e: Event)
    requires Inv(qs, s)
    ensures Inv(qs, Step(qs, s, e))
  {
  }

  lemma {:induction false} RunKeepsInv(qs: seq<Question>, s: Session, events: seq<Event>)
    requires Inv(qs, s)
    ensures Inv(qs, Run(qs, s, events))
    decreases |events|
  {
    if |events| > 0 {
      StepKeepsInv(qs, s, events[0]);
      RunKeepsInv(qs, Step(qs, s, events[0]), events[1..]);
    }
  }

  lemma {:induction false} RunAppend(qs: seq<Question>, s: Session, a: seq<Event>, b: seq<Event>)
    ensures Run(qs, s, a + b) == Run(qs, Run(qs, s, a), b)
    decreases |a|
  {
    if |a| > 0 {
      assert (a + b)[0] == a[0];
      assert (a + b)[1..] == a[1..] + b;
      RunAppend(qs, Step(qs, s, a[0]), a[1..], b);
    } else {
      assert a + b == b;
    }
  }

  /** n interval callbacks in a row. */
  function Ticks(n: nat): (es: seq<Event>)
    ensures |es| == n
    ensures forall k :: 0 <= k < n ==> es[k] == TickEvent
  {
    seq(n, k => TickEvent)
  }

  /**
   * On a counting question, fewer ticks than the seconds left lower them by
   * that many; from that number of ticks on, the question has timed out at 0
   * with an advance pending, no answer recorded and the score unchanged.
   */
  lemma {:induction false} CountdownTimesOut(qs: seq<Question>, s: Session, n: nat)
    requires Inv(qs, s) && s.phase == Counting
    ensures Run(qs, s, Ticks(n)) ==
      if n < s.timeLeft then s.(timeLeft := s.timeLeft - n) else s.(timeLeft := 0, phase := Revealed)
    decreases n
  {
    if n > 0 {
      var t := Step(qs, s, TickEvent);
      assert Ticks(n)[1..] == Ticks(n - 1);
      if s.timeLeft == 1 {
        ResolvedIsStable(qs, t, Ticks(n - 1));
      } else {
        CountdownTimesOut(qs, t, n - 1);
      }
    }
  }

  /** Events other than an advance. */
  predicate NoAdvance(events: seq<Event>) {
    forall k :: 0 <= k < |events| ==> !events[k].AdvanceEvent?
  }

  /**
   * Once a question is answered or timed out, nothing but the pending
   * advance changes the session: further presses are ignored and the
   * seconds no longer change. So each question is resolved at most once.
   */
  lemma {:induction false} ResolvedIsStable(qs: seq<Question>, s: Session, events: seq<Event>)
    requires s.phase == Revealed && NoAdvance(events)
    ensures Run(qs, s, events) == s
    decreases |events|
  {
    if |events| > 0 {
      assert !events[0].AdvanceEvent?;
      assert Step(qs, s, events[0]) == s;
      ResolvedIsStable(qs, s, events[1..]);
    }
  }

  /** How far the session has got: the question index, plus one once it has ended. */
  function Progress(s: Session): nat {
    s.current + (if s.phase == Finished then 1 else 0)
  }

  /** Whether e is an advance that takes effect in state s. */
  predicate AdvancesIn(s: Session, e: Event) {
    e.AdvanceEvent? && s.phase == Revealed
  }

  /** The number of advances among the events that take effect. */
  function AcceptedAdvances(qs: seq<Question>, s: Session, events: seq<Event>): nat
    decreases |events|
  {
    if |events| == 0 then 0
    else (if AdvancesIn(s, events[0]) then 1 else 0) + AcceptedAdvances(qs, Step(qs, s, events[0]), events[1..])
  }

  lemma StepProgress(qs: seq<Question>, s: Session, e: Event)
    requires Inv(qs, s)
    ensures Progress(Step(qs, s, e)) == Progress(s) + (if AdvancesIn(s, e) then 1 else 0)
  {
  }

  /** Every advance that takes effect moves the session on by exactly one question. */
  lemma {:induction false} RunProgress(qs: seq<Question>, s: Session, events: seq<Event>)
    requires Inv(qs, s)
    ensures Progress(Run(qs, s, events)) == Progress(s) + AcceptedAdvances(qs, s, events)
    decreases |events|
  {
    if |events| > 0 {
      StepProgress(qs, s, events[0]);
      StepKeepsInv(qs, s, events[0]);
      RunProgress(qs, Step(qs, s, events[0]), events[1..]);
    }
  }

  /**
   * A session that has ended has taken exactly one advance per question,
   * shows the last question, and its score is between 0 and the number of
   * questions.
   */
  lemma FinishedAfterEveryQuestion(qs: seq<Question>, events: seq<Event>)
    requires Run(qs, Initial(), events).phase == Finished
    ensures AcceptedAdvances(qs, Initial(), events) == |qs|
    ensures Run(qs, Initial(), events).current == |qs| - 1
    ensures Run(qs, Initial(), events).score <= |qs|
  {
    RunKeepsInv(qs, Initial(), events);
    RunProgress(qs, Initial(), events);
  }

  /** Whether e is a press on the answer that takes effect in state s. */
  predicate ScoresIn(qs: seq<Question>, s: Session, e: Event) {
    e.AnswerEvent? && s.phase == Counting && s.current < |qs| && IsCorrect(qs, s, e.option)
  }

  /** The number of accepted presses on the right answer among the events. */
  function CorrectPresses(qs: seq<Question>, s: Session, events: seq<Event>): nat
    decreases |events|
  {
    if |events| == 0 then 0
    else (if ScoresIn(qs, s, events[0]) then 1 else 0) + CorrectPresses(qs, Step(qs, s, events[0]), events[1..])
  }

  /** The score counts exactly the accepted presses on the right answer. */
  lemma {:induction false} ScoreCountsCorrectPresses(qs: seq<Question>, s: Session, events: seq<Event>)
    ensures Run(qs, s, events).score == s.score + CorrectPresses(qs, s, events)
    decreases |events|
  {
    if |events| > 0 {
      ScoreCountsCorrectPresses(qs, Step(qs, s, events[0]), events[1..]);
    }
  }

  /** Pressing answers[k] on question k and then advancing, for every k. */
  function Play(answers: seq<string>): (es: seq<Event>)
    ensures |es| == 2 * |answers|
  {
    if |answers| == 0 then [] else [AnswerEvent(answers[0]), AdvanceEvent] + Play(answers[1..])
  }

  /** The number of k with answers[k] the answer of question from + k. */
  function Matches(qs: seq<Question>, from: nat, answers: seq<string>): nat
    requires from + |answers| <= |qs|
    decreases |answers|
  {
    if |answers| == 0 then 0
    else (if answers[0] == qs[from].answer then 1 else 0) + Matches(qs, from + 1, answers[1..])
  }

  /**
   * Answering every remaining question in turn ends the session, with the
   * score raised by the number of right answers.
   */
  lemma {:induction false} PlayThrough(qs: seq<Question>, s: Session, answers: seq<string>)
    requires s.phase == Counting && s.selected == None
    requires |answers| > 0 && s.current + |answers| == |qs|
    ensures var t := Run(qs, s, Play(answers));
      && t.phase == Finished && t.current == |qs| - 1 && t.selected == None
      && t.score == s.score + Matches(qs, s.current, answers)
    decreases |answers|
  {
    var first := [AnswerEvent(answers[0]), AdvanceEvent];
    assert Play(answers) == first + Play(answers[1..]);
    RunAppend(qs, s, first, Play(answers[1..]));
    var t := Run(qs, s, first);
    var answered := AnswerRule(qs, s, answers[0]);
    assert first[1..] == [AdvanceEvent] && [AdvanceEvent][1..] == [];
    assert Run(qs, answered, [AdvanceEvent]) == AdvanceRule(qs, answered);
    assert t == AdvanceRule(qs, answered);
    if |answers| > 1 {
      PlayThrough(qs, t, answers[1..]);
    }
  }

  /**
   * From the loaded state, starting and answering every question ends the
   * session with a score equal to the number of right answers.
   */
  lemma PlayFromStart(qs: seq<Question>, answers: seq<string>)
    requires |answers| == |qs| > 0
    ensures Run(qs, Initial(), [StartEvent] + Play(answers)).phase == Finished
    ensures Run(qs, Initial(), [StartEvent] + Play(answers)).score == Matches(qs, 0, answers)
  {
    RunAppend(qs, Initial(), [StartEvent], Play(answers));
    PlayThrough(qs, StartRule(qs, Initial()), answers);
  }

  /**
   * With a single question, letting the time run out and then taking the
   * pending advance ends the session with no point scored.
   */
  lemma TimeOutEndsWithoutPoint(qs: seq<Question>)
    requires |qs| == 1
    ensures var s := Run(qs, Initial(), [StartEvent] + Ticks(QuestionSeconds) + [AdvanceEvent]);
      s.phase == Finished && s.score == 0 && s.selected == None
  {
    RunAppend(qs, Initial(), [StartEvent], Ticks(QuestionSeconds));
    RunAppend(qs, Initial(), [StartEvent] + Ticks(QuestionSeconds), [AdvanceEvent]);
    CountdownTimesOut(qs, StartRule(qs, Initial()), QuestionSeconds);
    var t := Run(qs, Initial(), [StartEvent] + Ticks(QuestionSeconds));
    assert Run(qs, t, [AdvanceEvent]) == Run(qs, AdvanceRule(qs, t), []);
  }

  /** The press guard as written: a press is taken whenever `selected` is falsy. */
  predicate PressAcceptedAsWritten(s: Session) {
    !Truthy(s.selected)
  }

  /** `checkAnswer` behind the guard as written. */
  function AnswerAsWritten(qs: seq<Question>, s: Session, option: string): (t: Session)
    requires s.current < |qs|
    ensures PressAcceptedAsWritten(s) ==>
      && t.phase == Revealed && t.selected == Some(option) && t.current == s.current
      && t.score == s.score + (if IsCorrect(qs, s, option) then 1 else 0)
    ensures !PressAcceptedAsWritten(s) ==> t == s
  {
    if PressAcceptedAsWritten(s) then
      s.(selected := Some(option), phase := Revealed,
         score := s.score + (if IsCorrect(qs, s, option) then 1 else 0))
    else s
  }

  /**
   * As written, a press on the answer after the first question has timed out
   * (while its advance is pending) is taken: it scores a point for a question
   * whose time ran out and schedules a second `moveToNext`.
   */
  lemma LatePressScoresAsWritten(qs: seq<Question>)
    requires |qs| > 0
    ensures var s := Run(qs, Initial(), [StartEvent] + Ticks(QuestionSeconds));
      && s.phase == Revealed && s.selected == None && s.timeLeft == 0 && s.current == 0
      && AnswerAsWritten(qs, s, qs[0].answer).score == s.score + 1
  {
    RunAppend(qs, Initial(), [StartEvent], Ticks(QuestionSeconds));
    CountdownTimesOut(qs, StartRule(qs, Initial()), QuestionSeconds);
  }

  /** The model: after a time-out, a press on any option, even the answer, is ignored. */
  lemma LatePressIgnored(qs: seq<Question>, option: string)
    requires |qs| > 0
    ensures var s := Run(qs, Initial(), [StartEvent] + Ticks(QuestionSeconds));
      Step(qs, s, AnswerEvent(option)) == s
  {
    RunAppend(qs, Initial(), [StartEvent], Ticks(QuestionSeconds));
    CountdownTimesOut(qs, StartRule(qs, Initial()), QuestionSeconds);
  }

  datatype Style = Neutral | CorrectStyle | WrongStyle | DisabledStyle

  /**
   * `getOptionStyle`: before a (truthy) selection every option is neutral;
   * after one, the answer is marked correct, the chosen wrong option wrong and
   * every other option disabled.
   */
  function OptionStyle(option: string, selected: Option<string>, answer: string): (st: Style)
    ensures !Truthy(selected) ==> st == Neutral
    ensures st == CorrectStyle <==> Truthy(selected) && option == answer
    ensures st == WrongStyle <==> Truthy(selected) && option == selected.value && option != answer
    ensures st == DisabledStyle <==> Truthy(selected) && option != answer && option != selected.value
  {
    if !Truthy(selected) then Neutral
    else if option == answer then CorrectStyle
    else if option == selected.value then WrongStyle
    else DisabledStyle
  }

  /** No option occurs twice. */
  predicate Distinct(options: seq<string>) {
    forall i, j :: 0 <= i < j < |options| ==> options[i] != options[j]
  }

  /**
   * With distinct options that include the answer, after a selection exactly
   * one option is marked correct, and an option is marked wrong only if it is
   * the selected one and the selection was wrong.
   */
  lemma RevealedStyles(options: seq<string>, selected: Option<string>, answer: string)
    requires Distinct(options) && answer in options && Truthy(selected)
    ensures exists i :: 0 <= i < |options| && OptionStyle(options[i], selected, answer) == CorrectStyle
    ensures forall i, j ::
      (0 <= i < |options| && 0 <= j < |options|
       && OptionStyle(options[i], selected, answer) == CorrectStyle
       && OptionStyle(options[j], selected, answer) == CorrectStyle) ==> i == j
    ensures forall i :: 0 <= i < |options| && OptionStyle(options[i], selected, answer) == WrongStyle ==>
      options[i] == selected.value && selected.value != answer
  {
    var i :| 0 <= i < |options| && options[i] == answer;
    assert OptionStyle(options[i], selected, answer) == CorrectStyle;
  }

  /**
   * The screen for one loaded question set. The fields are the state hooks;
   * `phase` stands for the interval, the pending `moveToNext` and the
   * navigation, as in `Session`.
   */
  class QuizSession {
    const questions: seq<Question>
    var current: nat
    var score: nat
    var timeLeft: int
    var selected: Option<string>
    var phase: Phase

    function State(): Session
      reads this
    {
      Session(current, score, timeLeft, selected, phase)
    }

    predicate Valid()
      reads this
    {
      Inv(questions, State())
    }

    /** The screen once `fetchQuizQuestions` has delivered the questions. */
    constructor (questions: seq<Question>)
      ensures this.questions == questions
      ensures State() == Initial() && Valid()
    {
      this.questions := questions;
      current := 0;
      score := 0;
      timeLeft := QuestionSeconds;
      selected := None;
      phase := Idle;
    }

    /** The timer effect's first run (`startTimer`). */
    method Start()
      requires Valid()
      modifies this
      ensures State() == StartRule(questions, old(State())) && Valid()
    {
      if phase == Idle && |questions| > 0 {
        timeLeft := QuestionSeconds;
        phase := Counting;
      }
    }

    /** One interval callback; `timeUp` tells whether it ran the question out of time. */
    method Tick() returns (timeUp: bool)
      requires Valid()
      modifies this
      ensures State() == TickRule(old(State())) && Valid()
      ensures timeUp <==> old(phase) == Counting && old(timeLeft) == 1
    {
      timeUp := false;
      if phase == Counting {
        var prev := timeLeft;
        if prev == 1 {
          phase := Revealed;
          timeUp := true;
        }
        timeLeft := prev - 1;
      }
    }

    /** A press on `option`; `accepted` tells whether `checkAnswer` ran. */
    method Answer(option: string) returns (accepted: bool)
      requires Valid()
      modifies this
      ensures State() == AnswerRule(questions, old(State()), option) && Valid()
      ensures accepted <==> old(phase) == Counting
    {
      accepted := phase == Counting && current < |questions|;
      if accepted {
        selected := Some(option);
        phase := Revealed;
        if option == questions[current].answer {
          score := score + 1;
        }
      }
    }

    /**
     * The pending `moveToNext`; when it ends the session, `summary` holds
     * the parameters passed to the result screen.
     */
    method Advance() returns (summary: Option<Summary>)
      requires Valid()
      modifies this
      ensures State() == AdvanceRule(questions, old(State())) && Valid()
      ensures summary.Some? <==> old(phase) == Revealed && phase == Finished
      ensures summary.Some? ==> summary.value == Summary(score, |questions|) && score <= |questions|
    {
      summary := None;
      if phase == Revealed {
        selected := None;
        if current + 1 < |questions| {
          current := current + 1;
          timeLeft := QuestionSeconds;
          phase := Counting;
        } else {
          phase := Finished;
          summary := Some(Summary(score, |questions|));
        }
      }
    }
  }
}
