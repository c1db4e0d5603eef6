/** The whole page as one state record and the user events that change it:
    slider input on the experiment tab, tab switches, the two game buttons,
    and the quiz buttons.  Drawing, text output and styling are left out;
    only state changes are modelled. */
module App {
  import opened Wrappers
  import opened PuzzleGame
  import Quiz

  datatype Tab = ExperimentTab | GameTab | QuizTab

  /** Slider values of the experiment, the tab on screen, the game and the
      quiz. */
  datatype AppState = AppState(a: real, b: real, activeTab: Tab, game: GameState, quiz: Quiz.QuizState)

  /** The state when the page script starts, before initialisation. */
  const InitialState := AppState(1.0, 0.0, ExperimentTab, InitialGame, Quiz.InitialQuiz)

  /** A user action, carrying whatever the environment supplied with it:
      slider values, parsed guesses and the hint service's reply, or the
      random draws of a new round. */
  datatype Event =
    | SlidersMoved(a: real, b: real)
    | TabClicked(tab: Tab)
    | NewGameClicked(dA: int, dB: int, dX1: int, dX2s: seq<int>)
    | CheckClicked(guessA: Option<real>, guessB: Option<real>, reply: Option<string>)
    | OptionClicked(option: string)
    | NextClicked

  /** Random draws lie in the ranges `Math.random` can produce. */
  predicate WellFormedEvent(e: Event)
  {
    e.NewGameClicked? ==>
      0 <= e.dA < 9 && 0 <= e.dB < 7 && 0 <= e.dX1 < 3 && DrawsBelow(e.dX2s, 4)
  }

  /** The state after one event; `None` when a new round's redraw loop does
      not exit within the supplied draws.  Each event hands its own part of
      the state to the matching handler and touches nothing else, and
      neither score ever goes down. */
  function Step(s: AppState, e: Event): (r: Option<AppState>)
    requires Quiz.Valid(s.quiz) && WellFormedEvent(e)
    ensures r.None? <==> e.NewGameClicked? && NewRound(s.game, e.dA, e.dB, e.dX1, e.dX2s).None?
    ensures r.Some? ==> Quiz.Valid(r.value.quiz) && r.value.quiz.questions == s.quiz.questions
    ensures r.Some? ==> s.game.score <= r.value.game.score && s.quiz.score <= r.value.quiz.score
    ensures r.Some? && !e.SlidersMoved? ==> r.value.a == s.a && r.value.b == s.b
    ensures r.Some? && !e.TabClicked? ==> r.value.activeTab == s.activeTab
    ensures r.Some? && !(e.NewGameClicked? || e.CheckClicked?) ==> r.value.game == s.game
    ensures r.Some? && (e.SlidersMoved? || e.NewGameClicked? || e.CheckClicked?) ==> r.value.quiz == s.quiz
    ensures r.Some? && e.TabClicked? && e.tab != QuizTab ==> r.value == s.(activeTab := e.tab)
    ensures r.Some? && e.TabClicked? && e.tab == QuizTab ==>
      r.value == s.(activeTab := QuizTab, quiz := s.quiz.(answered := false))
    ensures r.Some? && e.SlidersMoved? ==> r.value.a == e.a && r.value.b == e.b
    ensures r.Some? && e.NewGameClicked? ==> NewRound(s.game, e.dA, e.dB, e.dX1, e.dX2s) == Some(r.value.game)
    ensures r.Some? && e.CheckClicked? ==> r.value.game == CheckAnswer(s.game, e.guessA, e.guessB, e.reply).game
    ensures r.Some? && e.OptionClicked? ==> r.value.quiz == Quiz.Answer(s.quiz, e.option).quiz
    ensures r.Some? && e.NextClicked? ==> r.value.quiz == Quiz.Advance(s.quiz)
  {
    match e
    case SlidersMoved(a, b) => Some(s.(a := a, b := b))
    case TabClicked(tab) =>
      var quiz := if tab == QuizTab then Quiz.Load(s.quiz) else s.quiz;
      Some(s.(activeTab := tab, quiz := quiz))
    case NewGameClicked(dA, dB, dX1, dX2s) =>
      (match NewRound(s.game, dA, dB, dX1, dX2s)
       case None => None
       case Some(g) => Some(s.(game := g)))
    case CheckClicked(guessA, guessB, reply) =>
      Some(s.(game := CheckAnswer(s.game, guessA, guessB, reply).game))
    case OptionClicked(option) =>
      Some(s.(quiz := Quiz.Answer(s.quiz, option).quiz))
    case NextClicked =>
      Some(s.(quiz := Quiz.Advance(s.quiz)))
  }

  predicate WellFormedEvents(es: seq<Event>)
  {
    forall i :: 0 <= i < |es| ==> WellFormedEvent(es[i])
  }

  /** The state after a sequence of events, `None` if some new round ran out
      of draws. */
  function RunEvents(s: AppState, es: seq<Event>): (r: Option<AppState>)
    requires Quiz.Valid(s.quiz) && WellFormedEvents(es)
    ensures r.Some? ==> Quiz.Valid(r.value.quiz) && r.value.quiz.questions == s.quiz.questions
    ensures r.Some? ==> s.game.score <= r.value.game.score && s.quiz.score <= r.value.quiz.score
    decreases |es|
  {
    if |es| == 0 then Some(s)
    else
      match Step(s, es[0])
      case None => None
      case Some(s') =>
        assert WellFormedEvents(es[1..]) by {
          forall i | 0 <= i < |es[1..]|
            ensures WellFormedEvent(es[1..][i])
          {
            assert es[1..][i] == es[i + 1];
          }
        }
        RunEvents(s', es[1..])
  }

  /** The page after start-up: the experiment tab is shown and the first
      round is generated from the draws; the sliders keep a = 1, b = 0 and
      the quiz is untouched. */
  function Initialize(dA: int, dB: int, dX1: int, dX2s: seq<int>): (r: Option<AppState>)
    requires 0 <= dA < 9 && 0 <= dB < 7 && 0 <= dX1 < 3 && DrawsBelow(dX2s, 4)
    ensures r.Some? ==> Ready(r.value)
    ensures r.Some? ==> r.value.activeTab == ExperimentTab && r.value.game.score == 0 && r.value.quiz == Quiz.InitialQuiz
    ensures r.None? <==> forall i :: 0 <= i < |dX2s| ==> SecondXFromDraw(dX2s[i]) == FirstXFromDraw(dX1)
    ensures r.Some? ==> NewRound(InitialGame, dA, dB, dX1, dX2s) == Some(r.value.game)
    ensures r.Some? ==> r.value == InitialState.(game := r.value.game)
  {
    match Step(InitialState, TabClicked(ExperimentTab))
    case None => None
    case Some(s) => Step(s, NewGameClicked(dA, dB, dX1, dX2s))
  }

  /** What holds of the page once initialised: a valid quiz over the fixed
      bank, a valid round, and scores that are non-negative multiples
      of 10. */
  predicate Ready(s: AppState)
  {
    && Quiz.Valid(s.quiz) && s.quiz.questions == Quiz.Bank
    && ValidRound(s.game)
    && 0 <= s.game.score && s.game.score % 10 == 0
    && 0 <= s.quiz.score && s.quiz.score % 10 == 0
  }

  lemma StepKeepsReady(s: AppState, e: Event)
    requires Ready(s) && WellFormedEvent(e)
    ensures Step(s, e).Some? ==> Ready(Step(s, e).value)
  {
    if e.CheckClicked? {
      CheckKeepsRound(s.game, e.guessA, e.guessB, e.reply);
    }
  }

  /** Whatever the user does after start-up, the page stays ready. */
  lemma {:induction false} RunKeepsReady(s: AppState, es: seq<Event>)
    requires Ready(s) && WellFormedEvents(es)
    ensures RunEvents(s, es).Some? ==> Ready(RunEvents(s, es).value)
    decreases |es|
  {
    if |es| > 0 {
      StepKeepsReady(s, es[0]);
      var r := Step(s, es[0]);
      if r.Some? {
        assert WellFormedEvents(es[1..]) by {
          forall i | 0 <= i < |es[1..]|
            ensures WellFormedEvent(es[1..][i])
          {
            assert es[1..][i] == es[i + 1];
          }
        }
        RunKeepsReady(r.value, es[1..]);
      }
    }
  }

  /** Leaving the quiz tab and coming back re-opens the question on screen:
      the same correct answer then scores a second time. */
  lemma RevisitingQuizTabRescores(s: AppState, other: Tab)
    requires Quiz.Valid(s.quiz) && !s.quiz.answered
    ensures var c := s.quiz.questions[s.quiz.index].correctAnswer;
      var r := RunEvents(s, [OptionClicked(c), TabClicked(other), TabClicked(QuizTab), OptionClicked(c)]);
      r.Some? && r.value.quiz.index == s.quiz.index && r.value.quiz.score == s.quiz.score + 20
  {
    var c := s.quiz.questions[s.quiz.index].correctAnswer;
    var es := [OptionClicked(c), TabClicked(other), TabClicked(QuizTab), OptionClicked(c)];
    var s1 := Step(s, es[0]).value;
    var s2 := Step(s1, es[1]).value;
    var s3 := Step(s2, es[2]).value;
    var s4 := Step(s3, es[3]).value;
    // s1 earns 10 points and closes the question, s2 leaves the quiz tab,
    // s3 re-opens the same question on showing the tab, and s4 earns the
    // second 10 points.
    assert es[1..] == [es[1], es[2], es[3]];
    assert es[1..][1..] == [es[2], es[3]];
    assert es[1..][1..][1..] == [es[3]];
    assert RunEvents(s3, [es[3]]) == Some(s4);
    assert RunEvents(s2, [es[2], es[3]]) == RunEvents(s3, [es[3]]);
    assert RunEvents(s1, [es[1], es[2], es[3]]) == RunEvents(s2, [es[2], es[3]]);
    assert RunEvents(s, es) == RunEvents(s1, [es[1], es[2], es[3]]);
  }
}
