/** The multiple-choice quiz: a fixed bank of questions, the index of the
    question on screen, the score, and whether the question on screen has
    been answered. */
module Quiz {

  datatype Question = Question(question: string, options: seq<string>, correctAnswer: string)

  /** The question bank, in the order the quiz presents it. */
  const Bank: seq<Question> := [
    Question("Nếu y = -2x + 3, đồ thị hàm số đi lên hay đi xuống?",
             ["Đi lên (đồng biến)", "Đi xuống (nghịch biến)"],
             "Đi xuống (nghịch biến)"),
    Question("Với hàm số y = ax + b, khi b = 0, đồ thị sẽ luôn đi qua điểm nào?",
             ["(0, 1)", "Gốc tọa độ (0, 0)", "(1, 0)"],
             "Gốc tọa độ (0, 0)"),
    Question("Trong hàm số y = 5x - 1, hệ số góc là bao nhiêu?",
             ["5", "-1", "1"],
             "5"),
    Question("Hai đường thẳng y = 2x + 1 và y = 2x - 3 có vị trí tương đối là gì?",
             ["Cắt nhau", "Song song", "Trùng nhau"],
             "Song song")
  ]

  /** At least two distinct options, one of which is the correct answer. */
  predicate WellFormedQuestion(q: Question)
  {
    && |q.options| >= 2
    && q.correctAnswer in q.options
    && forall i, j :: 0 <= i < j < |q.options| ==> q.options[i] != q.options[j]
  }

  lemma BankIsWellFormed()
    ensures |Bank| == 4
    ensures forall i :: 0 <= i < |Bank| ==> WellFormedQuestion(Bank[i])
  {
    assert WellFormedQuestion(Bank[0]);
    assert WellFormedQuestion(Bank[1]);
    assert WellFormedQuestion(Bank[2]);
    assert WellFormedQuestion(Bank[3]);
  }

  datatype QuizState = QuizState(questions: seq<Question>, index: int, score: int, answered: bool)

  const InitialQuiz := QuizState(Bank, 0, 0, false)

  /** The index names a question of the bank. */
  predicate Valid(q: QuizState)
  {
    0 <= q.index < |q.questions|
  }

  /** The last question has been answered. */
  predicate Finished(q: QuizState)
  {
    q.index == |q.questions| - 1 && q.answered
  }

  /** Puts the current question on screen, open for an answer.  This runs
      when moving to the next question and also every time the quiz tab is
      shown. */
  function Load(q: QuizState): (r: QuizState)
    requires Valid(q)
    ensures Valid(r) && !r.answered
    ensures r.questions == q.questions && r.index == q.index && r.score == q.score
  {
    q.(answered := false)
  }

  /** What the player is told after clicking an option. */
  datatype Feedback =
    | AlreadyAnswered
    | Judged(isCorrect: bool, correctAnswer: string, finished: bool)

  datatype AnswerResult = AnswerResult(feedback: Feedback, quiz: QuizState)

  /** Clicking `selected`.  A question already answered ignores the click;
      otherwise the question becomes answered and a correct choice (exact
      string match) earns 10 points.  The current question is only looked up
      in the second case. */
  function Answer(q: QuizState, selected: string): (r: AnswerResult)
    requires q.answered || Valid(q)
    ensures q.answered ==> r == AnswerResult(AlreadyAnswered, q)
    ensures !q.answered ==> r.feedback.Judged? && r.quiz.answered
    ensures !q.answered ==> r.quiz.questions == q.questions && r.quiz.index == q.index
    ensures !q.answered ==>
      && r.feedback.correctAnswer == q.questions[q.index].correctAnswer
      && (r.feedback.isCorrect <==> selected == q.questions[q.index].correctAnswer)
      && (r.quiz.score == q.score + 10 <==> r.feedback.isCorrect)
      && (r.quiz.score == q.score <==> !r.feedback.isCorrect)
      && (r.feedback.finished <==> Finished(r.quiz))
  {
    if q.answered then
      AnswerResult(AlreadyAnswered, q)
    else
      var current := q.questions[q.index];
      var isCorrect := selected == current.correctAnswer;
      var q' := q.(answered := true, score := if isCorrect then q.score + 10 else q.score);
      AnswerResult(Judged(isCorrect, current.correctAnswer, !(q.index < |q.questions| - 1)), q')
  }

  /** The "next question" button: moves on and opens the next question,
      unless the current one is the last. */
  function Advance(q: QuizState): (r: QuizState)
    requires 0 <= q.index
    ensures q.index < |q.questions| - 1 ==> r.index == q.index + 1 && !r.answered
    ensures q.index >= |q.questions| - 1 ==> r == q
    ensures r.questions == q.questions && r.score == q.score
    ensures Valid(q) ==> Valid(r)
  {
    if q.index < |q.questions| - 1 then
      Load(q.(index := q.index + 1))
    else
      q
  }

  /** A second click on the same question changes nothing. */
  lemma AnswerTwiceIsNoop(q: QuizState, first: string, second: string)
    requires Valid(q)
    ensures var q' := Answer(q, first).quiz;
      Answer(q', second) == AnswerResult(AlreadyAnswered, q')
  {
  }

  /** Loading undoes an answer except for the points it earned: the same
      question is open again. */
  lemma LoadReopensQuestion(q: QuizState, selected: string)
    requires Valid(q)
    ensures var q' := Answer(q, selected).quiz;
      Load(q') == Load(q).(score := q'.score)
  {
  }

  /** At the last question the button does nothing. */
  lemma AdvanceAtLastIsNoop(q: QuizState)
    requires Valid(q) && q.index == |q.questions| - 1
    ensures Advance(q) == q
  {
  }

  /** Everything the player can do to the quiz: click an option, press
      "next question", or switch to the quiz tab (which reloads the current
      question). */
  datatype Action = Choose(option: string) | Next | ShowTab

  function Apply(q: QuizState, act: Action): (r: QuizState)
    requires Valid(q)
    ensures Valid(r) && r.questions == q.questions
    ensures q.index <= r.index
    ensures r.score == q.score || r.score == q.score + 10
  {
    match act
    case Choose(option) => Answer(q, option).quiz
    case Next => Advance(q)
    case ShowTab => Load(q)
  }

  /** The quiz after a sequence of actions. */
  function Run(q: QuizState, acts: seq<Action>): (r: QuizState)
    requires Valid(q)
    ensures Valid(r) && r.questions == q.questions
    ensures q.index <= r.index
    ensures q.score <= r.score <= q.score + 10 * |acts|
    ensures (r.score - q.score) % 10 == 0
    decreases |acts|
  {
    if |acts| == 0 then q else Run(Apply(q, acts[0]), acts[1..])
  }

  /** At most 10 points for each question reached so far, counting the
      current one only once it is answered. */
  predicate ScoreBound(q: QuizState)
  {
    q.score <= 10 * (q.index + if q.answered then 1 else 0)
  }

  predicate NoShowTab(acts: seq<Action>)
  {
    forall i :: 0 <= i < |acts| ==> !acts[i].ShowTab?
  }

  /** Without switching back to the quiz tab, no question is worth more than
      10 points. */
  lemma {:induction false} ScoreBoundWithoutShowTab(q: QuizState, acts: seq<Action>)
    requires Valid(q) && ScoreBound(q) && NoShowTab(acts)
    ensures ScoreBound(Run(q, acts))
    decreases |acts|
  {
    if |acts| > 0 {
      var q' := Apply(q, acts[0]);
      assert ScoreBound(q') by {
        match acts[0]
        case Choose(o) =>
        case Next =>
      }
      assert NoShowTab(acts[1..]) by {
        forall i | 0 <= i < |acts[1..]|
          ensures !acts[1..][i].ShowTab?
        {
          assert acts[1..][i] == acts[i + 1];
        }
      }
      ScoreBoundWithoutShowTab(q', acts[1..]);
    }
  }

  /** Switching to the quiz tab re-opens the question on screen, so the
      first question can be scored twice: the 10-point bound does not hold
      once the tab is revisited. */
  lemma ShowTabRescoresQuestion()
    ensures var c := Bank[0].correctAnswer;
      var q := Run(InitialQuiz, [Choose(c), ShowTab, Choose(c)]);
      q.index == 0 && q.score == 20 && !ScoreBound(q)
  {
    var c := Bank[0].correctAnswer;
    var q1 := Apply(InitialQuiz, Choose(c));
    assert q1 == QuizState(Bank, 0, 10, true);
    var q2 := Apply(q1, ShowTab);
    var q3 := Apply(q2, Choose(c));
    assert q3 == QuizState(Bank, 0, 20, true);
    assert Run(InitialQuiz, [Choose(c), ShowTab, Choose(c)]) == Run(q1, [ShowTab, Choose(c)]);
    assert Run(q1, [ShowTab, Choose(c)]) == Run(q2, [Choose(c)]);
    assert Run(q2, [Choose(c)]) == Run(q3, []);
  }
}
