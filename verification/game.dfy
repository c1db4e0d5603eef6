/** The guessing game: a secret line y = a x + b with integer coefficients is
    drawn at random, two of its points are shown, and the player guesses
    `a` and `b`.

    Randomness is supplied from outside: every draw is the integer
    floor(r * k) for a random r in [0, 1), so it lies in [0, k). */
module PuzzleGame {
  import opened Wrappers
  import opened Geometry

  /** Secret coefficients, the points shown to the player, and the score. */
  datatype GameState = GameState(secretA: int, secretB: int, points: seq<Point>, score: int)

  /** Game state before the first round is generated: no points yet. */
  const InitialGame := GameState(1, 2, [], 0)

  /** `p` satisfies y = a x + b exactly. */
  predicate OnLine(p: Point, a: int, b: int)
  {
    p.y == LineAt(a as real, b as real, p.x)
  }

  /** What every generated round satisfies. */
  predicate ValidRound(g: GameState)
  {
    && -4 <= g.secretA <= 4 && g.secretA != 0
    && -3 <= g.secretB <= 3
    && |g.points| == 2
    && g.points[0].x in {-1.0, 0.0, 1.0}
    && g.points[1].x in {-2.0, -1.0, 0.0, 1.0}
    && g.points[0].x != g.points[1].x
    && OnLine(g.points[0], g.secretA, g.secretB)
    && OnLine(g.points[1], g.secretA, g.secretB)
  }

  // ---------------------------------------------------------------------
  // Puzzle generator

  /** Secret slope from a draw in [0, 9): the draw shifted to [-4, 4], with
      0 replaced by 1. */
  function SlopeFromDraw(d: int): (a: int)
    requires 0 <= d < 9
    ensures -4 <= a <= 4 && a != 0
  {
    var a := d - 4;
    if a == 0 then 1 else a
  }

  /** Secret intercept from a draw in [0, 7). */
  function InterceptFromDraw(d: int): (b: int)
    requires 0 <= d < 7
    ensures -3 <= b <= 3
  {
    d - 3
  }

  /** First point's x from a draw in [0, 3). */
  function FirstXFromDraw(d: int): (x: int)
    requires 0 <= d < 3
    ensures x in {-1, 0, 1}
  {
    d - 1
  }

  /** Second point's x from a draw in [0, 4). */
  function SecondXFromDraw(d: int): (x: int)
    requires 0 <= d < 4
    ensures x in {-2, -1, 0, 1}
  {
    d - 2
  }

  /** Every admissible slope, and no other, can come out of the generator. */
  lemma SlopeRange(a: int)
    ensures (exists d :: 0 <= d < 9 && SlopeFromDraw(d) == a) <==> (-4 <= a <= 4 && a != 0)
  {
    if -4 <= a <= 4 && a != 0 {
      assert SlopeFromDraw(a + 4) == a;
    }
  }

  /** The draws in [0, 9) that produce slope `a`. */
  function SlopeDraws(a: int): set<int>
  {
    set d | 0 <= d < 9 && SlopeFromDraw(d) == a
  }

  /** The replacement of 0 by 1 makes slope 1 come from two draws out of
      nine, while every other slope comes from exactly one. */
  lemma SlopeOneIsTwiceAsLikely()
    ensures SlopeDraws(1) == {4, 5}
    ensures forall a :: -4 <= a <= 4 && a != 0 && a != 1 ==> SlopeDraws(a) == {a + 4}
  {
    forall a | -4 <= a <= 4 && a != 0 && a != 1
      ensures SlopeDraws(a) == {a + 4}
    {
      assert a + 4 in SlopeDraws(a);
    }
    assert 4 in SlopeDraws(1) && 5 in SlopeDraws(1);
  }

  /** Every intercept in [-3, 3], and no other, can come out of the
      generator. */
  lemma InterceptRange(b: int)
    ensures (exists d :: 0 <= d < 7 && InterceptFromDraw(d) == b) <==> -3 <= b <= 3
  {
    if -3 <= b <= 3 {
      assert InterceptFromDraw(b + 3) == b;
    }
  }

  /** Each of -1, 0 and 1, and nothing else, can be the first x. */
  lemma FirstXRange(x: int)
    ensures (exists d :: 0 <= d < 3 && FirstXFromDraw(d) == x) <==> x in {-1, 0, 1}
  {
    if x in {-1, 0, 1} {
      assert FirstXFromDraw(x + 1) == x;
    }
  }

  /** Each of -2, -1, 0 and 1, and nothing else, can be a drawn second x. */
  lemma SecondXRange(x: int)
    ensures (exists d :: 0 <= d < 4 && SecondXFromDraw(d) == x) <==> x in {-2, -1, 0, 1}
  {
    if x in {-2, -1, 0, 1} {
      assert SecondXFromDraw(x + 2) == x;
    }
  }

  predicate DrawsBelow(draws: seq<int>, k: int)
  {
    forall i :: 0 <= i < |draws| ==> 0 <= draws[i] < k
  }

  /** The redraw loop for the second x, as a function of the successive draws
      it would consume: the first drawn x that differs from `x1`, or `None`
      when every supplied draw repeats `x1` (the loop has not exited yet). */
  function FirstDistinct(x1: int, draws: seq<int>): (r: Option<int>)
    requires DrawsBelow(draws, 4)
    ensures r.None? <==> forall i :: 0 <= i < |draws| ==> SecondXFromDraw(draws[i]) == x1
    ensures r.Some? ==> r.value != x1 && r.value in {-2, -1, 0, 1}
    ensures r.Some? ==> exists k :: 0 <= k < |draws| && r.value == SecondXFromDraw(draws[k]) &&
                                    forall j :: 0 <= j < k ==> SecondXFromDraw(draws[j]) == x1
    decreases |draws|
  {
    if |draws| == 0 then None
    else if SecondXFromDraw(draws[0]) != x1 then Some(SecondXFromDraw(draws[0]))
    else
      var r := FirstDistinct(x1, draws[1..]);
      assert forall i :: 1 <= i < |draws| ==> draws[i] == draws[1..][i - 1];
      assert r.Some? ==> exists k :: 0 <= k < |draws| && r.value == SecondXFromDraw(draws[k]) &&
                                     forall j :: 0 <= j < k ==> SecondXFromDraw(draws[j]) == x1 by {
        if r.Some? {
          var k :| 0 <= k < |draws[1..]| && r.value == SecondXFromDraw(draws[1..][k]) &&
                   forall j :: 0 <= j < k ==> SecondXFromDraw(draws[1..][j]) == x1;
          assert r.value == SecondXFromDraw(draws[k + 1]);
          forall j | 0 <= j < k + 1
            ensures SecondXFromDraw(draws[j]) == x1
          {
            if j > 0 {
              assert draws[j] == draws[1..][j - 1];
            }
          }
        }
      }
      r
  }

  /** The redraw loop itself: draw, and draw again while the result equals
      `x1`.  It returns the first differing draw, which is what
      `FirstDistinct` describes, and says how many draws it consumed. */
  method RedrawSecondX(x1: int, draws: seq<int>) returns (x2: Option<int>, used: nat)
    requires DrawsBelow(draws, 4)
    ensures x2 == FirstDistinct(x1, draws)
    ensures used <= |draws|
    ensures forall j :: 0 <= j < used - 1 ==> SecondXFromDraw(draws[j]) == x1
    ensures x2.Some? ==> 0 < used && x2.value == SecondXFromDraw(draws[used - 1])
  {
    var i := 0;
    while i < |draws| && SecondXFromDraw(draws[i]) == x1
      invariant 0 <= i <= |draws|
      invariant forall j :: 0 <= j < i ==> SecondXFromDraw(draws[j]) == x1
      invariant FirstDistinct(x1, draws) == FirstDistinct(x1, draws[i..])
    {
      assert draws[i..][1..] == draws[i + 1..];
      i := i + 1;
    }
    if i < |draws| {
      x2 := Some(SecondXFromDraw(draws[i]));
      used := i + 1;
    } else {
      x2 := None;
      used := i;
    }
  }

  /** The round for secret y = a x + b shown through the points at `x1` and
      `x2`, whose y-values are computed exactly from the line. */
  function RoundThrough(a: int, b: int, x1: int, x2: int, score: int): (g: GameState)
    requires -4 <= a <= 4 && a != 0 && -3 <= b <= 3
    requires x1 in {-1, 0, 1} && x2 in {-2, -1, 0, 1} && x1 != x2
    ensures ValidRound(g)
    ensures g.secretA == a && g.secretB == b && g.score == score
    ensures g.points[0].x == x1 as real && g.points[1].x == x2 as real
  {
    var y1 := a * x1 + b;
    var y2 := a * x2 + b;
    GameState(a, b, [Point(x1 as real, y1 as real), Point(x2 as real, y2 as real)], score)
  }

  /** A fresh round from the draws for slope, intercept, first x, and the
      sequence of draws for the second x.  The score is carried over.  The
      result is `None` exactly when the redraw loop has not exited within
      the supplied draws. */
  function NewRound(g: GameState, dA: int, dB: int, dX1: int, dX2s: seq<int>): (r: Option<GameState>)
    requires 0 <= dA < 9 && 0 <= dB < 7 && 0 <= dX1 < 3 && DrawsBelow(dX2s, 4)
    ensures r.None? <==> forall i :: 0 <= i < |dX2s| ==> SecondXFromDraw(dX2s[i]) == FirstXFromDraw(dX1)
    ensures r.Some? ==> ValidRound(r.value)
    ensures r.Some? ==> r.value.score == g.score
    ensures r.Some? ==> r.value.secretA == SlopeFromDraw(dA) && r.value.secretB == InterceptFromDraw(dB)
    ensures r.Some? ==> r.value.points[0].x == FirstXFromDraw(dX1) as real
    ensures r.Some? ==> (FirstDistinct(FirstXFromDraw(dX1), dX2s).Some? &&
                         r.value.points[1].x == FirstDistinct(FirstXFromDraw(dX1), dX2s).value as real)
  {
    var a := SlopeFromDraw(dA);
    var b := InterceptFromDraw(dB);
    var x1 := FirstXFromDraw(dX1);
    var second := FirstDistinct(x1, dX2s);
    match second
    case None => None
    case Some(x2) => Some(RoundThrough(a, b, x1, x2, g.score))
  }

  /** The two shown points determine the secret: any line with integer
      coefficients through both of them is the secret line. */
  lemma RoundDeterminesSecret(g: GameState, a: int, b: int)
    requires ValidRound(g)
    requires OnLine(g.points[0], a, b) && OnLine(g.points[1], a, b)
    ensures a == g.secretA && b == g.secretB
  {
    var p, q := g.points[0], g.points[1];
    var da := (a - g.secretA) as real;
    assert da * p.x == da * q.x;
    assert da * (p.x - q.x) == 0.0;
    assert a == g.secretA;
  }

  /** With the canvas at least 80 pixels wide (so x = -2 is visible), both
      points of a round are drawn on the faint segment of the secret line. */
  lemma RoundPointsOnDrawnLine(c: Canvas, g: GameState, i: int)
    requires ValidRound(g) && 0 <= i < 2
    requires c.width >= 80.0
    ensures OnSegment(ToPixel(c, g.points[i]), LineSegment(c, g.secretA as real, g.secretB as real))
  {
    PointOnLineIsOnSegment(c, g.secretA as real, g.secretB as real, g.points[i]);
  }

  /** Draws 6, 4 and 0, then 3 for the second x, give y = 2x + 1 shown
      through (-1, -1) and (1, 3). */
  lemma ExampleRound(g: GameState)
    ensures NewRound(g, 6, 4, 0, [3]) == Some(GameState(2, 1, [Point(-1.0, -1.0), Point(1.0, 3.0)], g.score))
  {
    assert FirstDistinct(-1, [3]) == Some(1);
  }

  // ---------------------------------------------------------------------
  // Guess evaluator

  /** Hint shown when no reply is available from the hint service. */
  const FallbackHint: string := "Gợi ý: Hãy kiểm tra lại cách tính hệ số góc 'a' và điểm cắt trục tung 'b'."

  datatype Verdict = InvalidInput | Correct | Incorrect(hint: string)

  datatype Checked = Checked(verdict: Verdict, game: GameState)

  /** Evaluates a guess.  A field that does not parse as a number is
      `None`; `reply` is the text of the hint service, `None` when the
      service is not configured or its call failed. */
  function CheckAnswer(g: GameState, guessA: Option<real>, guessB: Option<real>, reply: Option<string>): (r: Checked)
    ensures r.verdict == InvalidInput <==> guessA.None? || guessB.None?
    ensures r.verdict == Correct <==> guessA == Some(g.secretA as real) && guessB == Some(g.secretB as real)
    ensures r.verdict == Correct ==> r.game == g.(score := g.score + 10)
    ensures r.verdict != Correct ==> r.game == g
    ensures r.verdict.Incorrect? && reply.Some? ==> r.verdict.hint == reply.value
    ensures r.verdict.Incorrect? && reply.None? ==> r.verdict.hint == FallbackHint
  {
    if guessA.None? || guessB.None? then
      Checked(InvalidInput, g)
    else if guessA.value == g.secretA as real && guessB.value == g.secretB as real then
      Checked(Correct, g.(score := g.score + 10))
    else
      Checked(Incorrect(reply.GetOr(FallbackHint)), g)
  }

  /** Checking a guess never touches the round, and moves the score by
      exactly 10 or not at all. */
  lemma CheckKeepsRound(g: GameState, guessA: Option<real>, guessB: Option<real>, reply: Option<string>)
    ensures var h := CheckAnswer(g, guessA, guessB, reply).game;
      && h.secretA == g.secretA && h.secretB == g.secretB && h.points == g.points
      && (h.score == g.score || h.score == g.score + 10)
      && (ValidRound(g) ==> ValidRound(h))
  {
  }

  /** Guessing the secret is always accepted. */
  lemma SecretGuessIsCorrect(g: GameState, reply: Option<string>)
    ensures CheckAnswer(g, Some(g.secretA as real), Some(g.secretB as real), reply).verdict == Correct
  {
  }

  /** Getting one coefficient wrong is enough to be refused, and the hint
      is the service's reply or the fallback text. */
  lemma WrongCoefficientIsIncorrect(g: GameState, ga: real, gb: real, reply: Option<string>)
    requires ga != g.secretA as real || gb != g.secretB as real
    ensures CheckAnswer(g, Some(ga), Some(gb), reply) == Checked(Incorrect(reply.GetOr(FallbackHint)), g)
  {
  }

  /** Nothing stops a correct guess from being submitted again: each repeat
      scores another 10 points on the same round. */
  lemma CorrectGuessRepeatsScore(g: GameState, r1: Option<string>, r2: Option<string>)
    ensures var once := CheckAnswer(g, Some(g.secretA as real), Some(g.secretB as real), r1).game;
      CheckAnswer(once, Some(g.secretA as real), Some(g.secretB as real), r2).game.score == g.score + 20
  {
  }
}
