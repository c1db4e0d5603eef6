# Linear-function teaching page: a Dafny model of its state logic

The page teaches y = a x + b with three tabs. On the **experiment** tab, sliders set `a` and `b`. The line is drawn and a hint says whether the line rises, falls or is horizontal. On the **game** tab, a secret line with integer coefficients is drawn at random and two of its points are plotted. The player guesses `a` and `b` and earns 10 points for an exact match. A wrong guess gets a hint from an external text service, or a fixed fallback hint. On the **quiz** tab, four fixed multiple-choice questions are worth 10 points each.

The model keeps the state record of the page and every change made to it. Rendering, DOM updates and the hint service are left out. The arithmetic that places points and lines on the canvas is kept.

| file | module | contents |
|---|---|---|
| `wrappers.dfy` | `Wrappers` | `Option` |
| `geometry.dfy` | `Geometry` | math-to-pixel mapping, the stroked line segment |
| `experiment.dfy` | `Experiment` | slope classification and what it means |
| `game.dfy` | `PuzzleGame` | round generator, the redraw loop, guess evaluation |
| `quiz.dfy` | `Quiz` | question bank, answer / next / reload transitions |
| `app.dfy` | `App` | the whole page state, one transition per user event, start-up |

Modelling choices:

- Numbers are exact `real`s. Game coefficients and x-coordinates are `int`s, because the generator only produces integers.
- Each random draw is passed in as the integer `floor(Math.random() * k)`, so it lies in `[0, k)`.
- The redraw loop for the second x-coordinate reads a supplied sequence of draws. When every supplied draw repeats the first x, the result is `None`, meaning the loop has not exited yet.
- A guess field that `parseFloat` turns into NaN is `None`.
- The hint service's answer is a parameter `reply: Option<string>`. `None` covers both a missing API key and a failed call, because the code treats them the same: it shows the fallback text.

Behaviour kept as the code has it, where a reader might expect otherwise:

- **Showing the quiz tab re-opens the current question.** Showing the quiz tab calls the question loader, and the loader clears the `answered` flag (index.tsx:234, 410-413, 351-352). A reader might expect a tab switch to leave the quiz alone, and `answered` to be cleared only when moving to the next question. Neither holds. This also happens when the quiz tab is clicked while it is already on screen: the click handler calls the same tab switch (index.tsx:424, 219, 234), and `App.Step` models it. A question can earn its 10 points again after the player leaves the tab and comes back. `Quiz.ShowTabRescoresQuestion` and `App.RevisitingQuizTabRescores` prove this. `Quiz.ScoreBoundWithoutShowTab` proves the 10-points-per-question bound when the tab is not revisited.
- **A correct game guess can be submitted again.** The game has no "answered" flag, so each repeat earns another 10 points (`PuzzleGame.CorrectGuessRepeatsScore`).
- **The "next question" button returns nothing.** At the last question it does nothing (`Quiz.AdvanceAtLastIsNoop`).
- **The game starts with no points.** Before start-up generates the first round, the state has `points: []`. The round invariant `ValidRound` holds from `App.Initialize` onwards.
- **The fallback hint is the Vietnamese text of the code** (`PuzzleGame.FallbackHint`).

## Model

| member | source | states |
|---|---|---|
| Geometry.ToPixel | index.tsx:201-203 | a point is placed at origin + x·20 pixels right and y·20 pixels up (pixel rows grow downwards); reading the pixel back gives the point again |
| Geometry.PixelRoundTrip | index.tsx:202-203 | every pixel is the image of exactly one mathematical point |
| Geometry.ToPixelOrientation | index.tsx:202-203 | left-to-right order is kept and higher points get smaller pixel rows |
| Geometry.LineSegment | index.tsx:184-191 | the stroked segment runs from pixel x = 0 to pixel x = width, and its ends are the pixel images of the line's points at the leftmost and rightmost visible x |
| Geometry.PointOnLineIsOnSegment | index.tsx:184-203 | any point of y = a x + b inside the visible x-range is drawn on the stroked segment of that line |
| Experiment.IncreasingMeansRising | index.tsx:247-248 | the "rising" hint is shown exactly when the line rises everywhere from left to right |
| Experiment.DecreasingMeansFalling | index.tsx:249-250 | the "falling" hint is shown exactly when the line falls everywhere from left to right |
| Experiment.ConstantMeansFlat | index.tsx:251-252 | the "parallel to the x-axis" hint is shown exactly when the line is horizontal |
| Experiment.ClassifyMatchesDrawnSegment | index.tsx:184-253 | on a canvas of positive width, the hint agrees with the drawn segment: right end higher, lower or level |
| PuzzleGame.SlopeFromDraw | index.tsx:267-268 | the secret slope is an integer in [-4, 4] and never 0 |
| PuzzleGame.SlopeRange | index.tsx:267-268 | the slopes the generator can produce are exactly the non-zero integers in [-4, 4] |
| PuzzleGame.SlopeOneIsTwiceAsLikely | index.tsx:267-268 | because 0 is replaced by 1, slope 1 comes from two of the nine draws and every other slope from exactly one |
| PuzzleGame.InterceptFromDraw | index.tsx:270 | the secret intercept is an integer in [-3, 3] |
| PuzzleGame.InterceptRange | index.tsx:270 | the intercepts the generator can produce are exactly the integers in [-3, 3] |
| PuzzleGame.FirstXFromDraw | index.tsx:273 | the first x is -1, 0 or 1 |
| PuzzleGame.SecondXFromDraw | index.tsx:274 | each drawn second x is -2, -1, 0 or 1 |
| PuzzleGame.FirstXRange | index.tsx:273 | each of -1, 0 and 1, and no other value, comes out as the first x for some draw |
| PuzzleGame.SecondXRange | index.tsx:274 | each of -2, -1, 0 and 1, and no other value, comes out as a drawn second x for some draw |
| PuzzleGame.FirstDistinct | index.tsx:274-277 | the redraw loop yields a value exactly when some draw differs from the first x; that value is in {-2, -1, 0, 1}, differs from the first x, and is the first draw that does |
| PuzzleGame.RedrawSecondX | index.tsx:274-277 | the loop agrees with `FirstDistinct`; all draws it skipped repeated the first x, and the last draw it consumed is the result |
| PuzzleGame.RoundThrough | index.tsx:279-282 | the round built from an allowed secret and two distinct allowed x-coordinates is valid: both points lie exactly on the secret line, with the given x's, secret and score |
| PuzzleGame.NewRound | index.tsx:265-282 | a new round exists exactly when the redraw loop exits; it has an allowed secret, exactly two points with distinct allowed x-coordinates, both exactly on the secret line, and it keeps the score; the secret and the first x come from their draws and the second x is the value the redraw loop exits with |
| PuzzleGame.ExampleRound | index.tsx:265-282 | draws 6, 4, 0 and 3 give y = 2x + 1 through (-1, -1) and (1, 3) |
| PuzzleGame.RoundDeterminesSecret | index.tsx:279-282 | the two shown points pin down the secret: no other integer line passes through both |
| PuzzleGame.RoundPointsOnDrawnLine | index.tsx:292-296 | on a canvas at least 80 pixels wide, both plotted points lie on the faint segment of the secret line |
| PuzzleGame.CheckAnswer | index.tsx:301-346 | a missing number is invalid input; a guess equal to both secret coefficients is correct and adds 10 points; anything else is incorrect, changes nothing and carries the service's reply or the fallback hint |
| PuzzleGame.CheckKeepsRound | index.tsx:305-346 | a check never changes the secret or the points, keeps a valid round valid, and moves the score by 0 or 10 |
| PuzzleGame.SecretGuessIsCorrect | index.tsx:311-317 | guessing the secret coefficients is always correct |
| PuzzleGame.WrongCoefficientIsIncorrect | index.tsx:318-345 | one wrong coefficient makes the guess incorrect with no state change |
| PuzzleGame.CorrectGuessRepeatsScore | index.tsx:311-313 | re-submitting a correct guess scores again: two checks add 20 points |
| Quiz.BankIsWellFormed | index.tsx:60-81 | the bank has four questions, each with at least two distinct options, one of which is the correct answer |
| Quiz.Load | index.tsx:351-353 | loading opens the current question (not answered) and keeps index, score and bank |
| Quiz.Answer | index.tsx:368-400 | a click on an answered question changes nothing; otherwise the question becomes answered, 10 points are added exactly when the choice equals the correct answer, the correct answer is reported, and "finished" is reported exactly at the last question |
| Quiz.Advance | index.tsx:403-408 | below the last index the index goes up by one and the next question opens; at the last index nothing changes; the index stays inside the bank |
| Quiz.AnswerTwiceIsNoop | index.tsx:369 | a second click on the same question changes nothing |
| Quiz.LoadReopensQuestion | index.tsx:351-352 | loading after an answer gives back the open question, and only the earned points remain |
| Quiz.AdvanceAtLastIsNoop | index.tsx:404 | at the last question "next" does nothing |
| Quiz.Apply | index.tsx:351-413 | any quiz action keeps the index inside the bank, never moves it back, and adds 0 or 10 points |
| Quiz.Run | index.tsx:351-413 | after any sequence of quiz actions the index is inside the bank and the score has grown by a multiple of 10, at most 10 per action |
| Quiz.ScoreBoundWithoutShowTab | index.tsx:368-408 | if the quiz tab is not shown again, the score never exceeds 10 per question reached |
| Quiz.ShowTabRescoresQuestion | index.tsx:410-413 | answer, show the tab again, answer again: the first question has earned 20 points |
| App.Step | index.tsx:219-413 | slider input sets `a` and `b`; a new game installs the round `NewRound` produces; a check applies `CheckAnswer`; an option click applies `Quiz.Answer`; "next" applies `Quiz.Advance`; a tab click sets the tab and, for the quiz tab, re-opens the current question; each event changes nothing else; neither score decreases; a new game fails only when its redraw loop has not exited |
| App.RunEvents | index.tsx:418-431 | any sequence of events keeps the quiz index inside the bank and never lowers either score |
| App.Initialize | index.tsx:418-435 | start-up shows the experiment tab and installs the round `NewRound` produces from the draws; everything else keeps its initial value (a = 1, b = 0, zero scores, the quiz at its first, unanswered question); the result is a ready page |
| App.StepKeepsReady | index.tsx:24-86 | every event preserves the page invariant: valid round, quiz index inside the fixed bank, scores non-negative multiples of 10 |
| App.RunKeepsReady | index.tsx:24-86 | the page invariant holds after any sequence of events following start-up |
| App.RevisitingQuizTabRescores | index.tsx:232-234 | answering correctly, leaving the quiz tab and coming back lets the same question score again |

## Left out

- Drawing: clearing the canvas, the grid and axes loops, stroke colours, dots and labels. Only the coordinate arithmetic is modelled.
- DOM work: element lookups, event listener registration, theme classes, and the feedback and score texts. These have no effect on the state record.
- Button visibility and disabling: the page hides "next" until an answer is given (index.tsx:358, 397) and disables the options after one (index.tsx:394). This decides which clicks can happen. The model accepts `NextClicked` and `OptionClicked` at any time. That is a sound over-approximation: every reachable run of the page is a run of the model. The quiz step's own guard (an answered question ignores clicks) is modelled.
- The hint service request (prompt text, model name, asynchronous call, error logging). The model takes its reply as an input.
- A stale hint reply that arrives after the round has changed is not modelled: the model treats the request as finished at once.
- `Math.random`: draws are inputs. The distribution of the draws is not modelled, only which draws give which values.
- Floating-point behaviour: `parseFloat`, `toFixed` and the divisions in the pixel math are exact reals here. No rounding is modelled.
- The slider values are taken as reals. The sliders always give numeric text, so the NaN case of `parseFloat` does not arise there.
- The canvas size comes from the page markup, which is not part of this model. `Canvas` is a parameter. `PuzzleGame.RoundPointsOnDrawnLine` assumes a width of at least 80 pixels.
- The quiz explanation field: the type declares it, but no question sets it and nothing reads it.
- PuzzleGame.FirstDistinct: the model stops at the end of the supplied draws. The source would keep drawing; it exits with probability 1, and that probability is not modelled.
