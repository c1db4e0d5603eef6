/** The experiment view: the slope of y = a x + b decides which of three
    hints is shown (rising, falling, or parallel to the x-axis). */
module Experiment {
  import opened Geometry

  datatype Trend = Increasing | Decreasing | Constant

  /** The hint chosen by the experiment view, by the sign of `a`. */
  function Classify(a: real): Trend
  {
    if a > 0.0 then Increasing
    else if a < 0.0 then Decreasing
    else Constant
  }

  ghost predicate Rising(a: real, b: real)
  {
    forall x, x' :: x < x' ==> LineAt(a, b, x) < LineAt(a, b, x')
  }

  ghost predicate Falling(a: real, b: real)
  {
    forall x, x' :: x < x' ==> LineAt(a, b, x) > LineAt(a, b, x')
  }

  ghost predicate Flat(a: real, b: real)
  {
    forall x, x' :: LineAt(a, b, x) == LineAt(a, b, x')
  }

  /** "Increasing" is shown exactly for lines that rise from left to right. */
  lemma IncreasingMeansRising(a: real, b: real)
    ensures Classify(a) == Increasing <==> Rising(a, b)
  {
    if a > 0.0 {
      forall x, x' | x < x'
        ensures LineAt(a, b, x) < LineAt(a, b, x')
      {
        assert a * (x' - x) > 0.0;
      }
    } else {
      assert LineAt(a, b, 0.0) >= LineAt(a, b, 1.0);
    }
  }

  /** "Decreasing" is shown exactly for lines that fall from left to right. */
  lemma DecreasingMeansFalling(a: real, b: real)
    ensures Classify(a) == Decreasing <==> Falling(a, b)
  {
    if a < 0.0 {
      forall x, x' | x < x'
        ensures LineAt(a, b, x) > LineAt(a, b, x')
      {
        assert a * (x' - x) < 0.0;
      }
    } else {
      assert LineAt(a, b, 0.0) <= LineAt(a, b, 1.0);
    }
  }

  /** "Constant" is shown exactly for horizontal lines. */
  lemma ConstantMeansFlat(a: real, b: real)
    ensures Classify(a) == Constant <==> Flat(a, b)
  {
    if a != 0.0 {
      assert LineAt(a, b, 0.0) != LineAt(a, b, 1.0);
    }
  }

  /** On a canvas of positive width the classification can be read off the
      drawn segment: its right end is higher on screen (a smaller pixel row)
      for a rising line, lower for a falling one, level for a flat one. */
  lemma ClassifyMatchesDrawnSegment(c: Canvas, a: real, b: real)
    requires c.width > 0.0
    ensures var s := LineSegment(c, a, b);
      && (Classify(a) == Increasing <==> s.end.y < s.start.y)
      && (Classify(a) == Decreasing <==> s.end.y > s.start.y)
      && (Classify(a) == Constant <==> s.end.y == s.start.y)
  {
    var s := LineSegment(c, a, b);
    assert s.end.y - s.start.y == -a * c.width;
    if a > 0.0 {
      assert a * c.width > 0.0;
    } else if a < 0.0 {
      assert a * c.width < 0.0;
    }
  }
}
