/** The sweep-completion test of the capture progress listener: the engine's progress on
    each axis, a fraction of the field of view, is turned into degrees with the camera's view
    angle on that axis and compared with the sweep limit. Real numbers stand for the
    source's floats; rounding is not modelled. */
module Sweep {

  /** `DEFAULT_SWEEP_ANGLE`, in degrees. */
  const SWEEP_LIMIT: real := 160.0

  function Abs(x: real): (r: real)
    ensures r >= 0.0 && (r == x || r == -x)
  {
    if x < 0.0 then -x else x
  }

  /** The accumulated angle on one axis, in degrees. */
  function Degrees(progress: real, viewAngle: real): real {
    progress * viewAngle
  }

  /** The condition under which the progress listener decides the sweep is complete. */
  predicate SweepComplete(isFinished: bool, progressX: real, progressY: real,
                          horizontalViewAngle: real, verticalViewAngle: real)
  {
    || isFinished
    || Abs(Degrees(progressX, horizontalViewAngle)) >= SWEEP_LIMIT
    || Abs(Degrees(progressY, verticalViewAngle)) >= SWEEP_LIMIT
  }

  /** |x * y| = |x| * |y|. */
  lemma AbsOfProduct(x: real, y: real)
    ensures Abs(x * y) == Abs(x) * Abs(y)
  {
    if x < 0.0 {
      assert x * y == -((-x) * y);
    }
    if y < 0.0 {
      assert x * y == -(x * (-y));
    }
  }

  /** The sign of the progress does not matter, on either axis and independently: a sweep
      to the left counts exactly like a sweep to the right. */
  lemma SignSymmetric(isFinished: bool, progressX: real, progressY: real, h: real, v: real)
    ensures SweepComplete(isFinished, -progressX, progressY, h, v) == SweepComplete(isFinished, progressX, progressY, h, v)
    ensures SweepComplete(isFinished, progressX, -progressY, h, v) == SweepComplete(isFinished, progressX, progressY, h, v)
  {
    AbsOfProduct(progressX, h);
    AbsOfProduct(-progressX, h);
    AbsOfProduct(progressY, v);
    AbsOfProduct(-progressY, v);
  }

  /** Once a sweep counts as complete, more progress on either axis does not undo that. */
  lemma Monotone(isFinished: bool, progressX: real, progressY: real,
                 progressX': real, progressY': real, h: real, v: real)
    requires Abs(progressX) <= Abs(progressX') && Abs(progressY) <= Abs(progressY')
    requires SweepComplete(isFinished, progressX, progressY, h, v)
    ensures SweepComplete(isFinished, progressX', progressY', h, v)
  {
    AxisMonotone(progressX, progressX', h);
    AxisMonotone(progressY, progressY', v);
  }

  /** More progress on an axis means at least as many degrees on it. */
  lemma AxisMonotone(progress: real, progress': real, viewAngle: real)
    requires Abs(progress) <= Abs(progress')
    ensures Abs(Degrees(progress, viewAngle)) <= Abs(Degrees(progress', viewAngle))
  {
    var a, b, c := Abs(progress), Abs(progress'), Abs(viewAngle);
    AbsOfProduct(progress, viewAngle);
    AbsOfProduct(progress', viewAngle);
    MultiplyMonotone(a, b, c);
    calc {
      Abs(Degrees(progress, viewAngle));
      Abs(progress * viewAngle);
      a * c;
    <= b * c;
      Abs(progress' * viewAngle);
      Abs(Degrees(progress', viewAngle));
    }
  }

  lemma MultiplyMonotone(a: real, b: real, c: real)
    requires 0.0 <= a <= b && c >= 0.0
    ensures a * c <= b * c
  {
    assert b * c - a * c == (b - a) * c;
  }

  /** A camera whose view angles are both below the sweep limit can never have swept far
      enough while the progress stays within one field of view on each axis: then only the
      engine's `isFinished` flag completes the sweep. */
  lemma NarrowViewNeedsFinish(isFinished: bool, progressX: real, progressY: real, h: real, v: real)
    requires Abs(progressX) <= 1.0 && Abs(progressY) <= 1.0
    requires Abs(h) < SWEEP_LIMIT && Abs(v) < SWEEP_LIMIT
    ensures SweepComplete(isFinished, progressX, progressY, h, v) <==> isFinished
  {
    AxisMonotone(progressX, 1.0, h);
    AxisMonotone(progressY, 1.0, v);
    assert Degrees(1.0, h) == h && Degrees(1.0, v) == v;
  }

  /** Ten samples with horizontal progress k / 10 and a 60 degree horizontal view, no vertical
      progress, and `isFinished` only on the tenth: the sweep is complete at sample k exactly
      when k is 10, so no stop is decided before the last sample. */
  lemma LinearSweepStopsAtLastSample(k: int, v: real)
    requires 1 <= k <= 10
    ensures SweepComplete(k == 10, k as real / 10.0, 0.0, 60.0, v) <==> k == 10
  {
    assert Degrees(0.0, v) == 0.0;
    assert Degrees(k as real / 10.0, 60.0) == 6.0 * k as real;
  }
}
