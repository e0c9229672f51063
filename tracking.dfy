/**
 * The shot tracker of `detect_shots`, as pure functions.
 *
 * OpenCV's output is the input here: each frame is the list of contours
 * `findContours` returned, each reduced to its bounding rectangle and its
 * area. The tracker keeps two memos, the previous centroid and the previous
 * speed, and reports a shot at the current centroid when the speed changes
 * by strictly more than a threshold. `np.sqrt` is the parameter `sqrt`.
 *
 * `Feed` is the tracker as the source runs it, contour by contour.
 * `Centroids` and `WindowEvents` are an independent description over the
 * list of qualifying centroids (a sliding window of three), and
 * `FeedFromInitial` proves the two agree.
 */
module Tracking {
  import opened Wrappers

  datatype Point = Point(x: int, y: int)

  /** One contour: its bounding rectangle and its area. */
  datatype Contour = Contour(x: int, y: int, w: int, h: int, area: real)

  /** Contours whose area is not above this are ignored. */
  const MinArea: real := 100.0

  /** The source's `velocity_change_threshold`. */
  const VelocityChangeThreshold: real := 20000.0

  predicate Qualifies(c: Contour) {
    c.area > MinArea
  }

  /** The integer centre of the bounding rectangle, `(x + w // 2, y + h // 2)`. */
  function Centroid(c: Contour): (p: Point)
    ensures 2 * (p.x - c.x) <= c.w < 2 * (p.x - c.x) + 2
    ensures 2 * (p.y - c.y) <= c.h < 2 * (p.y - c.y) + 2
    ensures 0 <= c.w ==> c.x <= p.x <= c.x + c.w
    ensures 0 <= c.h ==> c.y <= p.y <= c.y + c.h
  {
    // Dafny's `/` by a positive divisor rounds down, as Python's `//` does.
    Point(c.x + c.w / 2, c.y + c.h / 2)
  }

  function Square(n: int): nat {
    n * n
  }

  /** `dx**2 + dy**2`. */
  function SquaredLength(dx: int, dy: int): nat {
    Square(dx) + Square(dy)
  }

  /** `np.sqrt(dx**2 + dy**2)`: it sees only the squared length. */
  function Speed(sqrt: nat -> real, dx: int, dy: int): real {
    sqrt(SquaredLength(dx, dy))
  }

  /** The speed of the move from centroid a to centroid b. */
  function SpeedBetween(sqrt: nat -> real, a: Point, b: Point): real {
    Speed(sqrt, b.x - a.x, b.y - a.y)
  }

  /** `np.sqrt` never returns a negative number. */
  ghost predicate NeverNegative(sqrt: nat -> real) {
    forall q: nat :: 0.0 <= sqrt(q)
  }

  /**
   * What `np.sqrt` promises for the non-negative integers it is given here:
   * it is never negative, and it is exact on perfect squares.
   */
  ghost predicate IsSquareRoot(sqrt: nat -> real) {
    && NeverNegative(sqrt)
    && (forall r: nat :: sqrt(Square(r)) == r as real)
  }

  /** The integer square root, rounded down, searched upwards from r. */
  function FloorSqrtFrom(n: nat, r: nat): (s: nat)
    requires r * r <= n
    ensures s * s <= n < (s + 1) * (s + 1)
    decreases n - r
  {
    if n < (r + 1) * (r + 1) then r
    else
      assert r < n by { assert (r + 1) * (r + 1) == (r + 1) * r + (r + 1); }
      FloorSqrtFrom(n, r + 1)
  }

  lemma SquareMonotone(a: nat, b: nat)
    requires a <= b
    ensures a * a <= b * b
  {
    assert a * a <= a * b;
  }

  /** Only r lies between its own square and the next one. */
  lemma {:induction false} FloorSqrtOfSquare(r: nat, s: nat)
    requires s * s <= r * r < (s + 1) * (s + 1)
    ensures s == r
  {
    if s < r {
      SquareMonotone(s + 1, r);
    } else if r < s {
      SquareMonotone(r + 1, s);
    }
  }

  /** The floor square root meets `IsSquareRoot`, so the lemmas that assume it are about a real function. */
  lemma FloorSqrtIsSquareRoot()
    ensures IsSquareRoot((n: nat) => FloorSqrtFrom(n, 0) as real)
  {
    var f := (n: nat) => FloorSqrtFrom(n, 0) as real;
    forall r: nat ensures f(Square(r)) == r as real {
      FloorSqrtOfSquare(r, FloorSqrtFrom(Square(r), 0));
    }
  }

  /** A move of d pixels along one axis has speed |d|. */
  lemma AxisSpeed(sqrt: nat -> real, d: int)
    requires IsSquareRoot(sqrt)
    ensures Speed(sqrt, d, 0) == (if d < 0 then -d else d) as real
    ensures Speed(sqrt, 0, d) == (if d < 0 then -d else d) as real
  {
    var r: nat := if d < 0 then -d else d;
    assert Square(d) == Square(r);
    assert SquaredLength(d, 0) == Square(r) == SquaredLength(0, d);
  }

  /** Displacements of equal squared length have equal speed. */
  lemma EqualDisplacementEqualSpeed(sqrt: nat -> real, dx: int, dy: int, dx': int, dy': int)
    requires dx * dx + dy * dy == dx' * dx' + dy' * dy'
    ensures Speed(sqrt, dx, dy) == Speed(sqrt, dx', dy')
  {
  }

  function Abs(r: real): real {
    if r < 0.0 then -r else r
  }

  // ---------------------------------------------------------------------
  // The tracker as the source runs it
  // ---------------------------------------------------------------------

  /** The two memos `prev_center` and `prev_velocity`. */
  datatype TrackState = TrackState(prevCenter: Option<Point>, prevVelocity: Option<real>)

  /** Both memos are `None` when `detect_shots` starts. */
  const Initial := TrackState(None, None)

  /** The memos after one contour, and the position sent for it, if any. */
  datatype Step = Step(next: TrackState, event: Option<Point>)

  /** The memos after a list of contours, and the positions sent, in order. */
  datatype Run = Run(next: TrackState, events: seq<Point>)

  /** The body of the loop over contours, for one contour. */
  function Observe(st: TrackState, c: Contour, threshold: real, sqrt: nat -> real): Step
  {
    if !Qualifies(c) then Step(st, None)
    else
      var center := Centroid(c);
      match st.prevCenter
      case None => Step(TrackState(Some(center), st.prevVelocity), None)
      case Some(prev) =>
        var velocity := SpeedBetween(sqrt, prev, center);
        var event :=
          if st.prevVelocity.Some? && Abs(velocity - st.prevVelocity.value) > threshold
          then Some(center) else None;
        Step(TrackState(Some(center), Some(velocity)), event)
  }

  function EventSeq(e: Option<Point>): seq<Point> {
    if e.Some? then [e.value] else []
  }

  /** The contours fed to the tracker one after another, from memos st. */
  function Feed(st: TrackState, cs: seq<Contour>, threshold: real, sqrt: nat -> real): Run
    decreases |cs|
  {
    if |cs| == 0 then Run(st, [])
    else
      var before := Feed(st, cs[..|cs| - 1], threshold, sqrt);
      var step := Observe(before.next, cs[|cs| - 1], threshold, sqrt);
      Run(step.next, before.events + EventSeq(step.event))
  }

  // ---------------------------------------------------------------------
  // The reference description: a sliding window over qualifying centroids
  // ---------------------------------------------------------------------

  /** The centroids of the qualifying contours, in list order. */
  function Centroids(cs: seq<Contour>): (q: seq<Point>)
    ensures |q| <= |cs|
    decreases |cs|
  {
    if |cs| == 0 then []
    else
      var c := cs[|cs| - 1];
      Centroids(cs[..|cs| - 1]) + (if Qualifies(c) then [Centroid(c)] else [])
  }

  /** Moving a -> b -> c changes speed by strictly more than the threshold. */
  predicate Fires(a: Point, b: Point, c: Point, threshold: real, sqrt: nat -> real) {
    Abs(SpeedBetween(sqrt, b, c) - SpeedBetween(sqrt, a, b)) > threshold
  }

  /** Each centroid from the third on where the window of three ending there fires. */
  function WindowEvents(q: seq<Point>, threshold: real, sqrt: nat -> real): (es: seq<Point>)
    ensures |q| < 3 ==> es == []
    ensures |es| <= if |q| < 3 then 0 else |q| - 2
    decreases |q|
  {
    if |q| < 3 then []
    else
      var n := |q|;
      WindowEvents(q[..n - 1], threshold, sqrt)
        + (if Fires(q[n - 3], q[n - 2], q[n - 1], threshold, sqrt) then [q[n - 1]] else [])
  }

  /** The memos after the qualifying centroids q, starting from `Initial`. */
  function Memo(q: seq<Point>, sqrt: nat -> real): TrackState {
    TrackState(
      if |q| == 0 then None else Some(q[|q| - 1]),
      if |q| < 2 then None else Some(SpeedBetween(sqrt, q[|q| - 2], q[|q| - 1])))
  }

  // ---------------------------------------------------------------------
  // Properties
  // ---------------------------------------------------------------------

  /** A contour with area at most 100 changes neither memo and sends nothing. */
  lemma SmallContourIgnored(st: TrackState, c: Contour, threshold: real, sqrt: nat -> real)
    requires c.area <= MinArea
    ensures Observe(st, c, threshold, sqrt) == Step(st, None)
  {
  }

  /** One contour sends iff it qualifies, both memos are set, and the speed change exceeds the threshold strictly. */
  lemma SendsIff(st: TrackState, c: Contour, threshold: real, sqrt: nat -> real)
    ensures var s := Observe(st, c, threshold, sqrt);
            (s.event.Some? <==>
              Qualifies(c) && st.prevCenter.Some? && st.prevVelocity.Some?
              && Abs(SpeedBetween(sqrt, st.prevCenter.value, Centroid(c)) - st.prevVelocity.value) > threshold)
            && (s.event.Some? ==> s.event.value == Centroid(c))
  {
  }

  /** One qualifying contour moves the memos along by its centroid. */
  lemma ObserveMemo(q: seq<Point>, c: Contour, threshold: real, sqrt: nat -> real)
    requires Qualifies(c)
    ensures var p := Centroid(c);
            var fires := |q| >= 2 && Fires(q[|q| - 2], q[|q| - 1], p, threshold, sqrt);
            Observe(Memo(q, sqrt), c, threshold, sqrt)
              == Step(Memo(q + [p], sqrt), if fires then Some(p) else None)
  {
    var p := Centroid(c);
    assert (q + [p])[|q|] == p;
    if |q| > 0 {
      assert (q + [p])[|q| - 1] == q[|q| - 1];
    }
  }

  /** The window description gains at most the new centroid. */
  lemma WindowEventsSnoc(q: seq<Point>, p: Point, threshold: real, sqrt: nat -> real)
    ensures var fires := |q| >= 2 && Fires(q[|q| - 2], q[|q| - 1], p, threshold, sqrt);
            WindowEvents(q + [p], threshold, sqrt)
              == WindowEvents(q, threshold, sqrt) + (if fires then [p] else [])
  {
    var q1 := q + [p];
    assert q1[..|q1| - 1] == q;
    if |q| >= 2 {
      assert q1[|q1| - 3] == q[|q| - 2] && q1[|q1| - 2] == q[|q| - 1];
    }
  }

  /** Fed from `Initial`, the tracker computes exactly the sliding-window description. */
  lemma {:induction false} FeedFromInitial(cs: seq<Contour>, threshold: real, sqrt: nat -> real)
    ensures Feed(Initial, cs, threshold, sqrt)
         == Run(Memo(Centroids(cs), sqrt), WindowEvents(Centroids(cs), threshold, sqrt))
    decreases |cs|
  {
    if |cs| > 0 {
      var init := cs[..|cs| - 1];
      var c := cs[|cs| - 1];
      var q' := Centroids(init);
      FeedFromInitial(init, threshold, sqrt);
      var before := Feed(Initial, init, threshold, sqrt);
      assert before.next == Memo(q', sqrt);
      if Qualifies(c) {
        assert Centroids(cs) == q' + [Centroid(c)];
        ObserveMemo(q', c, threshold, sqrt);
        WindowEventsSnoc(q', Centroid(c), threshold, sqrt);
      } else {
        assert Centroids(cs) == q';
      }
    }
  }

  /** No position is sent before the third qualifying centroid; the first two only fill the memos. */
  lemma WarmUp(cs: seq<Contour>, threshold: real, sqrt: nat -> real)
    requires |Centroids(cs)| < 3
    ensures var r := Feed(Initial, cs, threshold, sqrt);
            var q := Centroids(cs);
            r.events == []
            && (|q| == 0 ==> r.next == Initial)
            && (|q| == 1 ==> r.next == TrackState(Some(q[0]), None))
            && (|q| == 2 ==> r.next == TrackState(Some(q[1]), Some(SpeedBetween(sqrt, q[0], q[1]))))
  {
    FeedFromInitial(cs, threshold, sqrt);
  }

  lemma {:induction false} WindowEventsAreLater(q: seq<Point>, threshold: real, sqrt: nat -> real)
    ensures forall e :: e in WindowEvents(q, threshold, sqrt) ==> e in q[2..]
    decreases |q|
  {
    if |q| >= 3 {
      var n := |q|;
      var q' := q[..n - 1];
      WindowEventsAreLater(q', threshold, sqrt);
      var last := if Fires(q[n - 3], q[n - 2], q[n - 1], threshold, sqrt) then [q[n - 1]] else [];
      assert WindowEvents(q, threshold, sqrt) == WindowEvents(q', threshold, sqrt) + last;
      assert q[2..] == q'[2..] + [q[n - 1]];
    }
  }

  /** Every position sent is the centroid of a qualifying contour from the third on. */
  lemma EventsAreLaterCentroids(cs: seq<Contour>, threshold: real, sqrt: nat -> real)
    ensures var r := Feed(Initial, cs, threshold, sqrt);
            var q := Centroids(cs);
            |r.events| <= (if |q| < 3 then 0 else |q| - 2)
            && forall e :: e in r.events ==> e in q[2..]
  {
    FeedFromInitial(cs, threshold, sqrt);
    WindowEventsAreLater(Centroids(cs), threshold, sqrt);
  }

  /** Adding one contour sends its centroid exactly when the last three qualifying centroids fire. */
  lemma {:induction false} NextContourSends(cs: seq<Contour>, c: Contour, threshold: real, sqrt: nat -> real)
    ensures var q := Centroids(cs);
            var before := Feed(Initial, cs, threshold, sqrt).events;
            var after := Feed(Initial, cs + [c], threshold, sqrt).events;
            var fires := Qualifies(c) && |q| >= 2
                         && Fires(q[|q| - 2], q[|q| - 1], Centroid(c), threshold, sqrt);
            after == before + (if fires then [Centroid(c)] else [])
  {
    var q := Centroids(cs);
    assert (cs + [c])[..|cs|] == cs;
    assert (cs + [c])[|cs|] == c;
    FeedFromInitial(cs, threshold, sqrt);
    if Qualifies(c) {
      ObserveMemo(q, c, threshold, sqrt);
    } else {
      SmallContourIgnored(Memo(q, sqrt), c, threshold, sqrt);
    }
  }

  /** Feeding a + b is feeding a, then b from where a left the memos. */
  lemma {:induction false} FeedAppend(st: TrackState, a: seq<Contour>, b: seq<Contour>, threshold: real, sqrt: nat -> real)
    ensures var ra := Feed(st, a, threshold, sqrt);
            var rb := Feed(ra.next, b, threshold, sqrt);
            Feed(st, a + b, threshold, sqrt) == Run(rb.next, ra.events + rb.events)
    decreases |b|
  {
    var ra := Feed(st, a, threshold, sqrt);
    if |b| == 0 {
      assert a + b == a;
    } else {
      var b' := b[..|b| - 1];
      var c := b[|b| - 1];
      var rb' := Feed(ra.next, b', threshold, sqrt);
      var step := Observe(rb'.next, c, threshold, sqrt);
      var tail := EventSeq(step.event);
      calc {
        Feed(st, a + b, threshold, sqrt);
      == { assert a + b == (a + b') + [c]; }
        Feed(st, (a + b') + [c], threshold, sqrt);
      == { FeedAppend(st, a, b', threshold, sqrt); FeedSnoc(st, a + b', c, threshold, sqrt); }
        Run(step.next, (ra.events + rb'.events) + tail);
      == { assert (ra.events + rb'.events) + tail == ra.events + (rb'.events + tail); }
        Run(step.next, ra.events + (rb'.events + tail));
      == { assert b == b' + [c]; FeedSnoc(ra.next, b', c, threshold, sqrt); }
        Run(Feed(ra.next, b, threshold, sqrt).next, ra.events + Feed(ra.next, b, threshold, sqrt).events);
      }
    }
  }

  /** One more contour is one more `Observe` after the run so far. */
  lemma FeedSnoc(st: TrackState, cs: seq<Contour>, c: Contour, threshold: real, sqrt: nat -> real)
    ensures var before := Feed(st, cs, threshold, sqrt);
            var step := Observe(before.next, c, threshold, sqrt);
            Feed(st, cs + [c], threshold, sqrt) == Run(step.next, before.events + EventSeq(step.event))
  {
    assert (cs + [c])[..|cs|] == cs;
    assert (cs + [c])[|cs|] == c;
  }

  /**
   * After a frame, `prev_center` is the last qualifying centroid and
   * `prev_velocity` the speed from the centroid before it (which may be the
   * one remembered from earlier frames) to it.
   */
  lemma {:induction false} FeedMemos(st: TrackState, cs: seq<Contour>, threshold: real, sqrt: nat -> real)
    ensures var q := Centroids(cs);
            var r := Feed(st, cs, threshold, sqrt).next;
            (|q| == 0 ==> r == st)
            && (|q| > 0 ==> r.prevCenter == Some(q[|q| - 1]))
            && (|q| >= 2 ==> r.prevVelocity == Some(SpeedBetween(sqrt, q[|q| - 2], q[|q| - 1])))
            && (|q| == 1 ==>
                  r.prevVelocity ==
                    if st.prevCenter.Some? then Some(SpeedBetween(sqrt, st.prevCenter.value, q[0]))
                    else st.prevVelocity)
    decreases |cs|
  {
    if |cs| > 0 {
      var init := cs[..|cs| - 1];
      var c := cs[|cs| - 1];
      FeedMemos(st, init, threshold, sqrt);
      if Qualifies(c) {
        var q := Centroids(cs);
        assert q == Centroids(init) + [Centroid(c)];
      }
    }
  }

  /** `prev_velocity`, once set, is a result of `np.sqrt` and so never negative. */
  lemma {:induction false} FeedVelocityNonNegative(st: TrackState, cs: seq<Contour>, threshold: real, sqrt: nat -> real)
    requires NeverNegative(sqrt)
    requires st.prevVelocity.Some? ==> st.prevVelocity.value >= 0.0
    ensures var r := Feed(st, cs, threshold, sqrt).next;
            r.prevVelocity.Some? ==> r.prevVelocity.value >= 0.0
    decreases |cs|
  {
    if |cs| > 0 {
      FeedVelocityNonNegative(st, cs[..|cs| - 1], threshold, sqrt);
    }
  }

  /** Every step between consecutive points is the same displacement (dx, dy). */
  predicate SteadyMotion(q: seq<Point>, dx: int, dy: int) {
    forall k :: 1 <= k < |q| ==> q[k].x - q[k - 1].x == dx && q[k].y - q[k - 1].y == dy
  }

  lemma {:induction false} SteadyWindowNeverFires(q: seq<Point>, dx: int, dy: int, threshold: real, sqrt: nat -> real)
    requires threshold >= 0.0
    requires SteadyMotion(q, dx, dy)
    ensures WindowEvents(q, threshold, sqrt) == []
    decreases |q|
  {
    if |q| >= 3 {
      var n := |q|;
      var q' := q[..n - 1];
      assert SteadyMotion(q', dx, dy) by {
        forall k | 1 <= k < |q'| ensures q'[k].x - q'[k - 1].x == dx && q'[k].y - q'[k - 1].y == dy {
          assert q'[k] == q[k] && q'[k - 1] == q[k - 1];
        }
      }
      SteadyWindowNeverFires(q', dx, dy, threshold, sqrt);
      assert SpeedBetween(sqrt, q[n - 3], q[n - 2]) == Speed(sqrt, dx, dy);
      assert SpeedBetween(sqrt, q[n - 2], q[n - 1]) == Speed(sqrt, dx, dy);
    }
  }

  /** Qualifying centroids moving by a constant (dx, dy) never send, for any threshold >= 0. */
  lemma SteadyMotionNeverSends(cs: seq<Contour>, dx: int, dy: int, threshold: real, sqrt: nat -> real)
    requires threshold >= 0.0
    requires SteadyMotion(Centroids(cs), dx, dy)
    ensures Feed(Initial, cs, threshold, sqrt).events == []
  {
    FeedFromInitial(cs, threshold, sqrt);
    SteadyWindowNeverFires(Centroids(cs), dx, dy, threshold, sqrt);
  }

  /** A centroid that did not move has speed 0. */
  lemma StillSpeed(sqrt: nat -> real, p: Point)
    requires IsSquareRoot(sqrt)
    ensures SpeedBetween(sqrt, p, p) == 0.0
  {
    assert p.x - p.x == 0 && p.y - p.y == 0;
    assert SquaredLength(0, 0) == Square(0);
    assert sqrt(Square(0)) == 0 as real;
  }

  /** Three centroids send the third exactly when their one window fires. */
  lemma WindowEventsOfThree(a: Point, b: Point, c: Point, threshold: real, sqrt: nat -> real)
    ensures WindowEvents([a, b, c], threshold, sqrt) == if Fires(a, b, c, threshold, sqrt) then [c] else []
  {
    assert [a, b, c][..2] == [a, b];
  }

  /**
   * A marker that stood still (speed 0) and then moves d pixels along x
   * fires as soon as |d| exceeds the threshold.
   */
  lemma StartFromRestFires(sqrt: nat -> real, a: Point, c: Point, threshold: real)
    requires IsSquareRoot(sqrt)
    requires c.y == a.y
    requires (if c.x < a.x then a.x - c.x else c.x - a.x) as real > threshold
    ensures WindowEvents([a, a, c], threshold, sqrt) == [c]
  {
    assert Fires(a, a, c, threshold, sqrt) by {
      StillSpeed(sqrt, a);
      AxisSpeed(sqrt, c.x - a.x);
      assert SpeedBetween(sqrt, a, c) == Speed(sqrt, c.x - a.x, 0);
    }
    WindowEventsOfThree(a, a, c, threshold, sqrt);
  }

  /** The three contours of the stop-then-move scenario, one per frame. */
  function StopThenMoveContours(): seq<Contour> {
    [Contour(90, 90, 20, 20, 400.0), Contour(90, 90, 20, 20, 400.0), Contour(140, 90, 20, 20, 400.0)]
  }

  lemma StopThenMoveCentroids()
    ensures Centroids(StopThenMoveContours()) == [Point(100, 100), Point(100, 100), Point(150, 100)]
  {
    var cs := StopThenMoveContours();
    assert cs[..2][..1] == [cs[0]];
    assert Centroids(cs[..2][..1]) == [Point(100, 100)];
    assert Centroids(cs[..2]) == [Point(100, 100), Point(100, 100)];
  }

  /**
   * Centroids (100,100), (100,100), (150,100) with threshold 0: the speed goes
   * from 0 to 50, so exactly one position is sent, (150,100).
   */
  lemma StopThenMoveSendsOnce(sqrt: nat -> real)
    requires IsSquareRoot(sqrt)
    ensures Feed(Initial, StopThenMoveContours(), 0.0, sqrt).events == [Point(150, 100)]
  {
    var cs := StopThenMoveContours();
    StopThenMoveCentroids();
    StartFromRestFires(sqrt, Point(100, 100), Point(150, 100), 0.0);
    FeedFromInitial(cs, 0.0, sqrt);
  }
}
