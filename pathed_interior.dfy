/**
 * Timing of a moving platform (src/ts/pathed_interior.ts): the length of its
 * path, the internal path time for a given external time, destination legs,
 * and the search for the marker pair that brackets a path time. Positions,
 * rotations and the easing curves are geometry and are not modelled.
 */
module PathedInteriors {
  import opened Common

  /** A JavaScript number as far as this model needs one: a real, or NaN. */
  datatype Number = Num(value: real) | NaN

  datatype Smoothing = Linear | Accelerate | Spline

  /** A path marker: the time to the next marker (ms) and the smoothing of its leg. */
  datatype Marker = Marker(msToNext: real, smoothingType: Smoothing)

  /** The sum of msToNext over markers[..k]. */
  function SumMsToNext(markers: seq<Marker>, k: nat): real
    requires k <= |markers|
  {
    if k == 0 then 0.0 else SumMsToNext(markers, k - 1) + markers[k - 1].msToNext
  }

  /** The length of a path: the msToNext of every marker except the last. */
  function PathDuration(markers: seq<Marker>): real
  {
    if |markers| == 0 then 0.0 else SumMsToNext(markers, |markers| - 1)
  }

  /** A partial sum depends only on the markers it covers. */
  lemma {:induction false} SumMsToNextOfPrefix(markers: seq<Marker>, more: seq<Marker>, k: nat)
    requires k <= |markers|
    ensures SumMsToNext(markers + more, k) == SumMsToNext(markers, k)
  {
    if k > 0 {
      SumMsToNextOfPrefix(markers, more, k - 1);
      assert (markers + more)[k - 1] == markers[k - 1];
    }
  }

  /** The last marker's msToNext never counts: replacing the last marker keeps the duration. */
  lemma PathDurationIgnoresLastMarker(markers: seq<Marker>, last: Marker)
    requires |markers| > 0
    ensures PathDuration(markers[..|markers| - 1] + [last]) == PathDuration(markers)
  {
    var init := markers[..|markers| - 1];
    SumMsToNextOfPrefix(init, [last], |init|);
    SumMsToNextOfPrefix(init, [markers[|markers| - 1]], |init|);
    assert init + [markers[|markers| - 1]] == markers;
  }

  /** Appending a marker adds the leg of the marker that was last. */
  lemma PathDurationOfAppend(markers: seq<Marker>, next: Marker)
    requires |markers| > 0
    ensures PathDuration(markers + [next]) == PathDuration(markers) + markers[|markers| - 1].msToNext
  {
    SumMsToNextOfPrefix(markers, [next], |markers| - 1);
  }

  /** a * b is not negative for non-negative factors. */
  lemma ProductNonNegative(a: real, b: real)
    requires a >= 0.0 && b >= 0.0
    ensures a * b >= 0.0
  {
  }

  /** The sign of a product with a positive factor is the sign of the other factor. */
  lemma ProductSign(a: real, b: real)
    requires b > 0.0
    ensures a > 0.0 ==> a * b > 0.0
    ensures a < 0.0 ==> a * b < 0.0
  {
  }

  /** `a % b` for a >= 0 and b > 0: what remains after taking whole multiples of b. */
  function FloorRemainder(a: real, b: real): (r: real)
    requires a >= 0.0 && b > 0.0
    ensures 0.0 <= r < b
    ensures a < b ==> r == a
    ensures a == (a / b).Floor as real * b + r
  {
    var q := a / b;
    var f := q.Floor as real;
    assert q * b == a;
    assert f <= q < f + 1.0;
    var under, short, beyond := q - f, f + 1.0 - q, q - 1.0;
    ProductNonNegative(under, b);
    assert under * b == a - b * f;
    ProductSign(short, b);
    assert short * b == b * f + b - a;
    ProductSign(q, b);
    ProductSign(beyond, b);
    assert beyond * b == a - b;
    assert a < b ==> q.Floor == 0;
    a - b * f
  }

  /**
   * JavaScript's `x % d` for a non-zero divisor: the dividend minus the
   * largest whole multiple of d not beyond it, toward zero; the result has
   * the sign of the dividend and is smaller than |d|.
   */
  function JsRemainder(x: real, d: real): (r: real)
    requires d != 0.0
    ensures IsJsRemainder(x, d, r)
    ensures Abs(x) < Abs(d) ==> r == x
  {
    if x >= 0.0 then
      var r := FloorRemainder(x, Abs(d));
      assert x == Multiple((x / Abs(d)).Floor, Abs(d)) + r;
      r
    else
      var r := FloorRemainder(-x, Abs(d));
      assert x == Multiple(-((-x) / Abs(d)).Floor, Abs(d)) + -r;
      -r
  }

  /**
   * What makes r a JavaScript remainder of x by d: x minus a whole multiple
   * of |d|, with the sign of x and smaller than |d| in magnitude.
   */
  ghost predicate IsJsRemainder(x: real, d: real, r: real)
  {
    && Abs(r) < Abs(d)
    && (x >= 0.0 ==> r >= 0.0)
    && (x <= 0.0 ==> r <= 0.0)
    && exists q: int :: x == Multiple(q, Abs(d)) + r
  }

  /** q whole multiples of b. */
  function Multiple(q: int, b: real): real
  {
    q as real * b
  }

  /** There is only one JavaScript remainder, so JsRemainder is it. */
  lemma JsRemainderIsUnique(x: real, d: real, r: real)
    requires d != 0.0
    requires IsJsRemainder(x, d, r)
    ensures r == JsRemainder(x, d)
  {
    var r' := JsRemainder(x, d);
    var q :| x == Multiple(q, Abs(d)) + r;
    var q' :| x == Multiple(q', Abs(d)) + r';
    var k, b := q - q', Abs(d);
    assert Multiple(k, b) == r' - r;
    assert -b < r' - r < b;
    WholeMultiples(k, b);
  }

  /** A non-zero whole multiple of a positive b is at least b away from zero. */
  lemma WholeMultiples(k: int, b: real)
    requires b > 0.0
    ensures k >= 1 ==> Multiple(k, b) >= b
    ensures k <= -1 ==> Multiple(k, b) <= -b
  {
    if k >= 1 {
      ProductNonNegative((k - 1) as real, b);
    } else if k <= -1 {
      ProductNonNegative((-k - 1) as real, b);
    }
  }

  /** `x % d` on JavaScript numbers: NaN for a NaN dividend or a zero divisor. */
  function Rem(x: Number, d: real): Number
  {
    if x.NaN? || d == 0.0 then NaN else Num(JsRemainder(x.value, d))
  }

  /** Util.clamp to [0, 1] (its definition is not part of this model); callers handle NaN before clamping. */
  function Clamp01(x: real): real
  {
    if x < 0.0 then 0.0 else if x > 1.0 then 1.0 else x
  }

  /**
   * The completion of a leg of length `legLength` after `elapsed` ms:
   * `clamp(elapsed / legLength, 0, 1)`. Dividing by a zero length gives an
   * infinity that clamps to 0 or 1, or NaN when nothing has elapsed.
   */
  function LegCompletion(elapsed: real, legLength: Number): (c: Number)
    requires legLength.Num? ==> legLength.value >= 0.0
    ensures c.Num? ==> 0.0 <= c.value <= 1.0
    ensures legLength.Num? && legLength.value > 0.0 ==> c.Num?
    ensures legLength.Num? && legLength.value > 0.0 && elapsed <= 0.0 ==> c == Num(0.0)
    ensures legLength.Num? && legLength.value > 0.0 && elapsed >= legLength.value ==> c == Num(1.0)
    ensures legLength.Num? && 0.0 <= elapsed <= legLength.value && legLength.value > 0.0 ==>
              c.value * legLength.value == elapsed
    ensures legLength == Num(0.0) && elapsed == 0.0 ==> c == NaN
  {
    match legLength
    case NaN => NaN
    case Num(len) =>
      if len == 0.0 then
        (if elapsed > 0.0 then Num(1.0) else if elapsed < 0.0 then Num(0.0) else NaN)
      else
        QuotientFacts(elapsed, len);
        Num(Clamp01(elapsed / len))
  }

  /** Where e / l lies for a positive l. */
  lemma QuotientFacts(e: real, l: real)
    requires l > 0.0
    ensures (e / l) * l == e
    ensures e <= 0.0 ==> e / l <= 0.0
    ensures e >= l ==> e / l >= 1.0
    ensures 0.0 <= e <= l ==> 0.0 <= e / l <= 1.0
  {
    var q := e / l;
    assert q * l == e;
    var beyond := q - 1.0;
    ProductSign(q, l);
    ProductSign(beyond, l);
    assert beyond * l == e - l;
  }

  /** The point `distance` away from `from` in the direction of `to`. */
  function Toward(from: real, to: real, distance: real): real
  {
    if from <= to then from + distance else from - distance
  }

  /** Linear interpolation with completion c covers c times the leg's length, in the leg's direction. */
  lemma LegPosition(a: real, b: real, elapsed: real, c: real)
    requires c * Abs(a - b) == elapsed
    ensures a + (b - a) * c == Toward(a, b, elapsed)
  {
    if a <= b {
      assert Abs(a - b) == b - a;
    } else {
      assert (b - a) * c == -(Abs(a - b) * c);
    }
  }

  /**
   * The path time on a leg from `start` to `dest` that began at `changeTime`,
   * before the `% duration`: the clamped linear interpolation of
   * getInternalTime, which moves one ms of path time per ms.
   */
  function LegTime(start: Number, dest: Number, changeTime: real, externalTime: real): (t: Number)
    ensures start.Num? && dest.Num? && start != dest ==>
              && t.Num?
              && (externalTime <= changeTime ==> t == start)
              && (externalTime >= changeTime + Abs(start.value - dest.value) ==> t == dest)
              && (changeTime <= externalTime <= changeTime + Abs(start.value - dest.value) ==>
                    t == Num(Toward(start.value, dest.value, externalTime - changeTime)))
  {
    var dur := AbsDiff(start, dest);
    var completion := LegCompletion(externalTime - changeTime, dur);
    if && start.Num? && dest.Num? && start != dest
       && 0.0 <= externalTime - changeTime <= dur.value then
      LegPosition(start.value, dest.value, externalTime - changeTime, completion.value);
      Lerp(start, dest, completion)
    else
      Lerp(start, dest, completion)
  }

  /** For a non-negative dividend, adding the divisor does not change JavaScript's `%`. */
  lemma RemainderIsPeriodic(x: real, d: real)
    requires x >= 0.0 && d > 0.0
    ensures JsRemainder(x + d, d) == JsRemainder(x, d)
  {
    var r := JsRemainder(x, d);
    var q :| x == Multiple(q, Abs(d)) + r;
    assert x + d == Multiple(q + 1, Abs(d)) + r;
    JsRemainderIsUnique(x + d, d, r);
  }

  /** Util.lerp (its definition is not part of this model): a + (b - a) * t. */
  function Lerp(a: Number, b: Number, t: Number): (r: Number)
    ensures r.Num? <==> a.Num? && b.Num? && t.Num?
    ensures r.Num? && 0.0 <= t.value <= 1.0 ==>
              (a.value <= r.value <= b.value) || (b.value <= r.value <= a.value)
    ensures a.Num? && b.Num? && t == Num(0.0) ==> r == a
    ensures a.Num? && b.Num? && t == Num(1.0) ==> r == b
  {
    if a.Num? && b.Num? && t.Num? then
      if 0.0 <= t.value <= 1.0 then
        if a.value <= b.value then
          ProductNonNegative(b.value - a.value, t.value);
          ProductNonNegative(b.value - a.value, 1.0 - t.value);
          Num(a.value + (b.value - a.value) * t.value)
        else
          ProductNonNegative(a.value - b.value, t.value);
          ProductNonNegative(a.value - b.value, 1.0 - t.value);
          Num(a.value + (b.value - a.value) * t.value)
      else Num(a.value + (b.value - a.value) * t.value)
    else NaN
  }

  function AbsDiff(a: Number, b: Number): (d: Number)
    ensures d.Num? <==> a.Num? && b.Num?
    ensures d.Num? ==> d.value == Abs(a.value - b.value)
  {
    if a.Num? && b.Num? then Num(Abs(a.value - b.value)) else NaN
  }

  /**
   * The search result of getTransformAtTime: the marker pair m1 = markers[m1],
   * m2 = markers[m2], the path time at m2, the completion of the segment, and
   * for a spline segment the indices of the markers before m1 and after m2.
   */
  datatype Segment = Segment(m1: nat, m2: nat, endTime: real, completion: real, splineNeighbours: Option<Neighbours>)

  datatype Neighbours = Neighbours(preStart: nat, postEnd: nat)

  /**
   * `i` is where the segment search stops: the first marker count whose
   * partial sum reaches `time`, or the end of the path.
   */
  ghost predicate StopsAt(markers: seq<Marker>, time: real, i: int)
  {
    && 2 <= i <= |markers|
    && (time <= SumMsToNext(markers, i - 1) || i == |markers|)
    && forall k :: 1 <= k < i - 1 ==> SumMsToNext(markers, k) < time
  }

  /** There is only one place where the search can stop. */
  lemma StopsAtIsUnique(markers: seq<Marker>, time: real, i: int, i': int)
    requires StopsAt(markers, time, i) && StopsAt(markers, time, i')
    ensures i == i'
  {
  }

  /**
   * On a path whose legs are not negative, a time within the path lies in the
   * segment where the search stops.
   */
  lemma StopSegmentContainsTime(markers: seq<Marker>, time: real, i: int)
    requires forall k :: 0 <= k < |markers| ==> markers[k].msToNext >= 0.0
    requires 0.0 <= time <= PathDuration(markers)
    requires StopsAt(markers, time, i)
    ensures SumMsToNext(markers, i - 2) <= time <= SumMsToNext(markers, i - 1)
  {
    if i > 2 {
      assert SumMsToNext(markers, i - 2) < time;
    }
  }

  /**
   * The completion of the segment [m1Time, m2Time]: `(time - m1Time) / duration`
   * clamped to [0, 1], and 1 for a segment of zero length.
   */
  function SegmentCompletion(time: real, m1Time: real, m2Time: real): (c: real)
    ensures 0.0 <= c <= 1.0
    ensures m1Time == m2Time ==> c == 1.0
    ensures m1Time < m2Time && m1Time <= time <= m2Time ==> c * (m2Time - m1Time) == time - m1Time
  {
    var duration := m2Time - m1Time;
    Clamp01(if duration != 0.0 then (time - m1Time) / duration else 1.0)
  }

  /**
   * The markers before and after the pair markers[i - 2], markers[i - 1]
   * that a spline interpolates through, wrapping round the path.
   */
  function SplineNeighbours(count: nat, i: nat): (n: Neighbours)
    requires 2 <= i <= count
    ensures n.preStart < count && n.postEnd < count
    ensures n.preStart == if i == 2 then count - 1 else i - 3
    ensures n.postEnd == if i == count then 0 else i
  {
    var preStart := (i - 2) - 1;
    var postEnd := (i - 1) + 1;
    Neighbours(if preStart < 0 then count - 1 else preStart, if postEnd >= count then 0 else postEnd)
  }

  /** A moving platform's path and timing fields. */
  class PathedInterior {
    var markers: seq<Marker>
    var duration: real
    /** timeStart, timeDest: initially null, which JavaScript arithmetic reads as 0. */
    var timeStart: Number
    var timeDest: Number
    /** None stands for null: the platform loops along its path. */
    var changeTime: Option<real>
    var timeOffset: real

    /** Setting the path and computing its duration, as createFromSimGroup does. */
    constructor (markers: seq<Marker>)
      ensures this.markers == markers && duration == PathDuration(markers)
      ensures timeStart == Num(0.0) && timeDest == Num(0.0) && changeTime == None && timeOffset == 0.0
    {
      this.markers := markers;
      duration := 0.0;
      timeStart, timeDest, changeTime, timeOffset := Num(0.0), Num(0.0), None, 0.0;
      new;
      ComputeDuration();
    }

    method ComputeDuration()
      modifies this`duration
      ensures duration == PathDuration(markers)
    {
      var total := 0.0;
      var i := 0;
      while i < |markers| - 1
        invariant 0 <= i <= if |markers| == 0 then 0 else |markers| - 1
        invariant total == SumMsToNext(markers, i)
      {
        total := total + markers[i].msToNext;
        i := i + 1;
      }
      duration := total;
    }

    /**
     * The initial timing rule of createFromSimGroup. `initialPosition` and
     * `initialTargetPosition` are the element's numbers, None when absent;
     * an absent target reads as -1.
     */
    method ApplyInitialTiming(initialPosition: Option<real>, initialTargetPosition: Option<real>)
      modifies this`timeStart, this`timeDest, this`changeTime, this`timeOffset
      ensures var target := if initialTargetPosition.Some? then initialTargetPosition.value else -1.0;
              if target >= 0.0 then
                && timeStart == (if initialPosition.Some? then Num(initialPosition.value) else NaN)
                && timeDest == Num(target) && changeTime == Some(0.0) && timeOffset == old(timeOffset)
              else
                && timeStart == old(timeStart) && timeDest == old(timeDest) && changeTime == old(changeTime)
                && timeOffset == (if initialPosition.Some? then initialPosition.value else old(timeOffset))
      ensures initialTargetPosition.Some? && initialTargetPosition.value >= 0.0 && initialPosition.Some?
              && initialPosition.value != initialTargetPosition.value ==>
                && InternalTime(0.0) == Rem(Num(initialPosition.value), duration)
                && InternalTime(Abs(initialPosition.value - initialTargetPosition.value))
                   == Rem(Num(initialTargetPosition.value), duration)
    {
      var target := if initialTargetPosition.Some? then initialTargetPosition.value else -1.0;
      if target >= 0.0 {
        timeStart := if initialPosition.Some? then Num(initialPosition.value) else NaN;
        timeDest := Num(target);
        changeTime := Some(0.0);
      } else if initialPosition.Some? {
        timeOffset := initialPosition.value;
      }
    }

    /**
     * getInternalTime: the path time at an external time. Without a change
     * time the platform loops with its offset; otherwise it moves linearly
     * from timeStart to timeDest, one ms of path time per ms, starting at
     * changeTime.
     */
    function InternalTime(externalTime: real): (r: Number)
      reads this
      ensures duration == 0.0 ==> r == NaN
      ensures r.Num? ==> Abs(r.value) < Abs(duration)
      ensures changeTime == None && duration != 0.0 ==> r.Num?
      ensures changeTime == None && Abs(externalTime + timeOffset) < Abs(duration) ==>
                r == Num(externalTime + timeOffset)
      ensures changeTime == None ==> r == Rem(Num(externalTime + timeOffset), duration)
      ensures changeTime.Some? && timeStart.Num? && timeDest.Num? && timeStart != timeDest ==>
                && (externalTime <= changeTime.value ==> r == Rem(timeStart, duration))
                && (externalTime >= changeTime.value + Abs(timeStart.value - timeDest.value) ==>
                      r == Rem(timeDest, duration))
                && (changeTime.value <= externalTime <= changeTime.value + Abs(timeStart.value - timeDest.value) ==>
                      r == Rem(Num(Toward(timeStart.value, timeDest.value, externalTime - changeTime.value)), duration))
    {
      if changeTime.None? then Rem(Num(externalTime + timeOffset), duration)
      else Rem(LegTime(timeStart, timeDest, changeTime.value, externalTime), duration)
    }

    /**
     * Looping platforms repeat with the path's duration: one duration later
     * the internal time is the same (for a non-negative external time plus
     * offset, where JavaScript's `%` does not change sign).
     */
    lemma LoopIsPeriodic(externalTime: real)
      requires changeTime == None && duration > 0.0 && externalTime + timeOffset >= 0.0
      ensures InternalTime(externalTime + duration) == InternalTime(externalTime)
    {
      RemainderIsPeriodic(externalTime + timeOffset, duration);
      assert externalTime + duration + timeOffset == externalTime + timeOffset + duration;
    }

    /**
     * setDestinationTime: a new leg from the current internal time to
     * `destination`, starting now. The platform does not jump at the moment
     * of the change, unless the destination is where it already is: then
     * the zero-length leg gives NaN at that instant.
     */
    method SetDestinationTime(currentAttemptTime: real, destination: real)
      modifies this`timeStart, this`timeDest, this`changeTime
      ensures timeStart == old(InternalTime(currentAttemptTime))
      ensures timeDest == Num(destination) && changeTime == Some(currentAttemptTime)
      ensures old(InternalTime(currentAttemptTime)).Num? && old(InternalTime(currentAttemptTime)).value != destination ==>
                && InternalTime(currentAttemptTime) == old(InternalTime(currentAttemptTime))
                && InternalTime(currentAttemptTime + Abs(old(InternalTime(currentAttemptTime)).value - destination))
                   == Rem(Num(destination), duration)
      ensures old(InternalTime(currentAttemptTime)) == Num(destination) ==> InternalTime(currentAttemptTime) == NaN
    {
      var currentInternalTime := InternalTime(currentAttemptTime);
      timeStart := currentInternalTime;
      timeDest := Num(destination);
      changeTime := Some(currentAttemptTime);
    }

    /**
     * The segment search of getTransformAtTime, with the completion clamp and,
     * for a spline segment, the wrap-around neighbour indices. Fewer than two
     * markers make the source throw; that is None here.
     */
    method SegmentAt(time: real) returns (seg: Option<Segment>)
      ensures seg.None? <==> |markers| < 2
      ensures seg.Some? ==>
                var s := seg.value;
                && StopsAt(markers, time, s.m2 + 1)
                && s.m1 + 1 == s.m2
                && s.endTime == SumMsToNext(markers, s.m2)
                && s.completion == SegmentCompletion(time, s.endTime - markers[s.m1].msToNext, s.endTime)
                && (s.splineNeighbours.Some? <==> markers[s.m1].smoothingType == Spline)
                && (s.splineNeighbours.Some? ==> s.splineNeighbours.value == SplineNeighbours(|markers|, s.m2 + 1))
    {
      if |markers| < 2 {
        return None;
      }
      var m1, m2 := 0, 1;
      var currentEndTime := markers[m1].msToNext;
      var i := 2;
      while currentEndTime < time && i < |markers|
        invariant 2 <= i <= |markers|
        invariant m1 == i - 2 && m2 == i - 1
        invariant currentEndTime == SumMsToNext(markers, i - 1)
        invariant forall k :: 1 <= k < i - 1 ==> SumMsToNext(markers, k) < time
        decreases |markers| - i
      {
        m1 := m2;
        m2 := i;
        i := i + 1;
        currentEndTime := currentEndTime + markers[m1].msToNext;
      }
      var m1Time := currentEndTime - markers[m1].msToNext;
      var m2Time := currentEndTime;
      var completion := SegmentCompletion(time, m1Time, m2Time);
      var neighbours := if markers[m1].smoothingType == Spline then Some(SplineNeighbours(|markers|, i)) else None;
      seg := Some(Segment(m1, m2, currentEndTime, completion, neighbours));
    }
  }
}
