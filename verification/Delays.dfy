// packet_logic.c: how long a packet is delayed, and the clock of stable delays.
module Delays {
  import opened Orders
  import opened Wire
  import opened Times
  import opened Bsearch

  // ------------------------------------------------------- interpolated delays

  // compare_prob_and_delay_points
  function ComparePoints(p: Point, q: Point): int {
    if p.prob < q.prob then -1 else if p.prob > q.prob then 1 else 0
  }

  // From probability 0 to 1, no delay negative.
  ghost predicate Spans(points: seq<Point>) {
    && |points| >= 2 && points[0].prob == 0.0 && points[|points| - 1].prob == 1.0
    && forall i | 0 <= i < |points| :: points[i].delay >= 0
  }

  // The points of a generic delay: ascending, where the parser lets neighbours be
  // equal.
  ghost predicate Curve(points: seq<Point>) {
    Spans(points) && forall i, j | 0 <= i < j < |points| :: points[i].prob <= points[j].prob
  }

  // No two points of the same probability.
  ghost predicate Distinct(points: seq<Point>) {
    forall i, j | 0 <= i < j < |points| :: points[i].prob < points[j].prob
  }

  function Min(a: int, b: int): int { if a < b then a else b }

  function Max(a: int, b: int): int { if a < b then b else a }

  // The formula for a draw between two points.
  function Interpolated(x1: real, y1: int, x2: real, y2: int, prob: real): real
    requires x2 - x1 > 0.0
  {
    ((prob - x1) * y1 as real + (x2 - prob) * y2 as real) / (x2 - x1)
  }

  // The straight line through the two points.
  function OnLine(x1: real, y1: int, x2: real, y2: int, x: real): real
    requires x2 - x1 > 0.0
  {
    y1 as real + (y2 - y1) as real * (x - x1) / (x2 - x1)
  }

  lemma {:induction false} WeightedBound(a: real, b: real, y1: real, y2: real, low: real)
    requires a >= 0.0 && b >= 0.0 && y1 >= low && y2 >= low
    ensures a * y1 + b * y2 >= (a + b) * low
  {
    assert a * (y1 - low) >= 0.0 && b * (y2 - low) >= 0.0;
    assert a * (y1 - low) == a * y1 - a * low && b * (y2 - low) == b * y2 - b * low;
  }

  lemma {:induction false} QuotientBound(n: real, d: real, low: real)
    requires d > 0.0 && n >= d * low
    ensures n / d >= low
  {
    var q := n / d;
    assert d * (low - q) == d * low - n;
    assert q < low ==> d * (low - q) > 0.0;
  }

  lemma {:induction false} NegatedQuotient(n: real, d: real)
    requires d > 0.0
    ensures (-n) / d == -(n / d)
  {
  }

  // A draw between two points stays between their delays.
  lemma {:induction false} InterpolatedBounds(x1: real, y1: int, x2: real, y2: int, prob: real)
    requires x1 < prob < x2
    ensures Min(y1, y2) as real <= Interpolated(x1, y1, x2, y2, prob) <= Max(y1, y2) as real
  {
    var (a, b, d) := (prob - x1, x2 - prob, x2 - x1);
    var n := a * y1 as real + b * y2 as real;
    WeightedBound(a, b, y1 as real, y2 as real, Min(y1, y2) as real);
    QuotientBound(n, d, Min(y1, y2) as real);
    WeightedBound(a, b, -(y1 as real), -(y2 as real), -(Max(y1, y2) as real));
    assert a * -(y1 as real) + b * -(y2 as real) == -n;
    QuotientBound(-n, d, -(Max(y1, y2) as real));
    NegatedQuotient(n, d);
  }

  // The formula weighs each point by the distance from itself: it is the line
  // through the points taken at the mirrored draw.
  lemma {:induction false} InterpolatedIsMirrored(x1: real, y1: int, x2: real, y2: int, prob: real)
    requires x1 < x2
    ensures Interpolated(x1, y1, x2, y2, prob) == OnLine(x1, y1, x2, y2, x1 + x2 - prob)
  {
    var (d, u, v) := (x2 - x1, y1 as real, y2 as real);
    assert (y2 - y1) as real == v - u;
    var n := (prob - x1) * u + (x2 - prob) * v;
    var k := (v - u) * (x2 - prob);
    assert n == d * u + k by {
      assert (prob - x1) * u == d * u - (x2 - prob) * u;
      assert k == (x2 - prob) * v - (x2 - prob) * u;
    }
    SumQuotient(d, u, k);
  }

  lemma {:induction false} SumQuotient(d: real, u: real, k: real)
    requires d > 0.0
    ensures (d * u + k) / d == u + k / d
  {
    assert d * (u + k / d) == d * u + k;
  }

  // So it is linear interpolation exactly for equal delays or a draw half way.
  lemma {:induction false} InterpolatedIsLinearIff(x1: real, y1: int, x2: real, y2: int, prob: real)
    requires x1 < prob < x2
    ensures Interpolated(x1, y1, x2, y2, prob) == OnLine(x1, y1, x2, y2, prob) <==> y1 == y2 || prob - x1 == x2 - prob
  {
    InterpolatedIsMirrored(x1, y1, x2, y2, prob);
    var (d, w) := (x2 - x1, (y2 - y1) as real);
    var (p, q) := (w * (x2 - prob) / d, w * (prob - x1) / d);
    assert x1 + x2 - prob - x1 == x2 - prob;
    assert d * p == w * (x2 - prob) && d * q == w * (prob - x1);
    if p == q {
      assert w * ((x2 - prob) - (prob - x1)) == 0.0;
    }
  }

  const PROB_DELTA := 0.00000000001

  // What the arbitrator computes for a draw strictly between two points.
  function Between(p: Point, q: Point, prob: real): int
    requires p.prob < q.prob
  {
    if q.prob - p.prob < PROB_DELTA then (p.delay + q.delay) / 2
    else Interpolated(p.prob, p.delay, q.prob, q.delay, prob).Floor
  }

  // The line goes through both points and rises evenly.
  lemma {:induction false} LineIsStraight(x1: real, y1: int, x2: real, y2: int, x: real)
    requires x1 < x2
    ensures OnLine(x1, y1, x2, y2, x1) == y1 as real && OnLine(x1, y1, x2, y2, x2) == y2 as real
    ensures (OnLine(x1, y1, x2, y2, x) - y1 as real) * (x2 - x1) == (y2 - y1) as real * (x - x1)
  {
    var d := x2 - x1;
    assert (y2 - y1) as real * d / d == (y2 - y1) as real;
  }

  // What a draw strictly between two points is answered: from points at least
  // 0.00000000001 apart the line at the mirrored draw, rounded down, from nearer
  // ones the mean.
  ghost predicate Answered(p: Point, q: Point, prob: real, delay: int)
    requires p.prob < q.prob
  {
    if q.prob - p.prob < 0.00000000001 then delay == (p.delay + q.delay) / 2
    else
      delay as real <= OnLine(p.prob, p.delay, q.prob, q.delay, p.prob + q.prob - prob) < delay as real + 1.0
  }

  lemma {:induction false} BetweenAnswered(p: Point, q: Point, prob: real)
    requires p.prob < q.prob
    ensures Answered(p, q, prob, Between(p, q, prob))
  {
    InterpolatedIsMirrored(p.prob, p.delay, q.prob, q.delay, prob);
  }

  // There is one answer.
  lemma {:induction false} AnsweredOnce(p: Point, q: Point, prob: real, delay: int)
    requires p.prob < q.prob && Answered(p, q, prob, delay)
    ensures delay == Between(p, q, prob)
  {
    BetweenAnswered(p, q, prob);
    var r := OnLine(p.prob, p.delay, q.prob, q.delay, p.prob + q.prob - prob);
    assert q.prob - p.prob >= 0.00000000001 ==> delay == r.Floor && Between(p, q, prob) == r.Floor;
  }

  lemma {:induction false} BetweenBounds(p: Point, q: Point, prob: real)
    requires p.prob < prob < q.prob
    ensures Min(p.delay, q.delay) <= Between(p, q, prob) <= Max(p.delay, q.delay)
  {
    InterpolatedBounds(p.prob, p.delay, q.prob, q.delay, prob);
  }

  // One draw for which the formula and the line differ.
  lemma {:induction false} InterpolatedTheWrongWay()
    ensures Between(Point(0.0, 20), Point(1.0, 500), 0.25) == 380
    ensures OnLine(0.0, 20, 1.0, 500, 0.25) == 140.0
  {
  }

  // The draw hits point k. The place found is stepped back before it is used: the
  // answer is the delay of the point before, and for the first point what is read
  // lies before the array (None).
  ghost predicate Hits(points: seq<Point>, prob: real, delay: Option<int>, k: int) {
    && 0 <= k < |points| && prob == points[k].prob
    && delay == if k == 0 then None else Some(points[k - 1].delay)
  }

  // The draw falls between points k - 1 and k.
  ghost predicate FallsBefore(points: seq<Point>, prob: real, delay: Option<int>, k: int) {
    && 0 < k < |points| && points[k - 1].prob < prob < points[k].prob
    && delay.Some? && Answered(points[k - 1], points[k], prob, delay.value)
  }

  // What a curve answers for a draw.
  ghost predicate CurveDelay(points: seq<Point>, prob: real, delay: Option<int>) {
    (exists k :: Hits(points, prob, delay, k)) || (exists k :: FallsBefore(points, prob, delay, k))
  }

  // The draw is not before point k - 1 and not behind point k, and the delay d is
  // between those of the two.
  ghost predicate Bracketed(points: seq<Point>, prob: real, d: int, k: int) {
    && 0 < k < |points| && points[k - 1].prob <= prob <= points[k].prob
    && Min(points[k - 1].delay, points[k].delay) <= d <= Max(points[k - 1].delay, points[k].delay)
  }

  lemma {:induction false} BetweenBracketed(points: seq<Point>, prob: real, k: int)
    requires 0 < k < |points| && points[k - 1].prob < prob < points[k].prob
    ensures Bracketed(points, prob, Between(points[k - 1], points[k], prob), k)
  {
    BetweenBounds(points[k - 1], points[k], prob);
  }

  // Any draw but 0 gets a delay, and a delay lies within the draw's bracket.
  lemma {:induction false} CurveDelayBounds(points: seq<Point>, prob: real, delay: Option<int>)
    requires Curve(points) && 0.0 <= prob < 1.0 && CurveDelay(points, prob, delay)
    ensures prob > 0.0 ==> delay.Some?
    ensures delay.Some? ==> delay.value >= 0 && exists k :: Bracketed(points, prob, delay.value, k)
  {
    if k :| Hits(points, prob, delay, k) {
      if k > 0 {
        assert Bracketed(points, prob, points[k - 1].delay, k);
      }
    } else {
      var k :| FallsBefore(points, prob, delay, k);
      AnsweredOnce(points[k - 1], points[k], prob, delay.value);
      BetweenBracketed(points, prob, k);
    }
  }

  // A draw that hits a point is answered with the delay of that point exactly if
  // the point before it has the same; the first point is never answered.
  lemma {:induction false} HitAnsweredIff(points: seq<Point>, k: nat, delay: Option<int>)
    requires Curve(points) && Distinct(points) && k < |points| && CurveDelay(points, points[k].prob, delay)
    ensures delay == if k == 0 then None else Some(points[k - 1].delay)
    ensures delay == Some(points[k].delay) <==> k > 0 && points[k - 1].delay == points[k].delay
  {
    var prob := points[k].prob;
    forall j ensures !FallsBefore(points, prob, delay, j) {
      if 0 < j < |points| {
        assert j < k ==> points[j].prob < prob;
        assert k < j - 1 ==> prob < points[j - 1].prob;
      }
    }
    var j :| Hits(points, prob, delay, j);
  }

  // The curve of the syntax description: 300 is what it gives for 0.2.
  const DOCUMENTED_CURVE := [Point(0.0, 500), Point(0.1, 500), Point(0.2, 300), Point(0.5, 0), Point(0.8, 0),
                             Point(0.8001, 1000), Point(1.0, 2000)]

  // Points that rise from each to the next rise throughout.
  lemma {:induction false} NeighboursRise(points: seq<Point>)
    requires forall i | 0 < i < |points| :: points[i - 1].prob < points[i].prob
    ensures Distinct(points)
    ensures Spans(points) ==> Curve(points)
  {
    if |points| > 1 {
      var n := |points| - 1;
      NeighboursRise(points[..n]);
      assert forall i | 0 <= i < n :: points[..n][i] == points[i];
      assert points[n - 1].prob < points[n].prob;
    }
  }

  lemma {:induction false} DocumentedCurveRises()
    ensures Distinct(DOCUMENTED_CURVE) && Curve(DOCUMENTED_CURVE)
  {
    NeighboursRise(DOCUMENTED_CURVE);
  }

  // A draw of 0.2 is answered with 500.
  lemma {:induction false} DocumentedCurveMissed(delay: Option<int>)
    requires CurveDelay(DOCUMENTED_CURVE, 0.2, delay)
    ensures DOCUMENTED_CURVE[2] == Point(0.2, 300) && delay == Some(500)
  {
    DocumentedCurveRises();
    HitAnsweredIff(DOCUMENTED_CURVE, 2, delay);
  }

  // Between 500 at 0.1 and 300 at 0.2 a draw of 0.11 is answered with 320.
  lemma {:induction false} DocumentedCurveBetween(delay: Option<int>)
    requires FallsBefore(DOCUMENTED_CURVE, 0.11, delay, 2)
    ensures delay == Some(320)
  {
  }

  // The split-linear branch.
  method SplitLinearDelay(points: seq<Point>, prob: real) returns (delay: Option<int>)
    requires Curve(points) && 0.0 <= prob < 1.0
    ensures CurveDelay(points, prob, delay)
  {
    var isPrecise, place := SFOBsearch(Point(prob, 0), points, ComparePoints);
    var searched := place - 1;
    if isPrecise {
      delay := if searched < 0 then None else Some(points[searched].delay);
      assert Hits(points, prob, delay, place);
      return;
    }
    assert place > 0 by {
      assert ComparePoints(Point(prob, 0), points[0]) >= 0;
    }
    assert place < |points| by {
      assert ComparePoints(Point(prob, 0), points[|points| - 1]) < 0;
    }
    assert ComparePoints(Point(prob, 0), points[place]) != 0;
    assert ComparePoints(Point(prob, 0), points[searched]) != 0;
    delay := Some(Between(points[searched], points[place], prob));
    BetweenAnswered(points[searched], points[place], prob);
    assert FallsBefore(points, prob, delay, place);
  }

  // ------------------------------------------------------- the stable delay clock

  // Division of C: towards zero.
  function TruncDiv(a: int, b: int): int
    requires b > 0
  {
    if a >= 0 then a / b else -((-a) / b)
  }

  // The delay that releases a packet d milliseconds after the last one, if that
  // is still to come.
  function StableDelay(last: Timeval, now: Timeval, d: nat): nat
    requires Kept(last)
  {
    var target := After(last, d);
    var delay := (target.sec - now.sec) * 1000 + TruncDiv(target.usec - now.usec, 1000);
    if delay < 0 then 0 else delay
  }

  // The release time that is remembered as the last one.
  function StableRelease(last: Timeval, now: Timeval, d: nat): (r: Timeval)
    requires Kept(last) && Kept(now)
    ensures Kept(r)
  {
    After(now, StableDelay(last, now, d))
  }

  // Within a millisecond the release is d after the last one, or now if that has
  // passed; and for a drawn delay of at least 1 it is never before the last one.
  lemma {:induction false} StableClock(last: Timeval, now: Timeval, d: nat)
    requires Kept(last) && Kept(now)
    ensures var (r, wanted) := (Micros(StableRelease(last, now, d)), Max(Micros(now), Micros(last) + 1000 * d));
            wanted - 1000 < r < wanted + 1000
    ensures d >= 1 ==> Micros(StableRelease(last, now, d)) >= Micros(last)
  {
  }

  // For a drawn delay of 0 the clock goes back exactly if the last release is
  // ahead and the microseconds lose a fraction of a millisecond.
  lemma {:induction false} StableClockGoesBackIff(last: Timeval, now: Timeval, d: nat)
    requires Kept(last) && Kept(now)
    ensures Micros(StableRelease(last, now, d)) < Micros(last) <==>
              d == 0 && Micros(last) > Micros(now) && last.usec > now.usec && (last.usec - now.usec) % 1000 != 0
  {
  }

  // One does.
  lemma {:induction false} StableClockMayGoBack()
    ensures Micros(StableRelease(Timeval(10, 1500), Timeval(10, 0), 0)) < Micros(Timeval(10, 1500))
  {
  }

  // The last release time before a delay: now, if nothing was released yet.
  function LastRelease(last: Timeval, now: Timeval): Timeval {
    if last.sec == 0 then now else last
  }

  // A chain that released nothing yet delays its first packet by just what was
  // drawn; any other counts from its last release.
  lemma {:induction false} FirstDelay(last: Timeval, now: Timeval, d: nat)
    requires Kept(last) && Kept(now)
    ensures last.sec == 0 ==> StableDelay(LastRelease(last, now), now, d) == d
    ensures last.sec != 0 ==> StableDelay(LastRelease(last, now), now, d) == StableDelay(last, now, d)
  {
  }

  // With the restart: past the first second of the clock, a delay of at least 1
  // does not set the release time back.
  lemma {:induction false} RestartedClock(last: Timeval, now: Timeval, d: nat)
    requires Kept(last) && Kept(now) && d >= 1 && now.sec >= 1
    ensures Micros(StableRelease(LastRelease(last, now), now, d)) >= Micros(last)
  {
    StableClock(LastRelease(last, now), now, d);
  }
}
