/** The share of time that a piecewise-linear probability curve spends in each of a list of
    buckets, as in the safety integrity levels of IEC 61508-1, section 7.6.2.9. */
module Histogram {
  import opened Reals

  /** A value at a time. */
  datatype Point = Point(y: real, x: real)

  /** One segment of the curve: its least and greatest value, and its duration. */
  datatype Segment = Segment(low: real, high: real, time: real)
  {
    predicate Valid() {
      low <= high && time > 0.0
    }

    predicate Flat() {
      low == high
    }
  }

  function SegmentOf(p: Point, q: Point): Segment {
    Segment(Min(p.y, q.y), Max(p.y, q.y), q.x - p.x)
  }

  function Min(a: real, b: real): real {
    if a <= b then a else b
  }

  function Max(a: real, b: real): real {
    if a <= b then b else a
  }

  predicate Ascending(points: seq<Point>) {
    forall i | 0 < i < |points| :: points[i - 1].x < points[i].x
  }

  /** The buckets follow each other from 0 up. */
  predicate Buckets(bounds: seq<real>) {
    && bounds != [] && bounds[0] > 0.0
    && forall i | 0 < i < |bounds| :: bounds[i - 1] < bounds[i]
  }

  function Lower(bounds: seq<real>, j: nat): real
    requires j < |bounds|
  {
    if j == 0 then 0.0 else bounds[j - 1]
  }

  predicate Within(points: seq<Point>, lo: real, hi: real) {
    forall i | 0 <= i < |points| :: lo <= points[i].y <= hi
  }

  function Slope(s: Segment): real
    requires s.Valid()
  {
    (s.high - s.low) / s.time
  }

  /** The value limited to an interval. */
  function Clip(y: real, lo: real, hi: real): real {
    Max(lo, Min(y, hi))
  }

  function Quotient(a: real, k: real): real
    requires k != 0.0
  {
    a / k
  }

  lemma SlopeSign(s: Segment)
    requires s.Valid()
    ensures Slope(s) >= 0.0 && (Slope(s) == 0.0 <==> s.Flat())
    ensures !s.Flat() ==> Quotient(s.high - s.low, Slope(s)) == s.time
  {
    var k := Slope(s);
    assert k * s.time == s.high - s.low;
    ProductSign(k, s.time);
    if !s.Flat() {
      Cancels(k, s.time, s.high - s.low);
    }
  }

  lemma ProductSign(k: real, t: real)
    requires t > 0.0
    ensures k * t >= 0.0 <==> k >= 0.0
    ensures k * t == 0.0 <==> k == 0.0
  {
  }

  lemma Cancels(k: real, t: real, d: real)
    requires k * t == d && k != 0.0
    ensures Quotient(d, k) == t
  {
    assert k * t / k == t;
  }

  /** The time that a segment spends between two bounds. */
  function TimeIn(s: Segment, lo: real, hi: real): (r: real)
    requires s.Valid() && lo < hi
  {
    SlopeSign(s);
    if s.Flat() then (if lo <= s.low <= hi then s.time else 0.0)
    else Quotient(Clip(s.high, lo, hi) - Clip(s.low, lo, hi), Slope(s))
  }

  method Fraction(s: Segment, lo: real, hi: real) returns (time: real)
    requires s.Valid() && lo < hi
    ensures time == TimeIn(s, lo, hi)
  {
    hide Quotient, Slope;
    SlopeSign(s);
    var k := Slope(s);
    if s.low <= lo && hi <= s.high {
      return Quotient(hi - lo, k);
    }
    if lo <= s.low && s.high <= hi {
      return s.time;
    }
    if s.low <= lo <= s.high {
      return Quotient(s.high - lo, k);
    }
    if s.low <= hi <= s.high {
      return Quotient(hi - s.low, k);
    }
    QuotientOfNone(k, s);
    return 0.0;
  }

  lemma QuotientOfNone(k: real, s: Segment)
    ensures k != 0.0 ==> Quotient(0.0, k) == 0.0
  {
  }

  /** The value of a segment at a time. */
  ghost predicate At(p: Point, q: Point, t: real, y: real) {
    p.x <= t <= q.x && Rectangle(y - p.y, q.x - p.x) == Rectangle(q.y - p.y, t - p.x)
  }

  /** From time `a` to time `b`, the segment is between the bounds, and not before or after. */
  ghost predicate Between(p: Point, q: Point, lo: real, hi: real, a: real, b: real) {
    && p.x <= a <= b <= q.x
    && forall t: real, y: real :: At(p, q, t, y) ==>
         && (a < t < b ==> lo <= y <= hi)
         && (t < a || b < t ==> y < lo || hi < y)
  }

  /** The time that a segment spends between two bounds is the length of that interval. */
  lemma TimeBetween(p: Point, q: Point, lo: real, hi: real) returns (a: real, b: real)
    requires p.x < q.x && lo < hi
    ensures Between(p, q, lo, hi, a, b) && b - a == TimeIn(SegmentOf(p, q), lo, hi)
  {
    hide Quotient, Slope, Rectangle;
    var s := SegmentOf(p, q);
    SlopeSign(s);
    if s.Flat() {
      a, b := p.x, if lo <= s.low <= hi then q.x else p.x;
      forall t: real, y: real | At(p, q, t, y)
        ensures y == p.y
      {
        FlatValue(p, q, t, y);
      }
    } else {
      var k := Slope(s);
      var first, last := Max(Min(lo, s.high), s.low), Min(Max(hi, s.low), s.high);
      SlopeTimes(s);
      Differences(first - s.low, last - s.low, k);
      Differences(s.high - last, s.high - first, k);
      QuotientOrder(first - s.low, s.high - s.low, k);
      QuotientOrder(s.high - last, s.high - s.low, k);
      QuotientOrder(last - s.low, s.high - s.low, k);
      QuotientOrder(s.high - first, s.high - s.low, k);
      QuotientOrder(first - s.low, last - s.low, k);
      if p.y <= q.y {
        a, b := p.x + Quotient(first - s.low, k), p.x + Quotient(last - s.low, k);
        forall t: real, y: real | At(p, q, t, y)
          ensures (t >= a <==> y >= first) && (t <= b <==> y <= last) && s.low <= y <= s.high
        {
          RisingValue(p, q, k, t, y, first);
          RisingValue(p, q, k, t, y, last);
        }
      } else {
        a, b := p.x + Quotient(s.high - last, k), p.x + Quotient(s.high - first, k);
        forall t: real, y: real | At(p, q, t, y)
          ensures (t >= a <==> y <= last) && (t <= b <==> y >= first) && s.low <= y <= s.high
        {
          FallingValue(p, q, k, t, y, first);
          FallingValue(p, q, k, t, y, last);
        }
      }
    }
  }

  lemma SlopeTimes(s: Segment)
    requires s.Valid()
    ensures Rectangle(Slope(s), s.time) == s.high - s.low
  {
  }

  lemma FlatValue(p: Point, q: Point, t: real, y: real)
    requires p.x < q.x && p.y == q.y && At(p, q, t, y)
    ensures y == p.y
  {
    ProductSign(y - p.y, q.x - p.x);
  }

  lemma Differences(x: real, y: real, k: real)
    requires k != 0.0
    ensures Quotient(y, k) - Quotient(x, k) == Quotient(y - x, k)
  {
    QuotientSum(x, y - x, k);
  }

  lemma QuotientOrder(x: real, y: real, k: real)
    requires k > 0.0
    ensures x <= y <==> Quotient(x, k) <= Quotient(y, k)
    ensures x >= 0.0 <==> Quotient(x, k) >= 0.0
  {
    Differences(x, y, k);
    QuotientSign(y - x, k);
    QuotientSign(x, k);
  }

  /** The value at a time is proportional to the time. */
  lemma RisingValue(p: Point, q: Point, k: real, t: real, y: real, bound: real)
    requires p.x < q.x && k > 0.0 && Rectangle(k, q.x - p.x) == q.y - p.y && At(p, q, t, y)
    ensures (t >= p.x + Quotient(bound - p.y, k) <==> y >= bound) && (t <= p.x + Quotient(bound - p.y, k) <==> y <= bound)
    ensures p.y <= y <= q.y
  {
    ValueAtTime(p, q, k, t, y);
    var time := t - p.x;
    Multiple(k, time);
    QuotientOrder(bound - p.y, y - p.y, k);
    QuotientOrder(y - p.y, bound - p.y, k);
    ProductSign(k, time + 1.0);
    QuotientOrder(0.0, y - p.y, k);
    Multiple(k, q.x - p.x);
    QuotientOrder(y - p.y, q.y - p.y, k);
    QuotientSign(0.0, k);
  }

  lemma FallingValue(p: Point, q: Point, k: real, t: real, y: real, bound: real)
    requires p.x < q.x && k > 0.0 && Rectangle(k, q.x - p.x) == p.y - q.y && At(p, q, t, y)
    ensures (t >= p.x + Quotient(p.y - bound, k) <==> y <= bound) && (t <= p.x + Quotient(p.y - bound, k) <==> y >= bound)
    ensures q.y <= y <= p.y
  {
    var p', q' := Point(-p.y, p.x), Point(-q.y, q.x);
    Opposite(y - p.y, q.x - p.x);
    Opposite(q.y - p.y, t - p.x);
    RisingValue(p', q', k, t, -y, -bound);
  }

  lemma Opposite(y: real, t: real)
    ensures Rectangle(-y, t) == -Rectangle(y, t)
  {
  }

  lemma Multiple(k: real, t: real)
    requires k != 0.0
    ensures Quotient(Rectangle(k, t), k) == t
  {
    assert k * t / k == t;
  }

  lemma ValueAtTime(p: Point, q: Point, k: real, t: real, y: real)
    requires p.x < q.x && Rectangle(k, q.x - p.x) == q.y - p.y && At(p, q, t, y)
    ensures y - p.y == Rectangle(k, t - p.x)
  {
    var d := q.x - p.x;
    assert (y - p.y) * d == k * d * (t - p.x);
    assert (y - p.y - k * (t - p.x)) * d == 0.0;
    ProductSign(y - p.y - k * (t - p.x), d);
  }

  /** The time that the curve spends between two bounds. */
  function CurveTime(points: seq<Point>, lo: real, hi: real): real
    requires Ascending(points) && lo < hi
  {
    if |points| < 2 then 0.0 else
      var last := |points| - 1;
      CurveTime(points[..last], lo, hi) + TimeIn(SegmentOf(points[last - 1], points[last]), lo, hi)
  }

  /** Adds to each bucket the time that the curve spends in it, and divides by the whole time. */
  method PartitionY(points: seq<Point>, bounds: seq<real>, fractions: array<real>)
    requires |points| > 1 && Ascending(points) && Buckets(bounds) && fractions.Length == |bounds|
    modifies fractions
    ensures points[0].x < points[|points| - 1].x
    ensures forall j | 0 <= j < |bounds| ::
              fractions[j] == Quotient(old(fractions[j]) + CurveTime(points, Lower(bounds, j), bounds[j]),
                                       points[|points| - 1].x - points[0].x)
  {
    for i := 1 to |points|
      invariant forall j | 0 <= j < |bounds| ::
                  fractions[j] == old(fractions[j]) + CurveTime(points[..i], Lower(bounds, j), bounds[j])
    {
      AddSegment(points, i, bounds, fractions);
    }
    assert points[..|points|] == points;
    TimeGrows(points, 0, |points| - 1);
    var range := points[|points| - 1].x - points[0].x;
    Normalize(fractions, range);
  }

  method Normalize(fractions: array<real>, range: real)
    requires range != 0.0
    modifies fractions
    ensures forall j | 0 <= j < fractions.Length :: fractions[j] == Quotient(old(fractions[j]), range)
  {
    for j := 0 to fractions.Length
      invariant forall k | 0 <= k < j :: fractions[k] == Quotient(old(fractions[k]), range)
      invariant forall k | j <= k < fractions.Length :: fractions[k] == old(fractions[k])
    {
      fractions[j] := Quotient(fractions[j], range);
    }
  }

  method AddSegment(points: seq<Point>, i: nat, bounds: seq<real>, fractions: array<real>)
    requires 0 < i < |points| && Ascending(points) && Buckets(bounds) && fractions.Length == |bounds|
    modifies fractions
    ensures forall j | 0 <= j < |bounds| ::
              fractions[j] == old(fractions[j]) + CurveTime(points[..i + 1], Lower(bounds, j), bounds[j])
                                                - CurveTime(points[..i], Lower(bounds, j), bounds[j])
  {
    hide TimeIn;
    var s := SegmentOf(points[i - 1], points[i]);
    var lo := 0.0;
    for j := 0 to |bounds|
      invariant j < |bounds| ==> lo == Lower(bounds, j)
      invariant forall k | 0 <= k < j :: fractions[k] == old(fractions[k]) + TimeIn(s, Lower(bounds, k), bounds[k])
      invariant forall k | j <= k < |bounds| :: fractions[k] == old(fractions[k])
    {
      var hi := bounds[j];
      var time := Fraction(s, lo, hi);
      fractions[j] := fractions[j] + time;
      lo := hi;
    }
    assert points[..i + 1][..i] == points[..i];
  }

  lemma {:induction false} TimeGrows(points: seq<Point>, i: nat, j: nat)
    requires Ascending(points) && i < j < |points|
    ensures points[i].x < points[j].x
  {
    if i + 1 < j {
      TimeGrows(points, i, j - 1);
    }
  }

  // Conservation of time.

  /** The time of one segment in the first buckets. */
  function SegmentTime(s: Segment, bounds: seq<real>, m: nat): real
    requires s.Valid() && Buckets(bounds) && m <= |bounds|
  {
    if m == 0 then 0.0 else SegmentTime(s, bounds, m - 1) + TimeIn(s, Lower(bounds, m - 1), bounds[m - 1])
  }

  /** The time of the curve in the first buckets. */
  function BucketsTime(points: seq<Point>, bounds: seq<real>, m: nat): real
    requires Ascending(points) && Buckets(bounds) && m <= |bounds|
  {
    if m == 0 then 0.0
    else BucketsTime(points, bounds, m - 1) + CurveTime(points, Lower(bounds, m - 1), bounds[m - 1])
  }

  lemma QuotientSum(a: real, b: real, k: real)
    requires k != 0.0
    ensures Quotient(a, k) + Quotient(b, k) == Quotient(a + b, k)
  {
  }

  lemma QuotientSign(a: real, k: real)
    requires k > 0.0
    ensures (Quotient(a, k) >= 0.0 <==> a >= 0.0) && (Quotient(a, k) == 0.0 <==> a == 0.0)
    ensures Quotient(k, k) == 1.0
  {
    assert Quotient(a, k) * k == a;
  }

  lemma TimeInSign(s: Segment, lo: real, hi: real)
    requires s.Valid() && lo < hi
    ensures TimeIn(s, lo, hi) >= 0.0
  {
    hide Quotient, Slope;
    SlopeSign(s);
    if !s.Flat() {
      QuotientSign(Clip(s.high, lo, hi) - Clip(s.low, lo, hi), Slope(s));
    }
  }

  /** A rising or falling segment spends all its time in the buckets. */
  lemma {:induction false} SlopedTime(s: Segment, bounds: seq<real>, m: nat)
    requires s.Valid() && !s.Flat() && s.low >= 0.0 && Buckets(bounds) && 0 < m <= |bounds|
    ensures Slope(s) != 0.0
    ensures SegmentTime(s, bounds, m) == Quotient(Clip(s.high, 0.0, bounds[m - 1]) - Clip(s.low, 0.0, bounds[m - 1]), Slope(s))
  {
    hide Quotient, Slope;
    SlopeSign(s);
    if m == 1 {
      assert SegmentTime(s, bounds, 0) == 0.0;
    } else {
      SlopedTime(s, bounds, m - 1);
      var lo, hi := bounds[m - 2], bounds[m - 1];
      BoundsPositive(bounds, m - 2);
      QuotientSum(Clip(s.high, 0.0, lo) - Clip(s.low, 0.0, lo), Clip(s.high, lo, hi) - Clip(s.low, lo, hi), Slope(s));
    }
  }

  lemma {:induction false} BoundsPositive(bounds: seq<real>, j: nat)
    requires Buckets(bounds) && j < |bounds|
    ensures bounds[j] > 0.0
  {
    if j > 0 {
      BoundsPositive(bounds, j - 1);
    }
  }

  /** A value on the bound between two of the first buckets. */
  ghost predicate Interior(y: real, bounds: seq<real>, m: nat)
    requires m <= |bounds|
  {
    exists j | 0 <= j < m - 1 :: bounds[j] == y
  }

  /** A flat segment is counted once, but twice on the bound between two buckets. */
  lemma {:induction false} FlatTime(s: Segment, bounds: seq<real>, m: nat)
    requires s.Valid() && s.Flat() && s.low >= 0.0 && Buckets(bounds) && 0 < m <= |bounds|
    ensures s.low > bounds[m - 1] ==> SegmentTime(s, bounds, m) == 0.0
    ensures s.low <= bounds[m - 1] ==> SegmentTime(s, bounds, m) == s.time + if Interior(s.low, bounds, m) then s.time else 0.0
    ensures Interior(s.low, bounds, m) ==> s.low < bounds[m - 1]
  {
    SlopeSign(s);
    if m == 1 {
      assert SegmentTime(s, bounds, 0) == 0.0;
    } else {
      FlatTime(s, bounds, m - 1);
      BoundsPositive(bounds, m - 2);
      if Interior(s.low, bounds, m) {
        var j :| 0 <= j < m - 1 && bounds[j] == s.low;
        assert j == m - 2 || Interior(s.low, bounds, m - 1);
      }
      if Interior(s.low, bounds, m - 1) {
        var j :| 0 <= j < m - 2 && bounds[j] == s.low;
        assert Interior(s.low, bounds, m);
      }
    }
  }

  /** The time that a segment is counted too often. */
  ghost function Doubled(s: Segment, bounds: seq<real>): real {
    if s.Flat() && Interior(s.low, bounds, |bounds|) then s.time else 0.0
  }

  lemma SegmentCounted(s: Segment, bounds: seq<real>)
    requires s.Valid() && Buckets(bounds) && 0.0 <= s.low && s.high <= bounds[|bounds| - 1]
    ensures SegmentTime(s, bounds, |bounds|) == s.time + Doubled(s, bounds)
  {
    hide Quotient, Slope, SegmentTime;
    SlopeSign(s);
    BoundsPositive(bounds, |bounds| - 1);
    if s.Flat() {
      FlatTime(s, bounds, |bounds|);
    } else {
      SlopedTime(s, bounds, |bounds|);
    }
  }

  /** The time that the curve is counted too often. */
  ghost function DoubledTime(points: seq<Point>, bounds: seq<real>): real {
    if |points| < 2 then 0.0 else
      var last := |points| - 1;
      DoubledTime(points[..last], bounds) + Doubled(SegmentOf(points[last - 1], points[last]), bounds)
  }

  lemma {:induction false} BucketsNext(points: seq<Point>, bounds: seq<real>, m: nat)
    requires |points| > 1 && Ascending(points) && Buckets(bounds) && m <= |bounds|
    ensures var last := |points| - 1;
            BucketsTime(points, bounds, m)
            == BucketsTime(points[..last], bounds, m) + SegmentTime(SegmentOf(points[last - 1], points[last]), bounds, m)
  {
    hide TimeIn;
    if m > 0 {
      BucketsNext(points, bounds, m - 1);
    }
  }

  lemma {:induction false} CurveCounted(points: seq<Point>, bounds: seq<real>)
    requires points != [] && Ascending(points) && Buckets(bounds) && Within(points, 0.0, bounds[|bounds| - 1])
    ensures BucketsTime(points, bounds, |bounds|) == points[|points| - 1].x - points[0].x + DoubledTime(points, bounds)
  {
    hide TimeIn, Doubled, SegmentTime;
    if |points| == 1 {
      NoTime(points, bounds, |bounds|);
    } else {
      var last := |points| - 1;
      CurveCounted(points[..last], bounds);
      BucketsNext(points, bounds, |bounds|);
      SegmentCounted(SegmentOf(points[last - 1], points[last]), bounds);
    }
  }

  lemma {:induction false} NoTime(points: seq<Point>, bounds: seq<real>, m: nat)
    requires |points| == 1 && Buckets(bounds) && m <= |bounds|
    ensures BucketsTime(points, bounds, m) == 0.0
  {
    if m > 0 {
      NoTime(points, bounds, m - 1);
    }
  }

  /** No segment stays on the bound between two buckets. */
  ghost predicate NeverOnBound(points: seq<Point>, bounds: seq<real>) {
    forall i | 0 < i < |points| :: points[i - 1].y == points[i].y ==> !Interior(points[i].y, bounds, |bounds|)
  }

  lemma {:induction false} DoubledSign(points: seq<Point>, bounds: seq<real>)
    requires Ascending(points)
    ensures DoubledTime(points, bounds) >= 0.0
    ensures DoubledTime(points, bounds) == 0.0 <==> NeverOnBound(points, bounds)
  {
    if |points| >= 2 {
      var last := |points| - 1;
      DoubledSign(points[..last], bounds);
      var s := SegmentOf(points[last - 1], points[last]);
      assert s.Flat() <==> points[last - 1].y == points[last].y;
      if NeverOnBound(points, bounds) {
        assert NeverOnBound(points[..last], bounds);
      }
      if NeverOnBound(points[..last], bounds) && Doubled(s, bounds) == 0.0 {
        forall i | 0 < i < |points| && points[i - 1].y == points[i].y
          ensures !Interior(points[i].y, bounds, |bounds|)
        {
          if i < last {
            assert points[..last][i - 1].y == points[..last][i].y;
          }
        }
      }
    }
  }

  lemma {:induction false} SumOfQuotients(values: seq<real>, points: seq<Point>, bounds: seq<real>, range: real, m: nat)
    requires Ascending(points) && Buckets(bounds) && m <= |values| == |bounds| && range != 0.0
    requires forall j | 0 <= j < |bounds| :: values[j] == Quotient(CurveTime(points, Lower(bounds, j), bounds[j]), range)
    ensures Sum(values[..m]) == Quotient(BucketsTime(points, bounds, m), range)
  {
    hide CurveTime, Quotient;
    if m == 0 {
      NoQuotient(range);
    } else {
      SumOfQuotients(values, points, bounds, range, m - 1);
      assert values[..m][..m - 1] == values[..m - 1];
      QuotientSum(BucketsTime(points, bounds, m - 1), CurveTime(points, Lower(bounds, m - 1), bounds[m - 1]), range);
    }
  }

  lemma NoQuotient(k: real)
    requires k != 0.0
    ensures Quotient(0.0, k) == 0.0
  {
  }

  lemma {:induction false} CurveTimeSign(points: seq<Point>, lo: real, hi: real)
    requires Ascending(points) && lo < hi
    ensures CurveTime(points, lo, hi) >= 0.0
  {
    if |points| >= 2 {
      var last := |points| - 1;
      CurveTimeSign(points[..last], lo, hi);
      TimeInSign(SegmentOf(points[last - 1], points[last]), lo, hi);
    }
  }

  /** The share of each bucket in the time of the curve. */
  ghost predicate IsHistogram(points: seq<Point>, bounds: seq<real>, fractions: seq<real>) {
    && |points| > 1 && Ascending(points) && Buckets(bounds) && |fractions| == |bounds|
    && points[0].x < points[|points| - 1].x
    && forall j | 0 <= j < |bounds| ::
         fractions[j] == Quotient(CurveTime(points, Lower(bounds, j), bounds[j]), points[|points| - 1].x - points[0].x)
  }

  /** The fractions of the histogram are not negative. */
  lemma HistogramSigns(points: seq<Point>, bounds: seq<real>, fractions: seq<real>)
    requires IsHistogram(points, bounds, fractions)
    ensures forall j | 0 <= j < |fractions| :: fractions[j] >= 0.0
  {
    forall j | 0 <= j < |bounds|
      ensures fractions[j] >= 0.0
    {
      CurveTimeSign(points, Lower(bounds, j), bounds[j]);
      QuotientSign(CurveTime(points, Lower(bounds, j), bounds[j]), points[|points| - 1].x - points[0].x);
    }
  }

  /** The histogram of a curve within the buckets sums to 1 exactly when no segment stays on
      the bound between two buckets, and to more otherwise. */
  lemma HistogramConserves(points: seq<Point>, bounds: seq<real>, fractions: seq<real>)
    requires IsHistogram(points, bounds, fractions)
    requires Within(points, 0.0, bounds[|bounds| - 1])
    ensures Sum(fractions) >= 1.0
    ensures Sum(fractions) == 1.0 <==> NeverOnBound(points, bounds)
  {
    hide Quotient, CurveTime, BucketsTime, DoubledTime, Within, NeverOnBound, Lower, TimeIn, Sum;
    var range := points[|points| - 1].x - points[0].x;
    SumOfQuotients(fractions, points, bounds, range, |bounds|);
    assert fractions[..|bounds|] == fractions;
    CurveCounted(points, bounds);
    DoubledSign(points, bounds);
    OneAndMore(range, DoubledTime(points, bounds));
  }

  lemma OneAndMore(range: real, doubled: real)
    requires range > 0.0 && doubled >= 0.0
    ensures Quotient(range + doubled, range) >= 1.0
    ensures Quotient(range + doubled, range) == 1.0 <==> doubled == 0.0
  {
    hide Quotient;
    QuotientSum(range, doubled, range);
    QuotientSign(doubled, range);
  }

  // The average of the curve.

  function Rectangle(y: real, t: real): real {
    y * t
  }

  /** Twice the area under the first segments. */
  function Trapezoids(points: seq<Point>): real {
    if |points| < 2 then 0.0 else
      var last := |points| - 1;
      Trapezoids(points[..last]) + Rectangle(points[last].y + points[last - 1].y, points[last].x - points[last - 1].x)
  }

  /** Half of them is the area under a segment. */
  lemma TrapezoidOfTwo(p: Point, q: Point)
    ensures Trapezoids([p, q]) / 2.0 == (p.y + q.y) / 2.0 * (q.x - p.x)
  {
    assert [p, q][..1] == [p];
    assert Trapezoids([p]) == 0.0;
  }

  /** A curve can be split at any of its points. */
  lemma {:induction false} TrapezoidsSplit(points: seq<Point>, k: nat)
    requires k < |points|
    ensures Trapezoids(points) == Trapezoids(points[..k + 1]) + Trapezoids(points[k..])
  {
    hide Rectangle;
    var last := |points| - 1;
    if k == last {
      assert points[..k + 1] == points;
      assert |points[k..]| == 1;
    } else {
      TrapezoidsSplit(points[..last], k);
      assert points[..last][..k + 1] == points[..k + 1];
      assert points[..last][k..] == points[k..][..last - k];
      assert points[k..][last - k] == points[last] && points[k..][last - k - 1] == points[last - 1];
    }
  }

  method Integrate(points: seq<Point>) returns (area: real)
    requires |points| > 1
    ensures 2.0 * area == Trapezoids(points)
  {
    area := 0.0;
    for i := 1 to |points|
      invariant area == Trapezoids(points[..i])
    {
      assert points[..i + 1][..i] == points[..i];
      area := area + (points[i].y + points[i - 1].y) * (points[i].x - points[i - 1].x);
    }
    assert points[..|points|] == points;
    area := area / 2.0;
  }

  /** The average of a curve is between its bounds. */
  method AverageY(points: seq<Point>, ghost lo: real, ghost hi: real) returns (average: real)
    requires |points| > 1 && Ascending(points) && Within(points, lo, hi)
    ensures points[0].x < points[|points| - 1].x
    ensures average * (points[|points| - 1].x - points[0].x) == Trapezoids(points) / 2.0
    ensures lo <= average <= hi
  {
    TimeGrows(points, 0, |points| - 1);
    var range := points[|points| - 1].x - points[0].x;
    var area := Integrate(points);
    AreaBounds(points, lo, hi);
    average := area / range;
    AverageBounds(area, range, lo, hi);
  }

  lemma AverageBounds(area: real, range: real, lo: real, hi: real)
    requires range > 0.0 && Rectangle(lo, range) <= area <= Rectangle(hi, range)
    ensures lo <= area / range <= hi && area / range * range == area
  {
    var a := area / range;
    assert a * range == area;
    ProductSign(a - lo, range);
    ProductSign(hi - a, range);
  }

  lemma {:induction false} AreaBounds(points: seq<Point>, lo: real, hi: real)
    requires points != [] && Ascending(points) && Within(points, lo, hi)
    ensures var range := points[|points| - 1].x - points[0].x;
            2.0 * Rectangle(lo, range) <= Trapezoids(points) <= 2.0 * Rectangle(hi, range)
  {
    hide Rectangle;
    if |points| == 1 {
      NoArea(lo);
      NoArea(hi);
    } else {
      var last := |points| - 1;
      AreaBounds(points[..last], lo, hi);
      SegmentArea(points[last].y + points[last - 1].y, points[last].x - points[last - 1].x, lo, hi);
      Distribute(lo, points[last - 1].x - points[0].x, points[last].x - points[last - 1].x);
      Distribute(hi, points[last - 1].x - points[0].x, points[last].x - points[last - 1].x);
    }
  }

  lemma NoArea(y: real)
    ensures Rectangle(y, 0.0) == 0.0
  {
  }

  lemma SegmentArea(y: real, t: real, lo: real, hi: real)
    requires t > 0.0 && 2.0 * lo <= y <= 2.0 * hi
    ensures 2.0 * Rectangle(lo, t) <= Rectangle(y, t) <= 2.0 * Rectangle(hi, t)
  {
    ProductSign(y - 2.0 * lo, t);
    ProductSign(2.0 * hi - y, t);
  }

  lemma Distribute(a: real, b: real, c: real)
    ensures Rectangle(a, b + c) == Rectangle(a, b) + Rectangle(a, c)
  {
  }

  // Safety integrity levels.

  const PFD_BOUNDS: seq<real> := [0.00001, 0.0001, 0.001, 0.01, 0.1, 1.0]
  const PFH_BOUNDS: seq<real> := [0.000000001, 0.00000001, 0.0000001, 0.000001, 0.00001, 1.0]

  /** The probability per time. */
  function Rate(p: Point): Point {
    Point(if p.x != 0.0 then Quotient(p.y, p.x) else 0.0, p.x)
  }

  function Rates(points: seq<Point>): (r: seq<Point>)
    ensures |r| == |points| && forall i | 0 <= i < |r| :: r[i] == Rate(points[i])
  {
    seq(|points|, i requires 0 <= i < |points| => Rate(points[i]))
  }

  /** The rate times the time is the probability. */
  lemma RateTimesTime(p: Point)
    ensures Rate(p).x == p.x && (p.x != 0.0 ==> Rate(p).y * p.x == p.y) && (p.x == 0.0 ==> Rate(p).y == 0.0)
  {
  }

  method Partition(points: seq<Point>, bounds: seq<real>) returns (fractions: array<real>)
    requires |points| > 1 && Ascending(points) && Buckets(bounds)
    ensures fresh(fractions) && IsHistogram(points, bounds, fractions[..])
  {
    fractions := new real[|bounds|](_ => 0.0);
    PartitionY(points, bounds, fractions);
  }

  /** The averages and histograms of the probability on demand and per hour. */
  method ComputeSil(points: seq<Point>, ghost hi: real) returns (pfdAverage: real, pfhAverage: real, pfd: array<real>, pfh: array<real>)
    requires points != [] && Ascending(points) && Within(points, 0.0, 1.0) && points[0].x >= 0.0
    requires Within(Rates(points), 0.0, hi)
    ensures 0.0 <= pfdAverage <= 1.0 && 0.0 <= pfhAverage <= Max(0.0, hi)
    ensures forall i | 0 <= i < |points| ::
              && Rates(points)[i].x == points[i].x
              && if points[i].x == 0.0 then Rates(points)[i].y == 0.0 else Rates(points)[i].y * points[i].x == points[i].y
    ensures |points| > 1 ==> IsHistogram(points, PFD_BOUNDS, pfd[..]) && IsHistogram(Rates(points), PFH_BOUNDS, pfh[..])
    ensures |points| > 1 ==>
              && pfdAverage * (points[|points| - 1].x - points[0].x) == Trapezoids(points) / 2.0
              && pfhAverage * (points[|points| - 1].x - points[0].x) == Trapezoids(Rates(points)) / 2.0
    ensures |points| == 1 ==>
              && pfhAverage == 0.0 && pfh.Length == |PFH_BOUNDS| && (forall k | 0 <= k < pfh.Length :: pfh[k] == 0.0)
              && pfdAverage == points[0].y && pfd.Length == |PFD_BOUNDS|
              && exists j | 0 <= j < |PFD_BOUNDS| ::
                   && (Lower(PFD_BOUNDS, j) < pfdAverage || j == 0) && pfdAverage <= PFD_BOUNDS[j]
                   && forall k | 0 <= k < pfd.Length :: pfd[k] == if k == j then 1.0 else 0.0
  {
    hide Rate, IsHistogram, Trapezoids;
    pfd := new real[|PFD_BOUNDS|](_ => 0.0);
    pfh := new real[|PFH_BOUNDS|](_ => 0.0);
    pfhAverage := 0.0;
    forall i | 0 <= i < |points|
      ensures Rates(points)[i].x == points[i].x
      ensures if points[i].x == 0.0 then Rates(points)[i].y == 0.0 else Rates(points)[i].y * points[i].x == points[i].y
    {
      RateTimesTime(points[i]);
    }
    if |points| == 1 {
      pfdAverage := points[0].y;
      var j := 0;
      while pfdAverage > PFD_BOUNDS[j]
        invariant 0 <= j < |PFD_BOUNDS| && (j > 0 ==> PFD_BOUNDS[j - 1] < pfdAverage)
        decreases |PFD_BOUNDS| - j
      {
        j := j + 1;
      }
      pfd[j] := 1.0;
    } else {
      pfdAverage := AverageY(points, 0.0, 1.0);
      pfd := Partition(points, PFD_BOUNDS);
      pfhAverage := AverageY(Rates(points), 0.0, hi);
      pfh := Partition(Rates(points), PFH_BOUNDS);
    }
  }

  /** The values of a function at equal steps of time from 0 on, up to the given time. */
  ghost predicate Sampled(points: seq<Point>, p: real -> real, timeStep: real, time: real) {
    && (forall i | 0 <= i < |points| :: points[i].y == p(points[i].x))
    && (forall i | 0 < i < |points| :: points[i].x - points[i - 1].x == timeStep)
    && if points == [] then time == 0.0 else points[0].x == 0.0 && points[|points| - 1].x + timeStep == time
  }

  lemma NoSamples(p: real -> real, timeStep: real)
    ensures Sampled([], p, timeStep, 0.0)
  {
  }

  lemma SampledNext(points: seq<Point>, p: real -> real, timeStep: real, time: real)
    requires Sampled(points, p, timeStep, time)
    ensures Sampled(points + [Point(p(time), time)], p, timeStep, time + timeStep)
  {
  }

  lemma SampledEnd(points: seq<Point>, p: real -> real, timeStep: real, time: real, totalTime: real)
    requires Sampled(points, p, timeStep, time) && timeStep > 0.0 && totalTime <= time && totalTime >= 0.0
    requires points != [] ==> points[|points| - 1].x < totalTime
    ensures Samples(points + [Point(p(totalTime), totalTime)], p, timeStep, totalTime)
  {
  }

  /** The values at equal steps of time from 0 on, and at the end. */
  ghost predicate Samples(points: seq<Point>, p: real -> real, timeStep: real, totalTime: real) {
    && points != [] && Ascending(points) && points[0].x == 0.0 && points[|points| - 1].x == totalTime
    && (forall i | 0 <= i < |points| :: points[i].y == p(points[i].x))
    && (forall i | 0 < i < |points| - 1 :: points[i].x - points[i - 1].x == timeStep)
    && forall i | 0 < i < |points| :: points[i].x - points[i - 1].x <= timeStep
  }

  /** The probability at equal steps of time, and at the end. */
  method CalculateProbabilityOverTime(p: real -> real, totalTime: real, timeStep: real) returns (points: seq<Point>)
    requires totalTime >= 0.0 && timeStep >= 0.0
    ensures timeStep == 0.0 ==> points == []
    ensures timeStep > 0.0 ==> Samples(points, p, timeStep, totalTime)
  {
    hide Steps, Sampled, Samples;
    points := [];
    if timeStep == 0.0 {
      return;
    }
    var time := 0.0;
    NoSamples(p, timeStep);
    while time < totalTime
      invariant Sampled(points, p, timeStep, time) && (points != [] ==> points[|points| - 1].x < totalTime)
      decreases Steps(totalTime - time, timeStep)
    {
      StepsFall(totalTime - time, timeStep);
      SampledNext(points, p, timeStep, time);
      assert totalTime - (time + timeStep) == totalTime - time - timeStep;
      points := points + [Point(p(time), time)];
      time := time + timeStep;
    }
    SampledEnd(points, p, timeStep, time, totalTime);
    points := points + [Point(p(totalTime), totalTime)];
  }

  ghost function Steps(left: real, timeStep: real): int
    requires timeStep > 0.0
  {
    Quotient(left, timeStep).Floor
  }

  lemma StepsFall(left: real, timeStep: real)
    requires timeStep > 0.0 && left > 0.0
    ensures 0 <= Steps(left - timeStep, timeStep) + 1 == Steps(left, timeStep)
  {
    hide Quotient;
    QuotientSum(left - timeStep, timeStep, timeStep);
    QuotientSign(left, timeStep);
  }
}
