/**
 * Freehand strokes: thinning to a bounded number of points, and the bounding box.
 */
module Stroke {
  import opened Bytes
  import opened Geometry

  function Rounded(p: Point): Point { Point(Round(p.x), Round(p.y)) }

  function DistanceSquared(p: Point, q: Point): real
  {
    (p.x - q.x) * (p.x - q.x) + (p.y - q.y) * (p.y - q.y)
  }

  /** The distance is at least the threshold, told without a square root. */
  predicate IsFar(p: Point, q: Point, threshold: real)
    requires threshold >= 0.0
  {
    DistanceSquared(p, q) >= threshold * threshold
  }

  const ATTEMPTS := 16

  function Threshold(attempt: nat): (t: real)
    ensures t > 0.0
  {
    if attempt == 0 then 0.004 else Threshold(attempt - 1) * 1.8
  }

  /** What is kept of the first n points: the first, and each that is far from the one kept before it. */
  function Kept(points: seq<Point>, n: nat, threshold: real): (kept: seq<Point>)
    requires 1 <= n <= |points| && threshold >= 0.0
    ensures 1 <= |kept| <= n
  {
    if n == 1 then [Rounded(points[0])]
    else
      var before := Kept(points, n - 1, threshold);
      if IsFar(points[n - 1], before[|before| - 1], threshold) then before + [Rounded(points[n - 1])] else before
  }

  /** The last point is kept whatever its distance. */
  function Thinned(points: seq<Point>, threshold: real): (kept: seq<Point>)
    requires |points| >= 2 && threshold >= 0.0
    ensures |kept| >= 2
  {
    Kept(points, |points| - 1, threshold) + [Rounded(points[|points| - 1])]
  }

  /** Of the first n points, each whose index the stride divides. */
  function Sampled(points: seq<Point>, n: nat, stride: nat): seq<Point>
    requires n <= |points| && stride >= 1
  {
    if n == 0 then []
    else Sampled(points, n - 1, stride) + (if (n - 1) % stride == 0 then [Rounded(points[n - 1])] else [])
  }

  /**
   * The stride of the even sampling. With no more than one point allowed, the
   * quotient is infinite or negative, and only the index 0 is sampled.
   */
  function Stride(n: nat, maximum: nat): (stride: nat)
    requires n >= 1
    ensures stride >= 1
  {
    if maximum < 2 then n else (n + maximum - 2) / (maximum - 1)
  }

  function Evenly(points: seq<Point>, maximum: nat): seq<Point>
    requires |points| >= 1
  {
    var all := WithTail(points, Sampled(points, |points|, Stride(|points|, maximum)));
    if |all| <= maximum then all else all[..maximum]
  }

  /** The last point is added, unless the path ends with it. */
  function WithTail(points: seq<Point>, path: seq<Point>): seq<Point>
    requires |points| >= 1
  {
    EndedBy(path, Rounded(points[|points| - 1]))
  }

  function EndedBy(path: seq<Point>, tail: Point): seq<Point>
  {
    if path == [] || path[|path| - 1] != tail then path + [tail] else path
  }

  /** The first thinning from an attempt on that has few enough points. */
  function FromAttempt(points: seq<Point>, maximum: nat, attempt: nat): seq<Point>
    requires |points| >= 2 && attempt <= ATTEMPTS
    decreases ATTEMPTS - attempt
  {
    if attempt == ATTEMPTS then Evenly(points, maximum)
    else
      var kept := Thinned(points, Threshold(attempt));
      if |kept| <= maximum then kept else FromAttempt(points, maximum, attempt + 1)
  }

  function AllRounded(points: seq<Point>): seq<Point>
  {
    seq(|points|, i requires 0 <= i < |points| => Rounded(points[i]))
  }

  function Decimated(points: seq<Point>, maximum: nat): seq<Point>
  {
    if |points| <= 2 then AllRounded(points) else FromAttempt(points, maximum, 0)
  }

  // ----- the loops

  method DecimateStroke(points: seq<Point>, maximum: nat) returns (r: seq<Point>)
    ensures r == Decimated(points, maximum)
  {
    if |points| <= 2 {
      return AllRounded(points);
    }
    var threshold := 0.004;
    var attempt := 0;
    while attempt < ATTEMPTS
      invariant 0 <= attempt <= ATTEMPTS && threshold == Threshold(attempt)
      invariant Decimated(points, maximum) == FromAttempt(points, maximum, attempt)
    {
      var kept := ThinStroke(points, threshold);
      if |kept| <= maximum {
        return kept;
      }
      threshold := threshold * 1.8;
      attempt := attempt + 1;
    }
    r := SampleEvenly(points, maximum);
  }

  /** One attempt. */
  method ThinStroke(points: seq<Point>, threshold: real) returns (kept: seq<Point>)
    requires |points| >= 2 && threshold >= 0.0
    ensures kept == Thinned(points, threshold)
  {
    kept := [Rounded(points[0])];
    for i := 1 to |points| - 1
      invariant kept == Kept(points, i, threshold)
    {
      var previous := kept[|kept| - 1];
      if IsFar(points[i], previous, threshold) {
        kept := kept + [Rounded(points[i])];
      }
    }
    kept := kept + [Rounded(points[|points| - 1])];
  }

  method SampleEvenly(points: seq<Point>, maximum: nat) returns (r: seq<Point>)
    requires |points| >= 1
    ensures r == Evenly(points, maximum)
  {
    var stride := Stride(|points|, maximum);
    var sampled: seq<Point> := [];
    for i := 0 to |points|
      invariant sampled == Sampled(points, i, stride)
    {
      if i % stride == 0 {
        sampled := sampled + [Rounded(points[i])];
      }
    }
    var tail := Rounded(points[|points| - 1]);
    if sampled == [] || sampled[|sampled| - 1] != tail {
      sampled := sampled + [tail];
    }
    r := if |sampled| <= maximum then sampled else sampled[..maximum];
  }

  // ----- no more points than asked for

  lemma {:induction false} SampledCount(points: seq<Point>, n: nat, stride: nat)
    requires n <= |points| && stride >= 1
    ensures n > 0 ==> (|Sampled(points, n, stride)| - 1) * stride <= n - 1
    ensures n > 0 ==> |Sampled(points, n, stride)| >= 1
    ensures |Sampled(points, n, stride)| == 0 ==> n == 0
    ensures n <= |Sampled(points, n, stride)| * stride
    decreases n
  {
    if n > 0 {
      SampledCount(points, n - 1, stride);
      var before := |Sampled(points, n - 1, stride)|;
      if (n - 1) % stride == 0 {
        NextMultiple(n - 1, before, stride);
      } else if n - 1 == before * stride {
        ProductIsMultiple(before, stride);
      }
    }
  }

  lemma ProductIsMultiple(a: nat, stride: nat)
    requires stride >= 1
    ensures a * stride % stride == 0
  {
    if a > 0 {
      ProductIsMultiple(a - 1, stride);
      assert a * stride == (a - 1) * stride + stride;
      assert (a * stride) % stride == ((a - 1) * stride) % stride by { AddStride((a - 1) * stride, stride); }
    }
  }

  lemma AddStride(a: nat, stride: nat)
    requires stride >= 1
    ensures (a + stride) % stride == a % stride
  {
    var q, r := a / stride, a % stride;
    assert a + stride == (q + 1) * stride + r;
    Remainder(q + 1, r, stride);
  }

  lemma Remainder(q: nat, r: nat, stride: nat)
    requires r < stride
    ensures (q * stride + r) % stride == r && (q * stride + r) / stride == q
  {
    var a := q * stride + r;
    assert a == (a / stride) * stride + a % stride;
    QuotientIsUnique(a / stride, a % stride, q, r, stride);
  }

  lemma QuotientIsUnique(q1: nat, r1: nat, q2: nat, r2: nat, stride: nat)
    requires r1 < stride && r2 < stride && q1 * stride + r1 == q2 * stride + r2
    ensures q1 == q2 && r1 == r2
  {
    NotLess(q1, r1, q2, r2, stride);
    NotLess(q2, r2, q1, r1, stride);
  }

  lemma NotLess(q1: nat, r1: nat, q2: nat, r2: nat, stride: nat)
    requires r1 < stride && q1 * stride + r1 == q2 * stride + r2
    ensures q1 >= q2
  {
    if q1 < q2 {
      assert (q2 - q1) * stride == r1 - r2;
      MultiplyMonotone(1, q2 - q1, stride);
      assert false;
    }
  }

  lemma FactorIsLess(a: int, b: nat, c: nat)
    requires a * c < b * c
    ensures a < b
  {
    if a >= b {
      MultiplyMonotone(b, a, c);
      assert false;
    }
  }

  /** A multiple that has the n-th multiple below it, and is at most the next one, is the next one. */
  lemma NextMultiple(m: nat, count: nat, stride: nat)
    requires stride >= 1 && m % stride == 0 && m <= count * stride
    requires count > 0 ==> (count - 1) * stride <= m - 1
    ensures m == count * stride
  {
    var q := m / stride;
    assert m == q * stride;
    if q < count {
      MultiplyMonotone(q, count - 1, stride);
    } else if q > count {
      MultiplyMonotone(count + 1, q, stride);
    }
  }

  lemma MultiplyMonotone(a: nat, b: nat, c: nat)
    requires a <= b
    ensures a * c <= b * c
  {
  }

  lemma StrideCovers(n: nat, maximum: nat)
    requires n >= 1 && maximum >= 2
    ensures Stride(n, maximum) * (maximum - 1) >= n
  {
    var m, a := maximum - 1, n + maximum - 2;
    assert a == (a / m) * m + a % m;
  }

  lemma SampledIsFew(points: seq<Point>, maximum: nat)
    requires |points| >= 1 && maximum >= 2
    ensures |Sampled(points, |points|, Stride(|points|, maximum))| <= maximum - 1
  {
    var n, stride := |points|, Stride(|points|, maximum);
    var count := |Sampled(points, n, stride)|;
    SampledCount(points, n, stride);
    StrideCovers(n, maximum);
    FactorIsLess(count - 1, maximum - 1, stride);
  }

  /** A stroke is cut to the maximum; two points or fewer are left as they are. */
  lemma DecimatedIsBounded(points: seq<Point>, maximum: nat)
    ensures |points| <= 2 ==> |Decimated(points, maximum)| == |points|
    ensures |points| > 2 ==> |Decimated(points, maximum)| <= maximum
  {
    if |points| > 2 {
      FromAttemptIsBounded(points, maximum, 0);
    }
  }

  lemma {:induction false} FromAttemptIsBounded(points: seq<Point>, maximum: nat, attempt: nat)
    requires |points| >= 2 && attempt <= ATTEMPTS
    ensures |FromAttempt(points, maximum, attempt)| <= maximum
    decreases ATTEMPTS - attempt
  {
    if attempt < ATTEMPTS {
      FromAttemptIsBounded(points, maximum, attempt + 1);
    }
  }

  // ----- the ends are kept, and the rest is in order

  /** The points at these indices, rounded, are the path. */
  predicate Picks(points: seq<Point>, path: seq<Point>, indices: seq<nat>)
  {
    && |indices| == |path|
    && (forall i | 0 <= i < |path| :: indices[i] < |points| && path[i] == Rounded(points[indices[i]]))
    && (forall i, j | 0 <= i < j < |indices| :: indices[i] < indices[j])
  }

  lemma PickNext(points: seq<Point>, path: seq<Point>, indices: seq<nat>, k: nat)
    requires Picks(points, path, indices) && k < |points| && forall i | 0 <= i < |indices| :: indices[i] < k
    ensures Picks(points, path + [Rounded(points[k])], indices + [k])
  {
  }

  lemma AllBelowLast(points: seq<Point>, path: seq<Point>, indices: seq<nat>)
    requires points != [] && path != [] && Picks(points, path, indices)
    requires path[|path| - 1] != Rounded(points[|points| - 1])
    ensures forall i | 0 <= i < |indices| :: indices[i] < |points| - 1
  {
    var last := indices[|indices| - 1];
    assert path[|path| - 1] == Rounded(points[last]);
    assert last < |points| - 1;
  }

  lemma PickPrefix(points: seq<Point>, path: seq<Point>, indices: seq<nat>, m: nat)
    requires Picks(points, path, indices) && m <= |path|
    ensures Picks(points, path[..m], indices[..m])
  {
  }

  lemma {:induction false} KeptPicks(points: seq<Point>, n: nat, threshold: real) returns (indices: seq<nat>)
    requires 1 <= n <= |points| && threshold >= 0.0
    ensures Picks(points, Kept(points, n, threshold), indices) && indices[0] == 0
    ensures forall i | 0 <= i < |indices| :: indices[i] < n
    decreases n
  {
    if n == 1 {
      indices := [0];
    } else {
      indices := KeptPicks(points, n - 1, threshold);
      KeptStep(points, n, threshold);
      if Kept(points, n, threshold) != Kept(points, n - 1, threshold) {
        PickNext(points, Kept(points, n - 1, threshold), indices, n - 1);
        indices := indices + [n - 1];
      }
    }
  }

  /** A point is kept or it is not. */
  lemma KeptStep(points: seq<Point>, n: nat, threshold: real)
    requires 2 <= n <= |points| && threshold >= 0.0
    ensures var before := Kept(points, n - 1, threshold);
            Kept(points, n, threshold) == before || Kept(points, n, threshold) == before + [Rounded(points[n - 1])]
  {
  }

  lemma {:induction false} SampledPicks(points: seq<Point>, n: nat, stride: nat) returns (indices: seq<nat>)
    requires n <= |points| && stride >= 1
    ensures Picks(points, Sampled(points, n, stride), indices) && (n > 0 ==> |indices| > 0 && indices[0] == 0)
    ensures forall i | 0 <= i < |indices| :: indices[i] < n
    decreases n
  {
    if n == 0 {
      indices := [];
    } else {
      indices := SampledPicks(points, n - 1, stride);
      if (n - 1) % stride == 0 {
        PickNext(points, Sampled(points, n - 1, stride), indices, n - 1);
        indices := indices + [n - 1];
      }
    }
  }

  /** The path begins with the first point and ends with the last. */
  predicate KeepsEnds(points: seq<Point>, path: seq<Point>)
    requires points != []
  {
    path != [] && path[0] == Rounded(points[0]) && path[|path| - 1] == Rounded(points[|points| - 1])
  }

  lemma ThinnedPicks(points: seq<Point>, threshold: real) returns (indices: seq<nat>)
    requires |points| >= 2 && threshold >= 0.0
    ensures Picks(points, Thinned(points, threshold), indices) && KeepsEnds(points, Thinned(points, threshold))
  {
    indices := KeptPicks(points, |points| - 1, threshold);
    PickNext(points, Kept(points, |points| - 1, threshold), indices, |points| - 1);
    indices := indices + [|points| - 1];
  }

  lemma EvenlyPicks(points: seq<Point>, maximum: nat) returns (indices: seq<nat>)
    requires |points| >= 1
    ensures Picks(points, Evenly(points, maximum), indices)
    ensures maximum >= 2 ==> KeepsEnds(points, Evenly(points, maximum))
  {
    var n, stride := |points|, Stride(|points|, maximum);
    indices := SampledPicks(points, n, stride);
    TailKeepsEnds(points, Sampled(points, n, stride));
    indices := WithTailPicks(points, Sampled(points, n, stride), indices);
    if maximum >= 2 {
      SampledIsFew(points, maximum);
    }
    var all := WithTail(points, Sampled(points, n, stride));
    if |all| > maximum {
      PickPrefix(points, all, indices, maximum);
      indices := indices[..maximum];
    }
  }

  lemma WithTailPicks(points: seq<Point>, path: seq<Point>, indices: seq<nat>) returns (more: seq<nat>)
    requires points != [] && path != [] && Picks(points, path, indices)
    ensures Picks(points, WithTail(points, path), more)
  {
    var tail := Rounded(points[|points| - 1]);
    EndsAreKept(path, tail);
    assert WithTail(points, path) == EndedBy(path, tail);
    if path[|path| - 1] == tail {
      more := indices;
    } else {
      more := PickLast(points, path, indices);
    }
  }

  lemma PickLast(points: seq<Point>, path: seq<Point>, indices: seq<nat>) returns (more: seq<nat>)
    requires points != [] && path != [] && Picks(points, path, indices)
    requires path[|path| - 1] != Rounded(points[|points| - 1])
    ensures Picks(points, path + [Rounded(points[|points| - 1])], more)
  {
    AllBelowLast(points, path, indices);
    PickNext(points, path, indices, |points| - 1);
    more := indices + [|points| - 1];
  }

  lemma TailKeepsEnds(points: seq<Point>, path: seq<Point>)
    requires points != [] && path != [] && path[0] == Rounded(points[0])
    ensures KeepsEnds(points, WithTail(points, path)) && |WithTail(points, path)| <= |path| + 1
  {
    EndsAreKept(path, Rounded(points[|points| - 1]));
  }

  lemma EndsAreKept(path: seq<Point>, tail: Point)
    requires path != []
    ensures var ended := EndedBy(path, tail);
            0 < |ended| <= |path| + 1 && ended[0] == path[0] && ended[|ended| - 1] == tail
    ensures path[|path| - 1] == tail ==> EndedBy(path, tail) == path
    ensures path[|path| - 1] != tail ==> EndedBy(path, tail) == path + [tail]
  {
  }

  lemma {:induction false} FromAttemptPicks(points: seq<Point>, maximum: nat, attempt: nat) returns (indices: seq<nat>)
    requires |points| >= 2 && attempt <= ATTEMPTS
    ensures Picks(points, FromAttempt(points, maximum, attempt), indices)
    ensures maximum >= 2 ==> KeepsEnds(points, FromAttempt(points, maximum, attempt))
    decreases ATTEMPTS - attempt
  {
    if attempt == ATTEMPTS {
      indices := EvenlyPicks(points, maximum);
    } else if |Thinned(points, Threshold(attempt))| <= maximum {
      indices := ThinnedPicks(points, Threshold(attempt));
    } else {
      indices := FromAttemptPicks(points, maximum, attempt + 1);
    }
  }

  /** Only points of the stroke are kept, in the order of the stroke, and both its ends are. */
  lemma DecimatedPicks(points: seq<Point>, maximum: nat) returns (indices: seq<nat>)
    ensures Picks(points, Decimated(points, maximum), indices)
    ensures points != [] && maximum >= 2 ==> KeepsEnds(points, Decimated(points, maximum))
  {
    if |points| <= 2 {
      indices := seq(|points|, i => i);
    } else {
      indices := FromAttemptPicks(points, maximum, 0);
    }
  }

  // ----- within the image the guard is never reached

  predicate InImage(p: Point) { InRange(p.x) && InRange(p.y) }

  lemma SquareOfFraction(d: real)
    requires -1.0 <= d <= 1.0
    ensures d * d <= 1.0
  {
    if d >= 0.0 {
      MultiplyKeepsOrder(d, 1.0, d);
    } else {
      var e := -d;
      MultiplyKeepsOrder(e, 1.0, e);
      assert d * d == e * e;
    }
  }

  lemma SquareOfUnit(a: real, b: real)
    requires InRange(a) && InRange(b)
    ensures (a - b) * (a - b) <= 1.0
  {
    SquareOfFraction(a - b);
  }

  lemma TenthThreshold()
    ensures Threshold(10) > 1.428
  {
    assert Threshold(1) == 0.0072;
    assert Threshold(2) == 0.01296;
    assert Threshold(3) == 0.023328;
    assert Threshold(4) == 0.0419904;
    assert Threshold(5) == 0.07558272;
    assert Threshold(6) == 0.136048896;
    assert Threshold(7) == 0.2448880128;
    assert Threshold(8) == 0.44079842304;
    assert Threshold(9) == 0.793437161472;
  }

  lemma NothingIsFar(p: Point, q: Point)
    requires InImage(p) && InImage(q)
    ensures !IsFar(p, q, Threshold(10))
  {
    SquareOfUnit(p.x, q.x);
    SquareOfUnit(p.y, q.y);
    TenthThreshold();
    var t := Threshold(10);
    MultiplyKeepsOrder(1.428, t, t);
    MultiplyKeepsOrder(1.428, t, 1.428);
  }

  lemma {:induction false} OnlyTheFirstIsKept(points: seq<Point>, n: nat)
    requires 1 <= n <= |points| && forall p | p in points :: InImage(p)
    ensures Kept(points, n, Threshold(10)) == [Rounded(points[0])]
    decreases n
  {
    if n > 1 {
      OnlyTheFirstIsKept(points, n - 1);
      RoundIsNearest(points[0].x);
      RoundIsNearest(points[0].y);
      NothingIsFar(points[n - 1], Rounded(points[0]));
    }
  }

  /**
   * Every stroke inside the image is thinned by one of the first eleven attempts:
   * the even sampling is never reached.
   */
  lemma GuardIsUnreachable(points: seq<Point>, maximum: nat) returns (attempt: nat)
    requires |points| > 2 && maximum >= 2 && forall p | p in points :: InImage(p)
    ensures attempt <= 10 && Decimated(points, maximum) == Thinned(points, Threshold(attempt))
    ensures |Thinned(points, Threshold(attempt))| <= maximum
    ensures forall k | 0 <= k < attempt :: |Thinned(points, Threshold(k))| > maximum
  {
    OnlyTheFirstIsKept(points, |points| - 1);
    attempt := FirstAttempt(points, maximum, 0, 10);
  }

  /** The attempt that is taken is the first that has few enough points. */
  lemma {:induction false} FirstAttempt(points: seq<Point>, maximum: nat, from: nat, last: nat) returns (attempt: nat)
    requires |points| >= 2 && from <= last < ATTEMPTS && |Thinned(points, Threshold(last))| <= maximum
    ensures from <= attempt <= last
    ensures FromAttempt(points, maximum, from) == Thinned(points, Threshold(attempt))
    ensures |Thinned(points, Threshold(attempt))| <= maximum
    ensures forall k | from <= k < attempt :: |Thinned(points, Threshold(k))| > maximum
    decreases last - from
  {
    if |Thinned(points, Threshold(from))| <= maximum {
      attempt := from;
    } else {
      attempt := FirstAttempt(points, maximum, from + 1, last);
    }
  }

  // ----- the bounding box

  /** The box holds the path, and each of its sides touches it. An empty path has no extent. */
  predicate IsBoundsOf(b: Box, path: seq<Point>)
  {
    if path == [] then b == Box(0.0, 0.0, 0.0, 0.0)
    else
      && (forall i | 0 <= i < |path| :: b.x <= path[i].x <= b.x + b.width && b.y <= path[i].y <= b.y + b.height)
      && (exists i | 0 <= i < |path| :: path[i].x == b.x) && (exists i | 0 <= i < |path| :: path[i].y == b.y)
      && (exists i | 0 <= i < |path| :: path[i].x == b.x + b.width)
      && (exists i | 0 <= i < |path| :: path[i].y == b.y + b.height)
  }

  method PathBounds(path: seq<Point>) returns (b: Box)
    ensures IsBoundsOf(b, path)
  {
    if path == [] {
      return Box(0.0, 0.0, 0.0, 0.0);
    }
    var left, top, right, bottom := path[0].x, path[0].y, path[0].x, path[0].y;
    for k := 0 to |path|
      invariant forall i | 0 <= i < k :: left <= path[i].x <= right && top <= path[i].y <= bottom
      invariant exists i | 0 <= i < |path| :: path[i].x == left
      invariant exists i | 0 <= i < |path| :: path[i].y == top
      invariant exists i | 0 <= i < |path| :: path[i].x == right
      invariant exists i | 0 <= i < |path| :: path[i].y == bottom
    {
      left := Min(left, path[k].x);
      top := Min(top, path[k].y);
      right := Max(right, path[k].x);
      bottom := Max(bottom, path[k].y);
    }
    b := Box(left, top, right - left, bottom - top);
  }

  lemma BoundsAreUnique(b: Box, c: Box, path: seq<Point>)
    requires IsBoundsOf(b, path) && IsBoundsOf(c, path)
    ensures b == c
  {
    if path != [] {
      var i :| 0 <= i < |path| && path[i].x == b.x;
      var j :| 0 <= j < |path| && path[j].x == c.x;
      var k :| 0 <= k < |path| && path[k].y == b.y;
      var l :| 0 <= l < |path| && path[l].y == c.y;
    }
  }

  // ----- a freehand mark

  function PathItems(path: seq<Point>): seq<Item>
  {
    seq(|path|, i requires 0 <= i < |path| => Entry(Some(Number(path[i].x)), Some(Number(path[i].y)), []))
  }

  function FreehandGeometry(path: seq<Point>, b: Box): Geometry
  {
    map[X := Number(b.x), Y := Number(b.y), Width := Number(b.width), Height := Number(b.height),
        Path := Points(PathItems(path))]
  }

  lemma PathIsInImage(points: seq<Point>)
    ensures forall p | p in Decimated(points, MAX_PATH_POINTS) :: InImage(p)
  {
    var path := Decimated(points, MAX_PATH_POINTS);
    var indices := DecimatedPicks(points, MAX_PATH_POINTS);
    forall i | 0 <= i < |path| ensures InImage(path[i]) {
      RoundIsNearest(points[indices[i]].x);
      RoundIsNearest(points[indices[i]].y);
    }
  }

  /**
   * A decimated stroke with its bounding box is a valid freehand mark, wherever its
   * points are, exactly when there are two points or more.
   */
  lemma FreehandIsValid(points: seq<Point>, b: Box)
    requires IsBoundsOf(b, Decimated(points, MAX_PATH_POINTS))
    ensures Faults(Freehand, FreehandGeometry(Decimated(points, MAX_PATH_POINTS), b)) == [] <==> |points| >= 2
  {
    PathIsInImage(points);
    DecimatedHasTwo(points, MAX_PATH_POINTS);
    BoundedPathIsValid(Decimated(points, MAX_PATH_POINTS), b);
  }

  lemma DecimatedHasTwo(points: seq<Point>, maximum: nat)
    requires maximum >= 3
    ensures |Decimated(points, maximum)| <= maximum
    ensures |Decimated(points, maximum)| >= 2 <==> |points| >= 2
  {
    DecimatedIsBounded(points, maximum);
    if |points| > 2 {
      FromAttemptHasTwo(points, maximum, 0);
    }
  }

  lemma BoundedPathIsValid(path: seq<Point>, b: Box)
    requires IsBoundsOf(b, path) && |path| <= MAX_PATH_POINTS && forall p | p in path :: InImage(p)
    ensures Faults(Freehand, FreehandGeometry(path, b)) == [] <==> |path| >= 2
  {
    var g := FreehandGeometry(path, b);
    FaultsAreExact(Freehand, g);
    PathIsValid(path);
    if |path| >= 2 {
      BoundsAreInImage(path, b);
      FreehandPartsAreValid(path, b);
    } else {
      assert !PartIsValid(Freehand, g, Path);
    }
  }

  lemma PathIsValid(path: seq<Point>)
    requires |path| <= MAX_PATH_POINTS && forall p | p in path :: InImage(p)
    ensures IsPath(Points(PathItems(path))) <==> |path| >= 2
  {
    forall i | 0 <= i < |path| ensures IsPathPoint(PathItems(path)[i]) {
      assert path[i] in path;
    }
  }

  lemma FreehandPartsAreValid(path: seq<Point>, b: Box)
    requires IsPath(Points(PathItems(path)))
    requires InRange(b.x) && InRange(b.y) && InRange(b.width) && InRange(b.height)
    ensures forall m: Part :: PartIsValid(Freehand, FreehandGeometry(path, b), m)
  {
  }

  lemma BoundsAreInImage(path: seq<Point>, b: Box)
    requires path != [] && IsBoundsOf(b, path) && forall p | p in path :: InImage(p)
    ensures InRange(b.x) && InRange(b.y) && InRange(b.width) && InRange(b.height)
    ensures b.x + b.width <= 1.0 && b.y + b.height <= 1.0
  {
    var i :| 0 <= i < |path| && path[i].x == b.x;
    var j :| 0 <= j < |path| && path[j].x == b.x + b.width;
    var k :| 0 <= k < |path| && path[k].y == b.y;
    var l :| 0 <= l < |path| && path[l].y == b.y + b.height;
    assert InImage(path[i]) && InImage(path[j]) && InImage(path[k]) && InImage(path[l]);
  }

  lemma {:induction false} FromAttemptHasTwo(points: seq<Point>, maximum: nat, attempt: nat)
    requires |points| > 2 && maximum >= 3 && attempt <= ATTEMPTS
    ensures |FromAttempt(points, maximum, attempt)| >= 2
    decreases ATTEMPTS - attempt
  {
    if attempt < ATTEMPTS {
      FromAttemptHasTwo(points, maximum, attempt + 1);
    } else {
      SampledHasTwo(points, maximum);
    }
  }

  lemma SampledHasTwo(points: seq<Point>, maximum: nat)
    requires |points| >= 2 && maximum >= 3
    ensures |Sampled(points, |points|, Stride(|points|, maximum))| >= 2
  {
    var n, m := |points|, maximum - 1;
    var stride := Stride(n, maximum);
    SampledCount(points, n, stride);
    var a := n + m - 1;
    assert stride == a / m && a == stride * m + a % m;
    MultiplyMonotone(2, m, stride);
    StrideIsLess(n, m, stride);
  }

  /** At least two strides fit. */
  lemma StrideIsLess(n: nat, m: nat, stride: nat)
    requires n >= 2 && m >= 2 && stride * m <= n + m - 1
    ensures stride < n
  {
    if stride >= n {
      MultiplyMonotone(n, stride, m);
      assert n * m == n + n * (m - 1);
      MultiplyMonotone(2, n, m - 1);
      assert false;
    }
  }
}
