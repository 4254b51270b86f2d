// Route geometry of the tracker engine (src/core/TrackerEngine.ts, lines 5-73):
// planar distance, the sub-path between the route nodes nearest to two points,
// and the point at a given fraction of a sub-path's arc length.
//
// JavaScript's Math.sqrt has no counterpart here, so every member that measures
// a distance takes it as a parameter `sqrt`. The lemmas that need anything of it
// assume only SqrtLaws, which the real square root satisfies.
module Geometry {
  import opened Common

  /** A point, treated as planar: latitude and longitude in degrees. */
  datatype Coord = Coord(lat: real, lon: real)

  /** A square is never negative. */
  lemma SquareNonNegative(x: real)
    ensures 0.0 <= x * x
  {
    if x < 0.0 {
      assert 0.0 < (-x) * (-x) == x * x;
    }
  }

  /** The sum of squares under calcDistance's square root. */
  function SqDist(p: Coord, q: Coord): (d: real)
    ensures 0.0 <= d
    ensures p == q ==> d == 0.0
  {
    var dx := p.lon - q.lon;
    var dy := p.lat - q.lat;
    SquareNonNegative(dx);
    SquareNonNegative(dy);
    dx * dx + dy * dy
  }

  /** What the model assumes of Math.sqrt: the root of 0 is 0, and no root is negative. */
  ghost predicate SqrtLaws(sqrt: real -> real)
  {
    sqrt(0.0) == 0.0 && forall x :: 0.0 <= x ==> 0.0 <= sqrt(x)
  }

  /** calcDistance: Euclidean distance in the (lon, lat) plane. */
  function Dist(p: Coord, q: Coord, sqrt: real -> real): real
  {
    sqrt(SqDist(p, q))
  }

  /** Distances are non-negative and vanish between equal points. */
  lemma DistLaws(p: Coord, q: Coord, sqrt: real -> real)
    requires SqrtLaws(sqrt)
    ensures 0.0 <= Dist(p, q, sqrt)
    ensures p == q ==> Dist(p, q, sqrt) == 0.0
  {
  }

  // ---------------------------------------------------------------------------
  // Nearest route node (the scan in getSubPath)
  // ---------------------------------------------------------------------------

  /** i is the first index at which the distance from path[i] to target is least. */
  ghost predicate IsFirstNearest(path: seq<Coord>, target: Coord, sqrt: real -> real, i: int)
  {
    && 0 <= i < |path|
    && (forall j :: 0 <= j < |path| ==> Dist(path[i], target, sqrt) <= Dist(path[j], target, sqrt))
    && (forall j :: 0 <= j < i ==> Dist(path[i], target, sqrt) < Dist(path[j], target, sqrt))
  }

  /** The index the scan holds after it has looked at the first n nodes: a node
      replaces the running minimum only when it is strictly closer. */
  function NearestAmong(path: seq<Coord>, target: Coord, sqrt: real -> real, n: nat): (i: nat)
    requires 1 <= n <= |path|
    ensures IsFirstNearest(path[..n], target, sqrt, i)
    decreases n
  {
    if n == 1 then 0
    else
      var best := NearestAmong(path, target, sqrt, n - 1);
      assert path[..n - 1] == path[..n][..n - 1];
      if Dist(path[n - 1], target, sqrt) < Dist(path[best], target, sqrt) then n - 1 else best
  }

  /** The route node that getSubPath snaps a point to. */
  function Nearest(path: seq<Coord>, target: Coord, sqrt: real -> real): (i: nat)
    requires |path| > 0
    ensures IsFirstNearest(path, target, sqrt, i)
  {
    assert path[..|path|] == path;
    NearestAmong(path, target, sqrt, |path|)
  }

  /** A point that is itself a route node snaps to a node at distance 0, no later than that node. */
  lemma NearestOfNode(path: seq<Coord>, target: Coord, sqrt: real -> real, k: int)
    requires SqrtLaws(sqrt)
    requires 0 <= k < |path| && path[k] == target
    ensures Nearest(path, target, sqrt) <= k
    ensures Dist(path[Nearest(path, target, sqrt)], target, sqrt) == 0.0
  {
    var n := Nearest(path, target, sqrt);
    DistLaws(path[k], target, sqrt);
    DistLaws(path[n], target, sqrt);
  }

  // ---------------------------------------------------------------------------
  // Sub-path between two points
  // ---------------------------------------------------------------------------

  /** The value getSubPath returns: the inclusive run of route nodes from the node
      nearest to start to the node nearest to end, in that direction. An empty
      route gives the empty run (JavaScript's slice clamps to the length). */
  function SubPath(path: seq<Coord>, start: Coord, end: Coord, sqrt: real -> real): seq<Coord>
  {
    if |path| == 0 then [] else Run(path, Nearest(path, start, sqrt), Nearest(path, end, sqrt))
  }

  /** The inclusive run of route nodes from node i to node j: the slice, reversed
      when i lies after j. */
  function Run(path: seq<Coord>, i: nat, j: nat): seq<Coord>
    requires i < |path| && j < |path|
  {
    if i <= j then path[i..j + 1] else Reverse(path[j..i + 1])
  }

  /** The sub-path walks the route one node at a time from the start's nearest
      node to the end's nearest node, forwards or backwards. */
  lemma SubPathWalk(path: seq<Coord>, start: Coord, end: Coord, sqrt: real -> real)
    requires |path| > 0
    ensures var i, j, r := Nearest(path, start, sqrt), Nearest(path, end, sqrt), SubPath(path, start, end, sqrt);
      && |r| == (if i <= j then j - i else i - j) + 1
      && r[0] == path[i]
      && r[|r| - 1] == path[j]
      && (forall k :: 0 <= k < |r| ==> r[k] == path[if i <= j then i + k else i - k])
      && (i <= j ==> r == path[i..j + 1])
      && (j < i ==> r == Reverse(path[j..i + 1]))
  {
    RunWalk(path, Nearest(path, start, sqrt), Nearest(path, end, sqrt));
  }

  /** A run goes node by node from node i to node j, forwards or backwards. */
  lemma RunWalk(path: seq<Coord>, i: nat, j: nat)
    requires i < |path| && j < |path|
    ensures var r := Run(path, i, j);
      && |r| == (if i <= j then j - i else i - j) + 1
      && r[0] == path[i]
      && r[|r| - 1] == path[j]
      && (forall k :: 0 <= k < |r| ==> r[k] == path[if i <= j then i + k else i - k])
      && (i <= j ==> r == path[i..j + 1])
      && (j < i ==> r == Reverse(path[j..i + 1]))
  {
    if i <= j {
      ForwardRun(path, i, j);
    } else {
      BackwardRun(path, i, j);
    }
  }

  /** The slice from i to j, read forwards. */
  lemma ForwardRun(path: seq<Coord>, i: int, j: int)
    requires 0 <= i <= j < |path|
    ensures var r := path[i..j + 1];
      && |r| == j - i + 1 && r[0] == path[i] && r[|r| - 1] == path[j]
      && forall k :: 0 <= k < |r| ==> r[k] == path[i + k]
  {
  }

  /** The slice from j to i, reversed: read backwards from i. */
  lemma BackwardRun(path: seq<Coord>, i: int, j: int)
    requires 0 <= j < i < |path|
    ensures var r := Reverse(path[j..i + 1]);
      && |r| == i - j + 1 && r[0] == path[i] && r[|r| - 1] == path[j]
      && forall k :: 0 <= k < |r| ==> r[k] == path[i - k]
  {
    var run := path[j..i + 1];
    var r := Reverse(run);
    assert forall k :: 0 <= k < |r| ==> r[k] == run[|run| - 1 - k] == path[i - k];
  }

  /** `d < minDist` in getSubPath, where the running minimum starts at Infinity (None). */
  predicate Below(d: real, min: Option<real>)
  {
    min.None? || d < min.value
  }

  /** getSubPath: one scan finds both nearest nodes, then the slice is taken
      and, when the start lies after the end, reversed in place. */
  method GetSubPath(path: seq<Coord>, start: Coord, end: Coord, sqrt: real -> real) returns (sub: seq<Coord>)
    ensures sub == SubPath(path, start, end, sqrt)
  {
    var startIdx, endIdx := ScanNearest(path, start, end, sqrt);
    if |path| == 0 {
      sub := [];
    } else if startIdx <= endIdx {
      sub := path[startIdx..endIdx + 1];
    } else {
      sub := ReversedRun(path, endIdx, startIdx);
    }
  }

  /** The loop of getSubPath: it keeps both running minima, each starting at
      Infinity (None), and moves an index only to a strictly closer node. */
  method ScanNearest(path: seq<Coord>, start: Coord, end: Coord, sqrt: real -> real) returns (startIdx: nat, endIdx: nat)
    ensures |path| == 0 ==> startIdx == 0 && endIdx == 0
    ensures 0 < |path| ==> startIdx == Nearest(path, start, sqrt) && endIdx == Nearest(path, end, sqrt)
  {
    startIdx, endIdx := 0, 0;
    var minStartDist: Option<real> := None;
    var minEndDist: Option<real> := None;
    for i := 0 to |path|
      invariant i == 0 ==> startIdx == 0 && endIdx == 0 && minStartDist.None? && minEndDist.None?
      invariant 0 < i ==> startIdx == NearestAmong(path, start, sqrt, i)
      invariant 0 < i ==> minStartDist == Some(Dist(path[startIdx], start, sqrt))
      invariant 0 < i ==> endIdx == NearestAmong(path, end, sqrt, i)
      invariant 0 < i ==> minEndDist == Some(Dist(path[endIdx], end, sqrt))
    {
      var p := path[i];
      var sd := Dist(p, start, sqrt);
      if Below(sd, minStartDist) {
        minStartDist := Some(sd);
        startIdx := i;
      }
      var ed := Dist(p, end, sqrt);
      if Below(ed, minEndDist) {
        minEndDist := Some(ed);
        endIdx := i;
      }
    }
    assert path[..|path|] == path;
  }

  /** path.slice(lo, hi + 1) followed by reverse() on the copy. */
  method ReversedRun(path: seq<Coord>, lo: nat, hi: nat) returns (sub: seq<Coord>)
    requires lo <= hi < |path|
    ensures sub == Reverse(path[lo..hi + 1])
  {
    var a := new Coord[hi + 1 - lo];
    forall k | 0 <= k < a.Length {
      a[k] := path[lo + k];
    }
    assert a[..] == path[lo..hi + 1];
    ReverseInPlace(a);
    sub := a[..];
  }

  // ---------------------------------------------------------------------------
  // Interpolation by arc length (interpolateAlongSubPath)
  // ---------------------------------------------------------------------------

  /** The lengths of the consecutive segments of a sub-path. */
  function Segments(sub: seq<Coord>, sqrt: real -> real): (segs: seq<real>)
    ensures |sub| <= 1 ==> segs == []
    ensures 1 < |sub| ==> |segs| == |sub| - 1
    ensures forall i :: 0 <= i < |segs| ==> segs[i] == Dist(sub[i], sub[i + 1], sqrt)
  {
    if |sub| <= 1 then []
    else seq(|sub| - 1, i requires 0 <= i < |sub| - 1 => Dist(sub[i], sub[i + 1], sqrt))
  }

  /** Left-to-right sum, in the order the source accumulates. */
  function Sum(s: seq<real>): real
  {
    if s == [] then 0.0 else Sum(s[..|s| - 1]) + s[|s| - 1]
  }

  /** Where the walk over the segments stops: the segment index and the arc
      length accumulated before it. */
  datatype Hit = Hit(index: nat, before: real)

  /** The walk in interpolateAlongSubPath from segment k on, with acc the length
      accumulated so far: it stops at the first segment whose end reaches target. */
  function Reach(segs: seq<real>, target: real, k: nat, acc: real): (r: Option<Hit>)
    requires k <= |segs|
    ensures r.Some? ==> k <= r.value.index < |segs|
    decreases |segs| - k
  {
    if k == |segs| then None
    else if acc + segs[k] >= target then Some(Hit(k, acc))
    else Reach(segs, target, k + 1, acc + segs[k])
  }

  /** targetDist: the arc length a fraction progress of the way along a path of
      length total. */
  function TargetLength(total: real, progress: real): real
  {
    total * progress
  }

  /** The point at fraction t of the straight segment from p1 to p2. */
  function Lerp(p1: Coord, p2: Coord, t: real): Coord
  {
    Coord(p1.lat + (p2.lat - p1.lat) * t, p1.lon + (p2.lon - p1.lon) * t)
  }

  /** segProgress: the fraction of a segment of length seg consumed when the
      target arc length is reached after acc; a zero-length segment gives 0. */
  function SegmentFraction(target: real, acc: real, seg: real): real
  {
    if seg == 0.0 then 0.0 else (target - acc) / seg
  }

  /** The value interpolateAlongSubPath returns. */
  function Interpolate(sub: seq<Coord>, progress: real, sqrt: real -> real): Coord
  {
    if |sub| == 0 then Coord(0.0, 0.0)
    else if |sub| == 1 then sub[0]
    else
      var segs := Segments(sub, sqrt);
      var total := Sum(segs);
      if total == 0.0 then sub[0]
      else
        var target := TargetLength(total, progress);
        match Reach(segs, target, 0, 0.0)
        case Some(Hit(i, acc)) => Lerp(sub[i], sub[i + 1], SegmentFraction(target, acc, segs[i]))
        case None => sub[|sub| - 1]
  }

  /** interpolateAlongSubPath: collects the segment lengths and their total in one
      loop, then walks the segments until the accumulated length reaches
      total * progress and interpolates within that segment. */
  method InterpolateAlongSubPath(subPath: seq<Coord>, progress: real, sqrt: real -> real) returns (p: Coord)
    ensures p == Interpolate(subPath, progress, sqrt)
    ensures |subPath| == 0 ==> p == Coord(0.0, 0.0)
    ensures |subPath| == 1 ==> p == subPath[0]
    ensures 1 < |subPath| && Sum(Segments(subPath, sqrt)) == 0.0 ==> p == subPath[0]
  {
    if |subPath| == 0 {
      return Coord(0.0, 0.0);
    }
    if |subPath| == 1 {
      return subPath[0];
    }
    var segments, totalDist := MeasureSegments(subPath, sqrt);
    if totalDist == 0.0 {
      return subPath[0];
    }
    var targetDist := TargetLength(totalDist, progress);
    var hit := WalkSegments(segments, targetDist);
    if hit.Some? {
      var i, accumulated := hit.value.index, hit.value.before;
      var segDist := segments[i];
      var segProgress := SegmentFraction(targetDist, accumulated, segDist);
      return Lerp(subPath[i], subPath[i + 1], segProgress);
    }
    return subPath[|subPath| - 1];
  }

  /** The first loop of interpolateAlongSubPath: the segment lengths and their total. */
  method MeasureSegments(subPath: seq<Coord>, sqrt: real -> real) returns (segments: seq<real>, totalDist: real)
    requires 1 < |subPath|
    ensures segments == Segments(subPath, sqrt)
    ensures totalDist == Sum(segments)
  {
    totalDist := 0.0;
    segments := [];
    for i := 0 to |subPath| - 1
      invariant segments == Segments(subPath, sqrt)[..i]
      invariant totalDist == Sum(segments)
    {
      var d := Dist(subPath[i], subPath[i + 1], sqrt);
      assert segments + [d] == Segments(subPath, sqrt)[..i + 1];
      segments := segments + [d];
      totalDist := totalDist + d;
    }
    assert segments == Segments(subPath, sqrt);
  }

  /** The second loop of interpolateAlongSubPath: accumulates the segment lengths
      until the next one reaches the target and reports that segment. */
  method WalkSegments(segments: seq<real>, targetDist: real) returns (hit: Option<Hit>)
    ensures hit == Reach(segments, targetDist, 0, 0.0)
  {
    var accumulated := 0.0;
    for i := 0 to |segments|
      invariant Reach(segments, targetDist, 0, 0.0) == Reach(segments, targetDist, i, accumulated)
    {
      var segDist := segments[i];
      if accumulated + segDist >= targetDist {
        return Some(Hit(i, accumulated));
      }
      accumulated := accumulated + segDist;
    }
    return None;
  }

  // ---------------------------------------------------------------------------
  // What the interpolation means
  // ---------------------------------------------------------------------------

  /** A sum of non-negative lengths is non-negative and at least each of its prefix sums. */
  lemma {:induction false} SumPrefix(s: seq<real>, k: nat)
    requires forall i :: 0 <= i < |s| ==> 0.0 <= s[i]
    requires k <= |s|
    ensures 0.0 <= Sum(s[..k]) <= Sum(s)
    decreases |s|
  {
    if s != [] {
      var init := s[..|s| - 1];
      assert Sum(s) == Sum(init) + s[|s| - 1];
      if k == |s| {
        assert s[..k] == s;
        assert init[..|init|] == init;
        SumPrefix(init, |init|);
      } else {
        assert s[..k] == init[..k];
        SumPrefix(init, k);
      }
    }
  }

  /** Summing one more element of the prefix adds that element. */
  lemma SumStep(s: seq<real>, i: nat)
    requires i < |s|
    ensures Sum(s[..i + 1]) == Sum(s[..i]) + s[i]
  {
    assert s[..i + 1][..i] == s[..i];
  }

  /** Every segment of a sub-path has non-negative length. */
  lemma SegmentsNonNegative(sub: seq<Coord>, sqrt: real -> real)
    requires SqrtLaws(sqrt)
    ensures forall i :: 0 <= i < |Segments(sub, sqrt)| ==> 0.0 <= Segments(sub, sqrt)[i]
  {
    forall i | 0 <= i < |Segments(sub, sqrt)| ensures 0.0 <= Segments(sub, sqrt)[i] {
      DistLaws(sub[i], sub[i + 1], sqrt);
    }
  }

  /** The walk keeps acc equal to the sum of the segments before k, and stops at
      the first segment whose end reaches the target. */
  lemma {:induction false} ReachSpec(segs: seq<real>, target: real, k: nat, acc: real)
    requires k <= |segs| && acc == Sum(segs[..k])
    ensures var r := Reach(segs, target, k, acc);
      && (r.Some? ==> r.value.before == Sum(segs[..r.value.index])
                      && r.value.before + segs[r.value.index] >= target
                      && forall j :: k < j <= r.value.index ==> Sum(segs[..j]) < target)
      && (r.None? ==> forall j :: k < j <= |segs| ==> Sum(segs[..j]) < target)
    decreases |segs| - k
  {
    if k < |segs| && acc + segs[k] < target {
      SumStep(segs, k);
      ReachSpec(segs, target, k + 1, acc + segs[k]);
    }
  }

  /** total * progress stays within [0, total] for progress in [0, 1]. */
  lemma ScaleWithin(total: real, progress: real)
    requires 0.0 <= total && 0.0 <= progress <= 1.0
    ensures 0.0 <= TargetLength(total, progress) <= total
  {
  }

  /** Stopping on segment i at fraction t in [0, 1] lands exactly on the target
      arc length, and no earlier segment boundary reaches it. */
  predicate StopsAt(segs: seq<real>, target: real, i: nat, t: real)
    requires i < |segs|
  {
    && 0.0 <= t <= 1.0
    && Sum(segs[..i]) + t * segs[i] == target
    && forall j :: 0 < j <= i ==> Sum(segs[..j]) < target
  }

  /** On non-negative segment lengths, a walk towards a target within [0, total]
      always stops, at the first segment whose end reaches the target, and the
      fraction taken of that segment lands exactly on the target. */
  lemma WalkLands(segs: seq<real>, target: real)
    requires forall i :: 0 <= i < |segs| ==> 0.0 <= segs[i]
    requires 0 < |segs| && 0.0 <= target <= Sum(segs)
    ensures var r := Reach(segs, target, 0, 0.0);
      && r.Some?
      && StopsAt(segs, target, r.value.index, SegmentFraction(target, r.value.before, segs[r.value.index]))
  {
    var n := |segs|;
    assert segs[..n] == segs;
    assert segs[..0] == [];
    ReachSpec(segs, target, 0, 0.0);
    var r := Reach(segs, target, 0, 0.0);
    if r.None? {
      assert false;
    }
    var i, acc := r.value.index, r.value.before;
    SumPrefix(segs, i);
    if 0 < i {
      assert Sum(segs[..i]) < target;
    }
    FractionWithin(target, acc, segs[i]);
  }

  /** For progress in [0, 1] on a sub-path of positive length, the result lies on
      segment i (the first whose end reaches total * progress) at a fraction t in
      [0, 1], and the arc length up to that point is exactly total * progress. The
      "last point" fallback is unreachable. */
  lemma InterpolateArcLength(sub: seq<Coord>, progress: real, sqrt: real -> real)
    requires SqrtLaws(sqrt)
    requires 0.0 <= progress <= 1.0
    requires 1 < |sub| && Sum(Segments(sub, sqrt)) != 0.0
    ensures var segs := Segments(sub, sqrt); var target := TargetLength(Sum(segs), progress);
      var r := Reach(segs, target, 0, 0.0);
      && r.Some?
      && var i := r.value.index; var t := SegmentFraction(target, r.value.before, segs[i]);
      && StopsAt(segs, target, i, t)
      && Interpolate(sub, progress, sqrt) == Lerp(sub[i], sub[i + 1], t)
  {
    var segs := Segments(sub, sqrt);
    SegmentsNonNegative(sub, sqrt);
    SumPrefix(segs, |segs|);
    assert segs[..|segs|] == segs;
    ScaleWithin(Sum(segs), progress);
    WalkLands(segs, TargetLength(Sum(segs), progress));
    InterpolateOnSegment(sub, progress, sqrt);
  }

  /** Where the walk stops on segment i, the result is the point at the segment
      fraction of segment i. */
  lemma InterpolateOnSegment(sub: seq<Coord>, progress: real, sqrt: real -> real)
    requires 1 < |sub| && Sum(Segments(sub, sqrt)) != 0.0
    requires Reach(Segments(sub, sqrt), TargetLength(Sum(Segments(sub, sqrt)), progress), 0, 0.0).Some?
    ensures var segs := Segments(sub, sqrt); var target := TargetLength(Sum(segs), progress);
      var hit := Reach(segs, target, 0, 0.0).value;
      Interpolate(sub, progress, sqrt) == Lerp(sub[hit.index], sub[hit.index + 1], SegmentFraction(target, hit.before, segs[hit.index]))
  {
  }

  /** The segment fraction lies in [0, 1] and lands exactly on the target. */
  lemma FractionWithin(target: real, acc: real, seg: real)
    requires 0.0 <= acc <= target <= acc + seg
    requires seg == 0.0 ==> acc == target
    ensures var t := SegmentFraction(target, acc, seg);
      0.0 <= t <= 1.0 && acc + t * seg == target
  {
    if seg != 0.0 {
      var t := (target - acc) / seg;
      assert t * seg == target - acc;
    }
  }

  /** On a fixed segment, segProgress grows with the target. */
  lemma FractionMonotone(a: real, b: real, acc: real, seg: real)
    requires a <= b && 0.0 <= seg
    ensures SegmentFraction(a, acc, seg) <= SegmentFraction(b, acc, seg)
  {
    if seg != 0.0 {
      var ta, tb := (a - acc) / seg, (b - acc) / seg;
      assert ta * seg == a - acc && tb * seg == b - acc;
      assert (tb - ta) * seg == b - a;
    }
  }

  /** A larger target arc length stops the walk on a later segment, or on the
      same segment at a fraction at least as large: the placement only moves
      forward along the path. */
  lemma ReachOrdered(segs: seq<real>, a: real, b: real)
    requires forall i :: 0 <= i < |segs| ==> 0.0 <= segs[i]
    requires 0 < |segs| && 0.0 <= a <= b <= Sum(segs)
    ensures var ra, rb := Reach(segs, a, 0, 0.0), Reach(segs, b, 0, 0.0);
      && ra.Some? && rb.Some?
      && (ra.value.index < rb.value.index
          || (ra.value.index == rb.value.index
              && SegmentFraction(a, ra.value.before, segs[ra.value.index]) <= SegmentFraction(b, rb.value.before, segs[rb.value.index])))
  {
    assert segs[..0] == [];
    WalkLands(segs, a);
    WalkLands(segs, b);
    ReachSpec(segs, a, 0, 0.0);
    ReachSpec(segs, b, 0, 0.0);
    var ha, hb := Reach(segs, a, 0, 0.0).value, Reach(segs, b, 0, 0.0).value;
    SumStep(segs, hb.index);
    assert Sum(segs[..hb.index + 1]) >= a;
    assert ha.index <= hb.index;
    if ha.index == hb.index {
      FractionMonotone(a, b, ha.before, segs[ha.index]);
    }
  }

  /** Progress p2 places the point no further back along the sub-path than p1
      does: the target arc length does not decrease, and on a sub-path of
      positive length the point for p2 lies on a later segment, or on the same
      segment at a fraction at least as large, each point being the Lerp on the
      segment where the walk stops. On a sub-path of zero length the two points
      are the same. */
  predicate MovesForward(sub: seq<Coord>, p1: real, p2: real, sqrt: real -> real)
  {
    var segs := Segments(sub, sqrt);
    var a, b := TargetLength(Sum(segs), p1), TargetLength(Sum(segs), p2);
    && a <= b
    && (1 < |sub| && Sum(segs) != 0.0 ==>
          var h1, h2 := Reach(segs, a, 0, 0.0), Reach(segs, b, 0, 0.0);
          && h1.Some? && h2.Some?
          && var t1 := SegmentFraction(a, h1.value.before, segs[h1.value.index]);
          && var t2 := SegmentFraction(b, h2.value.before, segs[h2.value.index]);
          && Interpolate(sub, p1, sqrt) == Lerp(sub[h1.value.index], sub[h1.value.index + 1], t1)
          && Interpolate(sub, p2, sqrt) == Lerp(sub[h2.value.index], sub[h2.value.index + 1], t2)
          && (h1.value.index < h2.value.index || (h1.value.index == h2.value.index && t1 <= t2)))
    && (|sub| <= 1 || Sum(segs) == 0.0 ==> Interpolate(sub, p1, sqrt) == Interpolate(sub, p2, sqrt))
  }

  /** Interpolating at a larger progress places the point further along the
      sub-path. */
  lemma InterpolateForward(sub: seq<Coord>, p1: real, p2: real, sqrt: real -> real)
    requires SqrtLaws(sqrt)
    requires 0.0 <= p1 <= p2 <= 1.0
    ensures MovesForward(sub, p1, p2, sqrt)
  {
    var segs := Segments(sub, sqrt);
    SegmentsNonNegative(sub, sqrt);
    SumPrefix(segs, |segs|);
    assert segs[..|segs|] == segs;
    TargetsOrdered(Sum(segs), p1, p2);
    if 1 < |sub| && Sum(segs) != 0.0 {
      InterpolateArcLength(sub, p1, sqrt);
      InterpolateArcLength(sub, p2, sqrt);
      ReachOrdered(segs, TargetLength(Sum(segs), p1), TargetLength(Sum(segs), p2));
    }
  }

  /** For progress p1 <= p2 in [0, 1], the two target arc lengths are ordered
      within [0, total]. */
  lemma TargetsOrdered(total: real, p1: real, p2: real)
    requires 0.0 <= total && 0.0 <= p1 <= p2 <= 1.0
    ensures 0.0 <= TargetLength(total, p1) <= TargetLength(total, p2) <= total
  {
    ScaleWithin(total, p1);
    ScaleWithin(total, p2);
    assert total * (p2 - p1) >= 0.0;
  }

  /** Lerp at fraction 0 is the segment's first point. */
  lemma LerpAtZero(p1: Coord, p2: Coord)
    ensures Lerp(p1, p2, 0.0) == p1
  {
  }

  /** Progress 0 puts the vessel on the first point of the sub-path. */
  lemma InterpolateAtZero(sub: seq<Coord>, sqrt: real -> real)
    requires SqrtLaws(sqrt)
    requires 0 < |sub|
    ensures Interpolate(sub, 0.0, sqrt) == sub[0]
  {
    if 1 < |sub| {
      var segs := Segments(sub, sqrt);
      if Sum(segs) != 0.0 {
        SegmentsNonNegative(sub, sqrt);
        assert segs[..0] == [];
        assert Sum(segs) * 0.0 == 0.0;
        assert Reach(segs, 0.0, 0, 0.0) == Some(Hit(0, 0.0));
        LerpAtZero(sub[0], sub[1]);
      }
    }
  }
}
