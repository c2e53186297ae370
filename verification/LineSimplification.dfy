/** Line simplification of the arterial roads: recursive Ramer-Douglas-Peucker.

    The recursion is proved about an abstract `dist(first, last, p)`, so the geometry stays
    out of those proofs; the second part of the module puts the program's distance in.
    Coordinates are exact reals. The program compares the distance of a point to the
    chord, a square root, with the tolerance; here both sides are squared, which for a
    non-negative tolerance is the same comparison. */
module LineSimplification {
  type Dist<!P> = (P, P, P) -> real

  /** Distance of point `i` to the chord of the whole slice. */
  function Off<P>(dist: Dist<P>, points: seq<P>, i: nat): real
    requires i < |points|
  {
    dist(points[0], points[|points| - 1], points[i])
  }

  /** State of the inner loop after positions 1 .. n-1: the strict comparison keeps the
      FIRST of the worst points, and position 0 while nothing is off the chord. */
  ghost predicate FirstWorst<P>(dist: Dist<P>, points: seq<P>, n: nat, worst: real, index: nat)
    requires n <= |points|
  {
    && index < |points|
    && worst >= 0.0
    && (forall i :: 0 < i < n ==> Off(dist, points, i) <= worst)
    && (index == 0 ==> worst == 0.0)
    && (index > 0 ==> index < n && worst == Off(dist, points, index) > 0.0)
    && (forall i :: 0 < i < index ==> Off(dist, points, i) < worst)
  }

  lemma FirstWorstIsUnique<P>(dist: Dist<P>, points: seq<P>, n: nat, w: real, k: nat, w': real, k': nat)
    requires n <= |points| && FirstWorst(dist, points, n, w, k) && FirstWorst(dist, points, n, w', k')
    ensures w == w' && k == k'
  {}

  function Worst<P>(dist: Dist<P>, points: seq<P>, n: nat): (r: (real, nat))
    requires 0 < n <= |points|
    ensures r.1 < n && 0.0 <= r.0 && (r.1 == 0 ==> r.0 == 0.0)
  {
    if n == 1 then (0.0, 0)
    else
      var (worst, index) := Worst(dist, points, n - 1);
      if Off(dist, points, n - 1) > worst then (Off(dist, points, n - 1), n - 1) else (worst, index)
  }

  lemma {:induction false} WorstIsFirst<P>(dist: Dist<P>, points: seq<P>, n: nat)
    requires 0 < n <= |points|
    ensures FirstWorst(dist, points, n, Worst(dist, points, n).0, Worst(dist, points, n).1)
  {
    if n > 1 { WorstIsFirst(dist, points, n - 1); }
  }

  lemma WorstIs<P>(dist: Dist<P>, points: seq<P>, n: nat, worst: real, index: nat)
    requires 0 < n <= |points| && FirstWorst(dist, points, n, worst, index)
    ensures Worst(dist, points, n) == (worst, index)
  {
    WorstIsFirst(dist, points, n);
    FirstWorstIsUnique(dist, points, n, Worst(dist, points, n).0, Worst(dist, points, n).1, worst, index);
  }

  /** Where the slice is cut: at its first worst point when that exceeds the limit, and
      nowhere (0) otherwise. */
  function Cut<P>(dist: Dist<P>, points: seq<P>, limit: real): (k: nat)
    requires limit >= 0.0 && |points| >= 3
    ensures k < |points| - 1
  {
    var (worst, index) := Worst(dist, points, |points| - 1);
    if worst <= limit then 0 else index
  }

  /** A slice is left whole exactly when none of its interior is past the limit. */
  lemma CutMeans<P>(dist: Dist<P>, points: seq<P>, limit: real) returns (worst: real)
    requires limit >= 0.0 && |points| >= 3
    ensures worst == Worst(dist, points, |points| - 1).0
    ensures Cut(dist, points, limit) == 0 ==> forall j :: 0 < j < |points| - 1 ==> Off(dist, points, j) <= limit
    ensures Cut(dist, points, limit) != 0 ==>
              worst > limit && FirstWorst(dist, points, |points| - 1, worst, Cut(dist, points, limit))
  {
    WorstIsFirst(dist, points, |points| - 1);
    worst := Worst(dist, points, |points| - 1).0;
  }

  /** The cut, found from any description of the first worst point. */
  lemma CutIs<P>(dist: Dist<P>, points: seq<P>, limit: real, worst: real, index: nat)
    requires limit >= 0.0 && |points| >= 3 && FirstWorst(dist, points, |points| - 1, worst, index)
    ensures Cut(dist, points, limit) == if worst <= limit then 0 else index
  {
    WorstIs(dist, points, |points| - 1, worst, index);
  }

  /** Two results that share one end point, joined. */
  function Glue<P>(left: seq<P>, right: seq<P>): seq<P>
  {
    if left == [] then right else left[..|left| - 1] + right
  }

  /** Indices of the points that survive, in order. */
  function Kept<P>(dist: Dist<P>, points: seq<P>, limit: real): (r: seq<nat>)
    requires limit >= 0.0
    ensures Ascending(r, |points|)
    decreases |points|
  {
    if |points| < 3 then seq(|points|, i => i)
    else
      var k := Cut(dist, points, limit);
      if k == 0 then [0, |points| - 1]
      else Join(Kept(dist, points[..k + 1], limit), Kept(dist, points[k..], limit), k, |points|)
  }

  /** Strictly increasing, from the first index to the last one. */
  predicate Ascending(r: seq<nat>, n: nat) {
    && (forall i, j :: 0 <= i < j < |r| ==> r[i] < r[j])
    && (forall i :: 0 <= i < |r| ==> r[i] < n)
    && (if n == 0 then r == [] else r != [] && r[0] == 0 && r[|r| - 1] == n - 1)
    && (n < 2 ==> |r| == n)
  }

  function Shift(s: seq<nat>, offset: nat): seq<nat> { seq(|s|, i requires 0 <= i < |s| => s[i] + offset) }

  function Join(left: seq<nat>, right: seq<nat>, index: nat, n: nat): (r: seq<nat>)
    requires 0 < index < n - 1 && Ascending(left, index + 1) && Ascending(right, n - index)
    ensures Ascending(r, n)
  {
    var r := left[..|left| - 1] + Shift(right, index);
    assert left[|left| - 1] == index;
    r
  }

  function Pick<P>(points: seq<P>, indices: seq<nat>): seq<P>
    requires forall i :: 0 <= i < |indices| ==> indices[i] < |points|
  {
    seq(|indices|, i requires 0 <= i < |indices| => points[indices[i]])
  }

  function Simplified<P>(dist: Dist<P>, points: seq<P>, limit: real): seq<P>
    requires limit >= 0.0
    decreases |points|
  {
    if |points| < 3 then points
    else
      var k := Cut(dist, points, limit);
      if k == 0 then [points[0], points[|points| - 1]]
      else Glue(Simplified(dist, points[..k + 1], limit), Simplified(dist, points[k..], limit))
  }

  lemma Unfold<P>(dist: Dist<P>, points: seq<P>, limit: real, k: nat)
    requires limit >= 0.0 && |points| >= 3 && k == Cut(dist, points, limit)
    ensures Simplified(dist, points, limit)
         == if k == 0 then [points[0], points[|points| - 1]]
            else Glue(Simplified(dist, points[..k + 1], limit), Simplified(dist, points[k..], limit))
  {
    hide Cut, Glue;
  }

  // ------------------------------------------------ subsequence and error bound

  lemma PickJoin<P>(points: seq<P>, index: nat, left: seq<nat>, right: seq<nat>)
    requires 0 < index < |points| - 1
    requires Ascending(left, index + 1) && Ascending(right, |points| - index)
    ensures Pick(points, Join(left, right, index, |points|))
         == Glue(Pick(points[..index + 1], left), Pick(points[index..], right))
  {
    var c, joined := |left| - 1, Join(left, right, index, |points|);
    var x, y := Pick(points[..index + 1], left), Pick(points[index..], right);
    assert forall i :: 0 <= i < |joined| ==> joined[i] < |points|;
    assert joined == left[..c] + Shift(right, index);
    assert Glue(x, y) == x[..c] + y;
    hide Join, Glue, Ascending;
    forall i | 0 <= i < |joined| ensures points[joined[i]] == (x[..c] + y)[i] {
      if i < c {
        assert joined[i] == left[i];
      } else {
        assert joined[i] == right[i - c] + index;
        assert points[index..][right[i - c]] == points[joined[i]];
      }
    }
  }

  lemma {:induction false} SimplifiedIsPick<P>(dist: Dist<P>, points: seq<P>, limit: real)
    requires limit >= 0.0
    ensures Simplified(dist, points, limit) == Pick(points, Kept(dist, points, limit))
    decreases |points|
  {
    if |points| >= 3 {
      var k := Cut(dist, points, limit);
      if k > 0 {
        var a, b := points[..k + 1], points[k..];
        SimplifiedIsPick(dist, a, limit);
        SimplifiedIsPick(dist, b, limit);
        PickJoin(points, k, Kept(dist, a, limit), Kept(dist, b, limit));
      }
    }
  }

  /** Every index between two neighbours of `r` is off their chord by at most the limit. */
  ghost predicate Within<P>(dist: Dist<P>, points: seq<P>, r: seq<nat>, limit: real)
    requires forall i :: 0 <= i < |r| ==> r[i] < |points|
  {
    forall m, j: nat :: 0 <= m < |r| - 1 && r[m] < j < r[m + 1] ==>
      dist(points[r[m]], points[r[m + 1]], points[j]) <= limit
  }

  lemma {:induction false} KeptWithin<P>(dist: Dist<P>, points: seq<P>, limit: real)
    requires limit >= 0.0
    ensures Within(dist, points, Kept(dist, points, limit), limit)
    decreases |points|
  {
    if |points| >= 3 {
      hide Within, Cut, Join, Ascending;
      var k := Cut(dist, points, limit);
      if k == 0 {
        EndsWithin(dist, points, limit);
      } else {
        var a, b := points[..k + 1], points[k..];
        KeptWithin(dist, a, limit);
        KeptWithin(dist, b, limit);
        hide Kept;
        JoinWithin(dist, points, k, Kept(dist, a, limit), Kept(dist, b, limit), limit);
      }
    }
  }

  lemma EndsWithin<P>(dist: Dist<P>, points: seq<P>, limit: real)
    requires limit >= 0.0 && |points| >= 3 && Cut(dist, points, limit) == 0
    ensures Within(dist, points, [0, |points| - 1], limit)
  {
    var worst := CutMeans(dist, points, limit);
    forall j: nat | 0 < j < |points| - 1
      ensures dist(points[0], points[|points| - 1], points[j]) <= limit
    {
      assert Off(dist, points, j) <= limit;
    }
  }

  lemma JoinWithin<P>(dist: Dist<P>, points: seq<P>, index: nat, left: seq<nat>, right: seq<nat>, limit: real)
    requires 0 < index < |points| - 1
    requires Ascending(left, index + 1) && Within(dist, points[..index + 1], left, limit)
    requires Ascending(right, |points| - index) && Within(dist, points[index..], right, limit)
    ensures Within(dist, points, Join(left, right, index, |points|), limit)
  {
    var r := Join(left, right, index, |points|);
    forall m, j: nat | 0 <= m < |r| - 1 && r[m] < j < r[m + 1]
      ensures dist(points[r[m]], points[r[m + 1]], points[j]) <= limit
    {
      JoinWithinAt(dist, points, index, left, right, limit, m, j);
    }
  }

  lemma JoinWithinAt<P>(dist: Dist<P>, points: seq<P>, index: nat, left: seq<nat>, right: seq<nat>, limit: real,
                        m: nat, j: nat)
    requires 0 < index < |points| - 1
    requires Ascending(left, index + 1) && Within(dist, points[..index + 1], left, limit)
    requires Ascending(right, |points| - index) && Within(dist, points[index..], right, limit)
    requires var r := Join(left, right, index, |points|); m < |r| - 1 && r[m] < j < r[m + 1]
    ensures var r := Join(left, right, index, |points|); dist(points[r[m]], points[r[m + 1]], points[j]) <= limit
  {
    var c := |left| - 1;
    assert left[c] == index;
    hide Within;
    if m < c {
      WithinLeft(dist, points, index, left, limit, m, j);
    } else {
      WithinRight(dist, points, index, right, limit, m - c, j - index);
    }
  }

  lemma WithinLeft<P>(dist: Dist<P>, points: seq<P>, index: nat, left: seq<nat>, limit: real, m: nat, j: nat)
    requires index < |points| && m < |left| - 1 && Ascending(left, index + 1)
    requires Within(dist, points[..index + 1], left, limit) && left[m] < j < left[m + 1]
    ensures dist(points[left[m]], points[left[m + 1]], points[j]) <= limit
  {}

  lemma WithinRight<P>(dist: Dist<P>, points: seq<P>, index: nat, right: seq<nat>, limit: real, m: nat, j: nat)
    requires index < |points| && m < |right| - 1 && Ascending(right, |points| - index)
    requires Within(dist, points[index..], right, limit) && right[m] < j < right[m + 1]
    ensures dist(points[right[m] + index], points[right[m + 1] + index], points[j + index]) <= limit
  {}

  // ------------------------------------------------ absorption

  lemma SimplifiedEnds<P>(dist: Dist<P>, points: seq<P>, limit: real)
    requires limit >= 0.0 && |points| >= 2
    ensures |Simplified(dist, points, limit)| >= 2
    ensures Simplified(dist, points, limit)[0] == points[0]
    ensures Simplified(dist, points, limit)[|Simplified(dist, points, limit)| - 1] == points[|points| - 1]
  {}

  /** The middle of a simplified run is made of interior points of that run. */
  lemma InteriorStaysInterior<P>(dist: Dist<P>, points: seq<P>, limit: real, i: nat) returns (j: nat)
    requires limit >= 0.0 && 0 < i < |Simplified(dist, points, limit)| - 1
    ensures 0 < j < |points| - 1 && Simplified(dist, points, limit)[i] == points[j]
  {
    SimplifiedIsPick(dist, points, limit);
    var k := Kept(dist, points, limit);
    j := k[i];
    assert k[0] < k[i] < k[|k| - 1];
  }

  /** After simplifying the two halves, the worst point of the whole is still the split
      point, now at the seam of the two results. */
  lemma WorstSurvives<P>(dist: Dist<P>, points: seq<P>, limit: real, worst: real, index: nat,
                         left: seq<P>, right: seq<P>, s: seq<P>)
    requires limit >= 0.0 && |points| >= 3
    requires FirstWorst(dist, points, |points| - 1, worst, index) && 0 < index < |points| - 1
    requires left == Simplified(dist, points[..index + 1], limit)
    requires right == Simplified(dist, points[index..], limit)
    requires |left| >= 2 && |right| >= 2 && s == Glue(left, right)
    requires left[0] == points[0] && left[|left| - 1] == points[index] == right[0]
    requires right[|right| - 1] == points[|points| - 1]
    ensures FirstWorst(dist, s, |s| - 1, worst, |left| - 1)
  {
    hide Simplified, Worst;
    var c := |left| - 1;
    forall i | 0 < i < |s| - 1
      ensures Off(dist, s, i) <= worst
      ensures i < c ==> Off(dist, s, i) < worst
    {
      if i < c {
        var j := InteriorStaysInterior(dist, points[..index + 1], limit, i);
        assert s[i] == points[j] && Off(dist, points, j) < worst;
      } else if i > c {
        var j := InteriorStaysInterior(dist, points[index..], limit, i - c);
        assert s[i] == right[i - c] == points[index + j] && Off(dist, points, index + j) <= worst;
      }
    }
    assert Off(dist, s, c) == Off(dist, points, index) == worst;
  }

  /** The coarse pass cuts the already simplified run where it cuts the original one. */
  lemma CutSurvives<P>(dist: Dist<P>, points: seq<P>, fine: real, coarse: real,
                       k: nat, left: seq<P>, right: seq<P>, s: seq<P>)
    requires 0.0 <= fine <= coarse && |points| >= 3
    requires k == Cut(dist, points, fine) && k > 0
    requires left == Simplified(dist, points[..k + 1], fine)
    requires right == Simplified(dist, points[k..], fine)
    requires s == Glue(left, right)
    ensures |left| >= 2 && |right| >= 2 && |s| >= 3
    ensures s[0] == points[0] && s[|s| - 1] == points[|points| - 1]
    ensures s[..|left|] == left && s[|left| - 1..] == right
    ensures Cut(dist, points, coarse) == 0 ==> Cut(dist, s, coarse) == 0
    ensures Cut(dist, points, coarse) != 0 ==> Cut(dist, points, coarse) == k && Cut(dist, s, coarse) == |left| - 1
  {
    hide Worst, Cut, Simplified;
    SimplifiedEnds(dist, points[..k + 1], fine);
    SimplifiedEnds(dist, points[k..], fine);
    var worst := CutMeans(dist, points, fine);
    assert FirstWorst(dist, s, |s| - 1, worst, |left| - 1) by {
      WorstSurvives(dist, points, fine, worst, k, left, right, s);
    }
    CutIs(dist, points, coarse, worst, k);
    CutIs(dist, s, coarse, worst, |left| - 1);
  }

  /** Simplifying at a finer limit first changes nothing: the coarser pass gives exactly
      what it gives on the original points. */
  lemma {:induction false} Absorption<P>(dist: Dist<P>, points: seq<P>, fine: real, coarse: real)
    requires 0.0 <= fine <= coarse
    ensures Simplified(dist, Simplified(dist, points, fine), coarse) == Simplified(dist, points, coarse)
    decreases |points|
  {
    hide Worst, Cut, Simplified, Glue;
    if |points| < 3 {
      FewStay(dist, points, fine);
      FewStay(dist, points, coarse);
    } else if Cut(dist, points, fine) > 0 {
      var k := Cut(dist, points, fine);
      Absorption(dist, points[..k + 1], fine, coarse);
      Absorption(dist, points[k..], fine, coarse);
      AbsorptionAtCut(dist, points, fine, coarse, k);
    } else {
      WholeStaysWhole(dist, points, fine, coarse);
      Unfold(dist, points, fine, 0);
      Unfold(dist, points, coarse, 0);
      FewStay(dist, [points[0], points[|points| - 1]], coarse);
    }
  }

  lemma AbsorptionAtCut<P>(dist: Dist<P>, points: seq<P>, fine: real, coarse: real, k: nat)
    requires 0.0 <= fine <= coarse && |points| >= 3 && k == Cut(dist, points, fine) && k > 0
    requires Simplified(dist, Simplified(dist, points[..k + 1], fine), coarse)
          == Simplified(dist, points[..k + 1], coarse)
    requires Simplified(dist, Simplified(dist, points[k..], fine), coarse) == Simplified(dist, points[k..], coarse)
    ensures Simplified(dist, Simplified(dist, points, fine), coarse) == Simplified(dist, points, coarse)
  {
    hide Worst, Cut, Simplified;
    var left, right := Simplified(dist, points[..k + 1], fine), Simplified(dist, points[k..], fine);
    var joined := Glue(left, right);
    CutSurvives(dist, points, fine, coarse, k, left, right, joined);
    Unfold(dist, points, fine, k);
    hide Glue;
    var c := Cut(dist, joined, coarse);
    if c == 0 {
      Unfold(dist, points, coarse, 0);
      Unfold(dist, joined, coarse, 0);
    } else {
      assert joined[..c + 1] == left && joined[c..] == right;
      Unfold(dist, points, coarse, k);
      Unfold(dist, joined, coarse, c);
    }
  }

  lemma WholeStaysWhole<P>(dist: Dist<P>, points: seq<P>, fine: real, coarse: real)
    requires 0.0 <= fine <= coarse && |points| >= 3 && Cut(dist, points, fine) == 0
    ensures Cut(dist, points, coarse) == 0
  {}

  lemma FewStay<P>(dist: Dist<P>, points: seq<P>, limit: real)
    requires limit >= 0.0 && |points| < 3
    ensures Simplified(dist, points, limit) == points
  {}

  // ------------------------------------------------ the distance of the program

  datatype Point = Point(x: real, y: real)

  function Sq(a: real): real { a * a }

  function NormSq(dx: real, dy: real): real { Sq(dx) + Sq(dy) }

  function Dot(ux: real, uy: real, dx: real, dy: real): real { ux * dx + uy * dy }

  function SpanSq(a: Point, b: Point): real { NormSq(b.x - a.x, b.y - a.y) }

  function Cross(a: Point, b: Point, p: Point): real {
    (b.y - a.y) * p.x - (b.x - a.x) * p.y + b.x * a.y - b.y * a.x
  }

  /** Square of the distance the inner loop computes for `p` against the chord a-b. */
  function DistSq(a: Point, b: Point, p: Point): real {
    if SpanSq(a, b) == 0.0 then SpanSq(a, p)
    else Sq(Cross(a, b, p)) / SpanSq(a, b)
  }

  /** The point at parameter `s` of the line through a and b. */
  function OnLine(a: Point, b: Point, s: real): Point {
    Point(a.x + s * (b.x - a.x), a.y + s * (b.y - a.y))
  }

  // ------------------------------------------------ what the distance means

  lemma SquareSign(a: real)
    ensures Sq(a) >= 0.0
    ensures Sq(a) == 0.0 ==> a == 0.0
  {
    if a != 0.0 { assert (a * a) / a == a; }
  }

  lemma ZeroSpanMeansSamePoint(a: Point, b: Point)
    requires SpanSq(a, b) == 0.0
    ensures a == b
  {
    SquareSign(b.x - a.x);
    SquareSign(b.y - a.y);
  }

  /** With u = p - a and d = b - a: the squared distance from p to the point of the line
      at parameter s, times the squared chord. */
  lemma ExpandAlongLine(ux: real, uy: real, dx: real, dy: real, s: real)
    ensures NormSq(dx, dy) * NormSq(ux - s * dx, uy - s * dy)
         == Sq(Dot(ux, uy, dy, -dx)) + Sq(s * NormSq(dx, dy) - Dot(ux, uy, dx, dy))
  {}

  lemma ExpandNamed(ux: real, uy: real, dx: real, dy: real, s: real, chord: real, span: real, cross: real, along: real)
    requires chord == NormSq(dx, dy) && span == NormSq(ux - s * dx, uy - s * dy)
    requires cross == Dot(ux, uy, dy, -dx) && along == Dot(ux, uy, dx, dy)
    ensures FootEquation(s, chord, span, cross, along)
  {
    ExpandAlongLine(ux, uy, dx, dy, s);
    hide NormSq, Dot;
  }

  /** The squared chord times the squared distance to the point at `s`. */
  predicate FootEquation(s: real, chord: real, span: real, cross: real, along: real) {
    chord * span == Sq(cross) + Sq(s * chord - along) && chord * span >= Sq(cross)
  }

  /** Offset of p along the chord, times the length of the chord. */
  function Along(a: Point, b: Point, p: Point): real {
    Dot(p.x - a.x, p.y - a.y, b.x - a.x, b.y - a.y)
  }

  /** Multiplying the squared distance to any point of the line by the squared chord:
      the squared cross product, plus a square that vanishes at the foot. */
  lemma ChordTimesDistance(a: Point, b: Point, p: Point, s: real)
    ensures SpanSq(a, b) * SpanSq(OnLine(a, b, s), p) == Sq(Cross(a, b, p)) + Sq(s * SpanSq(a, b) - Along(a, b, p))
    ensures SpanSq(a, b) * SpanSq(OnLine(a, b, s), p) >= Sq(Cross(a, b, p))
  {
    hide Sq, NormSq, Dot, Cross, SpanSq, Along;
    var dx, dy := b.x - a.x, b.y - a.y;
    assert OnLine(a, b, s) == Point(a.x + s * dx, a.y + s * dy);
    hide OnLine;
    FromFoot(a, b, p, OnLine(a, b, s), dx, dy, s);
  }

  lemma FromFoot(a: Point, b: Point, p: Point, q: Point, dx: real, dy: real, s: real)
    requires dx == b.x - a.x && dy == b.y - a.y && q == Point(a.x + s * dx, a.y + s * dy)
    ensures FootEquation(s, SpanSq(a, b), SpanSq(q, p), Cross(a, b, p), Along(a, b, p))
  {
    hide Sq, NormSq, Dot, Cross, SpanSq, Along, FootEquation;
    var ux, uy := p.x - a.x, p.y - a.y;
    NamedSpan(a, b, dx, dy);
    NamedSpan(q, p, ux - s * dx, uy - s * dy);
    NamedProducts(a, b, p, ux, uy, dx, dy);
    ExpandNamed(ux, uy, dx, dy, s, SpanSq(a, b), SpanSq(q, p), Cross(a, b, p), Along(a, b, p));
  }

  lemma NamedSpan(a: Point, b: Point, dx: real, dy: real)
    requires dx == b.x - a.x && dy == b.y - a.y
    ensures SpanSq(a, b) == NormSq(dx, dy)
  {}

  lemma NamedProducts(a: Point, b: Point, p: Point, ux: real, uy: real, dx: real, dy: real)
    requires dx == b.x - a.x && dy == b.y - a.y && ux == p.x - a.x && uy == p.y - a.y
    ensures Cross(a, b, p) == Dot(ux, uy, dy, -dx) && Along(a, b, p) == Dot(ux, uy, dx, dy)
  {}

  lemma SpanSqNonNegative(a: Point, b: Point)
    ensures SpanSq(a, b) >= 0.0
  {}

  lemma SamePointLine(a: Point, s: real)
    ensures OnLine(a, a, s) == a
  {}

  lemma NoPointIsCloser(a: Point, b: Point, p: Point, s: real)
    ensures SpanSq(OnLine(a, b, s), p) >= DistSq(a, b, p)
  {
    hide SpanSq, OnLine, Cross, Along;
    SpanSqNonNegative(a, b);
    if SpanSq(a, b) == 0.0 {
      ZeroSpanMeansSamePoint(a, b);
      SamePointLine(a, s);
    } else {
      ChordTimesDistance(a, b, p, s);
    }
  }

  lemma FootOfPerpendicular(a: Point, b: Point, p: Point) returns (foot: real)
    ensures SpanSq(OnLine(a, b, foot), p) == DistSq(a, b, p)
  {
    hide SpanSq, OnLine, Cross, Along;
    if SpanSq(a, b) == 0.0 {
      foot := 0.0;
      ZeroSpanMeansSamePoint(a, b);
      SamePointLine(a, foot);
    } else {
      SpanSqNonNegative(a, b);
      foot := Along(a, b, p) / SpanSq(a, b);
      assert foot * SpanSq(a, b) == Along(a, b, p);
      ChordTimesDistance(a, b, p, foot);
    }
  }

  /** `DistSq` is the least squared distance from p to a point of the line through a
      and b, and that least value is attained; when a and b coincide the line is the
      point itself. */
  lemma DistSqToLine(a: Point, b: Point, p: Point)
    ensures forall s: real {:trigger OnLine(a, b, s)} :: SpanSq(OnLine(a, b, s), p) >= DistSq(a, b, p)
    ensures exists s: real {:trigger OnLine(a, b, s)} :: SpanSq(OnLine(a, b, s), p) == DistSq(a, b, p)
  {
    forall s: real ensures SpanSq(OnLine(a, b, s), p) >= DistSq(a, b, p) { NoPointIsCloser(a, b, p, s); }
    var foot := FootOfPerpendicular(a, b, p);
  }

  // ------------------------------------------------ the procedure

  /** The simplified line: split while a point is further off than the tolerance. */
  function SimplifiedLine(points: seq<Point>, tolerance: real): seq<Point>
    requires tolerance >= 0.0
  {
    SquareSign(tolerance);
    Simplified(DistSq, points, Sq(tolerance))
  }

  /** The program's procedure: the inner scan and the two recursive calls. */
  method Simplify(points: seq<Point>, tolerance: real) returns (r: seq<Point>)
    requires tolerance >= 0.0
    ensures r == SimplifiedLine(points, tolerance)
    decreases |points|
  {
    if |points| < 3 { return points; }
    var worst, index := FindWorst(points);
    SquareSign(tolerance);
    hide DistSq, Sq, Worst, Cut, FirstWorst;
    CutIs(DistSq, points, Sq(tolerance), worst, index);
    if worst <= Sq(tolerance) { return [points[0], points[|points| - 1]]; }
    var left := Simplify(points[..index + 1], tolerance);
    var right := Simplify(points[index..], tolerance);
    SimplifiedEnds(DistSq, points[..index + 1], Sq(tolerance));
    r := left[..|left| - 1] + right;
  }

  /** The inner loop: the first of the points furthest from the chord. */
  method FindWorst(points: seq<Point>) returns (worst: real, index: nat)
    requires |points| >= 3
    ensures index < |points| - 1 && FirstWorst(DistSq, points, |points| - 1, worst, index)
  {
    hide DistSq;
    var first, last := points[0], points[|points| - 1];
    worst, index := 0.0, 0;
    for i := 1 to |points| - 1
      invariant FirstWorst(DistSq, points, i, worst, index)
    {
      var distance := DistSq(first, last, points[i]);
      if distance > worst { worst, index := distance, i; }
    }
  }

  // ------------------------------------------------ main results

  /** Some point of the line through a and b is within the tolerance of p. */
  ghost predicate NearLine(a: Point, b: Point, p: Point, tolerance: real) {
    exists s: real {:trigger OnLine(a, b, s)} :: SpanSq(OnLine(a, b, s), p) <= Sq(tolerance)
  }

  /** Every point dropped between two neighbours of the kept indices is near their line. */
  ghost predicate DroppedNearLine(points: seq<Point>, kept: seq<nat>, tolerance: real)
    requires forall i :: 0 <= i < |kept| ==> kept[i] < |points|
  {
    forall m, j: nat :: 0 <= m < |kept| - 1 && kept[m] < j < kept[m + 1] ==>
      NearLine(points[kept[m]], points[kept[m + 1]], points[j], tolerance)
  }

  /** The result is the input read at strictly increasing indices that keep both ends,
      and every dropped point is within the tolerance of the line through the two kept
      points around it. */
  lemma ErrorBound(points: seq<Point>, tolerance: real) returns (kept: seq<nat>)
    requires tolerance >= 0.0
    ensures Ascending(kept, |points|)
    ensures SimplifiedLine(points, tolerance) == Pick(points, kept)
    ensures DroppedNearLine(points, kept, tolerance)
  {
    hide Sq, SpanSq, OnLine, DistSq;
    SquareSign(tolerance);
    kept := Kept(DistSq, points, Sq(tolerance));
    SimplifiedIsPick(DistSq, points, Sq(tolerance));
    KeptWithin(DistSq, points, Sq(tolerance));
    forall m, j: nat | 0 <= m < |kept| - 1 && kept[m] < j < kept[m + 1]
      ensures NearLine(points[kept[m]], points[kept[m + 1]], points[j], tolerance)
    {
      var a, b := points[kept[m]], points[kept[m + 1]];
      hide Ascending, Pick, Kept;
      var foot := FootOfPerpendicular(a, b, points[j]);
      assert SpanSq(OnLine(a, b, foot), points[j]) <= Sq(tolerance);
    }
  }

  /** Simplifying at a finer tolerance first and then at a coarser one gives exactly the
      coarse simplification of the original line; equal tolerances give idempotence. */
  lemma CoarserPassAbsorbs(points: seq<Point>, fine: real, coarse: real)
    requires 0.0 <= fine <= coarse
    ensures SimplifiedLine(SimplifiedLine(points, fine), coarse) == SimplifiedLine(points, coarse)
  {
    SquareSign(fine);
    Absorption(DistSq, points, Sq(fine), Sq(coarse));
  }

  /** A line whose whole interior is near the line through its ends becomes those two ends. */
  lemma NearIsDropped(points: seq<Point>, tolerance: real)
    requires |points| >= 3 && tolerance >= 0.0
    requires forall i :: 0 < i < |points| - 1 ==> NearLine(points[0], points[|points| - 1], points[i], tolerance)
    ensures SimplifiedLine(points, tolerance) == [points[0], points[|points| - 1]]
  {
    var first, last := points[0], points[|points| - 1];
    SquareSign(tolerance);
    forall i | 0 < i < |points| - 1 ensures Off(DistSq, points, i) <= Sq(tolerance) {
      NearByDistance(first, last, points[i], tolerance);
    }
    hide DistSq, Sq;
    var worst := CutMeans(DistSq, points, Sq(tolerance));
    assert Cut(DistSq, points, Sq(tolerance)) == 0;
    Unfold(DistSq, points, Sq(tolerance), 0);
  }

  lemma NearByDistance(a: Point, b: Point, p: Point, tolerance: real)
    ensures NearLine(a, b, p, tolerance) <==> DistSq(a, b, p) <= Sq(tolerance)
  {
    hide DistSq, SpanSq, Sq, OnLine;
    if NearLine(a, b, p, tolerance) {
      var s: real :| SpanSq(OnLine(a, b, s), p) <= Sq(tolerance);
      NoPointIsCloser(a, b, p, s);
    }
    var foot := FootOfPerpendicular(a, b, p);
    assert SpanSq(OnLine(a, b, foot), p) == DistSq(a, b, p);
  }

  /** The point at `k` is the first of those furthest from the line through the ends: every
      earlier one is nearer to it, and no later one is further. */
  ghost predicate FirstFurthest(points: seq<Point>, k: nat)
    requires 0 < k < |points| - 1
  {
    var first, last := points[0], points[|points| - 1];
    && (forall i :: 0 < i < k ==> NearerThan(first, last, points[i], points[k]))
    && (forall i :: k < i < |points| - 1 ==> !NearerThan(first, last, points[k], points[i]))
  }

  /** `p` is nearer to the line than `q`: some point of the line is nearer to `p` than every
      point of the line is to `q`. */
  ghost predicate NearerThan(a: Point, b: Point, p: Point, q: Point) {
    exists s: real {:trigger OnLine(a, b, s)} ::
      forall u: real {:trigger OnLine(a, b, u)} :: SpanSq(OnLine(a, b, s), p) < SpanSq(OnLine(a, b, u), q)
  }

  lemma NearerByDistance(a: Point, b: Point, p: Point, q: Point)
    ensures NearerThan(a, b, p, q) <==> DistSq(a, b, p) < DistSq(a, b, q)
  {
    hide DistSq, SpanSq, OnLine;
    var foot := FootOfPerpendicular(a, b, q);
    var base := FootOfPerpendicular(a, b, p);
    if NearerThan(a, b, p, q) {
      var s: real :|
        forall u: real {:trigger OnLine(a, b, u)} :: SpanSq(OnLine(a, b, s), p) < SpanSq(OnLine(a, b, u), q);
      NoPointIsCloser(a, b, p, s);
      assert SpanSq(OnLine(a, b, s), p) < SpanSq(OnLine(a, b, foot), q);
    }
    if DistSq(a, b, p) < DistSq(a, b, q) {
      forall u: real ensures SpanSq(OnLine(a, b, base), p) < SpanSq(OnLine(a, b, u), q) { NoPointIsCloser(a, b, q, u); }
    }
  }

  /** Any other line is divided at the first of its furthest points, which stays, and the two
      halves are simplified by themselves and joined there. */
  lemma FarIsKept(points: seq<Point>, tolerance: real) returns (k: nat)
    requires |points| >= 3 && tolerance >= 0.0
    requires exists i :: 0 < i < |points| - 1 && !NearLine(points[0], points[|points| - 1], points[i], tolerance)
    ensures 0 < k < |points| - 1 && FirstFurthest(points, k)
    ensures var (left, right) := (SimplifiedLine(points[..k + 1], tolerance), SimplifiedLine(points[k..], tolerance));
            && left != [] && right != [] && left[|left| - 1] == points[k] == right[0]
            && SimplifiedLine(points, tolerance) == left[..|left| - 1] + right
  {
    hide *;
    var far :| 0 < far < |points| - 1 && !NearLine(points[0], points[|points| - 1], points[far], tolerance);
    SquareSign(tolerance);
    NearByDistance(points[0], points[|points| - 1], points[far], tolerance);
    var worst := CutWhereFar(points, Sq(tolerance), far);
    k := Cut(DistSq, points, Sq(tolerance));
    WorstIsFurthest(points, worst, k);
    JoinedAt(points, tolerance, k);
  }

  lemma CutWhereFar(points: seq<Point>, limit: real, far: nat) returns (worst: real)
    requires |points| >= 3 && limit >= 0.0 && 0 < far < |points| - 1
    requires DistSq(points[0], points[|points| - 1], points[far]) > limit
    ensures 0 < Cut(DistSq, points, limit)
    ensures FirstWorst(DistSq, points, |points| - 1, worst, Cut(DistSq, points, limit))
  {
    hide DistSq, Cut, FirstWorst;
    worst := CutMeans(DistSq, points, limit);
    assert Off(DistSq, points, far) > limit;
  }

  lemma WorstIsFurthest(points: seq<Point>, worst: real, k: nat)
    requires |points| >= 3 && 0 < k && FirstWorst(DistSq, points, |points| - 1, worst, k)
    ensures k < |points| - 1 && FirstFurthest(points, k)
  {
    var first, last := points[0], points[|points| - 1];
    hide DistSq, NearerThan;
    forall i | 0 < i < k ensures NearerThan(first, last, points[i], points[k]) {
      assert Off(DistSq, points, i) < Off(DistSq, points, k);
      NearerByDistance(first, last, points[i], points[k]);
    }
    forall i | k < i < |points| - 1 ensures !NearerThan(first, last, points[k], points[i]) {
      assert Off(DistSq, points, i) <= Off(DistSq, points, k);
      NearerByDistance(first, last, points[k], points[i]);
    }
  }

  lemma JoinedAt(points: seq<Point>, tolerance: real, k: nat)
    requires |points| >= 3 && tolerance >= 0.0
    requires Sq(tolerance) >= 0.0 && k == Cut(DistSq, points, Sq(tolerance)) && 0 < k < |points| - 1
    ensures var (left, right) := (SimplifiedLine(points[..k + 1], tolerance), SimplifiedLine(points[k..], tolerance));
            && left != [] && right != [] && left[|left| - 1] == points[k] == right[0]
            && SimplifiedLine(points, tolerance) == left[..|left| - 1] + right
  {
    var limit := Sq(tolerance);
    hide Simplified, Cut, DistSq, Sq;
    Unfold(DistSq, points, limit, k);
    SimplifiedEnds(DistSq, points[..k + 1], limit);
    SimplifiedEnds(DistSq, points[k..], limit);
  }

  lemma DistSqNonNegative(a: Point, b: Point, p: Point)
    ensures DistSq(a, b, p) >= 0.0
  {
    var foot := FootOfPerpendicular(a, b, p);
    SpanSqNonNegative(OnLine(a, b, foot), p);
  }

  /** Why the tolerance must not be negative: no slice passes the test, and where the whole
      interior lies on the chord the second recursive call receives the same slice. */
  lemma NegativeToleranceSplitsAtZero(points: seq<Point>, tolerance: real)
    requires |points| >= 3 && tolerance < 0.0
    ensures var (worst, index) := Worst(DistSq, points, |points| - 1);
            && !(worst <= tolerance)
            && (points[index..] == points <==> forall i :: 0 < i < |points| - 1 ==> Off(DistSq, points, i) == 0.0)
  {
    var (worst, index) := Worst(DistSq, points, |points| - 1);
    WorstIsFirst(DistSq, points, |points| - 1);
    if index == 0 {
      forall i | 0 < i < |points| - 1 ensures Off(DistSq, points, i) == 0.0 {
        DistSqNonNegative(points[0], points[|points| - 1], points[i]);
      }
    } else {
      assert |points[index..]| < |points|;
    }
  }

  /** Whether the recursion comes to an end at a negative tolerance, where every slice of
      three or more points is split at its first worst one. */
  predicate Ends(points: seq<Point>)
    decreases |points|
  {
    |points| < 3 ||
    var index := Worst(DistSq, points, |points| - 1).1;
    index > 0 && Ends(points[..index + 1]) && Ends(points[index..])
  }

  lemma KeptLength<P>(dist: Dist<P>, points: seq<P>, limit: real)
    requires limit >= 0.0 && |points| >= 3
    ensures var k := Cut(dist, points, limit);
            |Kept(dist, points, limit)|
              == if k == 0 then 2 else |Kept(dist, points[..k + 1], limit)| - 1 + |Kept(dist, points[k..], limit)|
  {
    hide Cut;
  }

  lemma {:induction false} EndsIfAllKept(points: seq<Point>)
    ensures |Kept(DistSq, points, 0.0)| <= |points|
    ensures Ends(points) <==> |Kept(DistSq, points, 0.0)| == |points|
    decreases |points|
  {
    if |points| >= 3 {
      hide DistSq;
      var index := Worst(DistSq, points, |points| - 1).1;
      WorstIsFirst(DistSq, points, |points| - 1);
      assert Cut(DistSq, points, 0.0) == index;
      KeptLength(DistSq, points, 0.0);
      hide Cut, Kept, Worst, FirstWorst;
      if index > 0 {
        EndsIfAllKept(points[..index + 1]);
        EndsIfAllKept(points[index..]);
      }
    }
  }

  /** At a negative tolerance the recursion ends exactly for the lines from which a tolerance
      of zero drops no point. */
  lemma NegativeToleranceEndsIff(points: seq<Point>)
    ensures Ends(points) <==> |SimplifiedLine(points, 0.0)| == |points|
  {
    EndsIfAllKept(points);
    SimplifiedIsPick(DistSq, points, Sq(0.0));
  }
}
