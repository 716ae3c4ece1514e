/** The drawing helpers' geometry: the vertices of the feasible polygon of a
    set of half-planes `a x + b y <= c`, and the scale and origin that fit a
    point set into a padded canvas. */
module Geometry {
  import opened Tableau

  /** Tolerance for parallel lines and for constraint satisfaction. */
  const Eps9: real := 1e-9

  /** The constraint `a x + b y <= c`. */
  datatype HalfPlane = HalfPlane(a: real, b: real, c: real)

  datatype Point = Point(x: real, y: real)

  // ---------------------------------------------------------------- intersections

  /** Determinant of the 2x2 system formed by two boundary lines. */
  function Det(h1: HalfPlane, h2: HalfPlane): real {
    h1.a * h2.b - h2.a * h1.b
  }

  /** Whether `p` lies on the boundary line of `h`. */
  predicate OnBoundary(h: HalfPlane, p: Point) {
    h.a * p.x + h.b * p.y == h.c
  }

  /** The intersection of two non-parallel boundary lines, by Cramer's rule. */
  function Meet(h1: HalfPlane, h2: HalfPlane): (p: Point)
    requires Det(h1, h2) != 0.0
    ensures OnBoundary(h1, p) && OnBoundary(h2, p)
  {
    var D := Det(h1, h2);
    var p := Point((h1.c * h2.b - h2.c * h1.b) / D, (h1.a * h2.c - h2.a * h1.c) / D);
    MeetOnBoth(h1, h2, D, p);
    p
  }

  lemma MeetOnBoth(h1: HalfPlane, h2: HalfPlane, D: real, p: Point)
    requires D == Det(h1, h2) && D != 0.0
    requires p == Point((h1.c * h2.b - h2.c * h1.b) / D, (h1.a * h2.c - h2.a * h1.c) / D)
    ensures OnBoundary(h1, p) && OnBoundary(h2, p)
  {
    var X := h1.c * h2.b - h2.c * h1.b;
    var Y := h1.a * h2.c - h2.a * h1.c;
    assert p.x * D == X && p.y * D == Y;
    calc {
      (h1.a * p.x + h1.b * p.y) * D;
      h1.a * (p.x * D) + h1.b * (p.y * D);
      h1.a * X + h1.b * Y;
      h1.c * D;
    }
    calc {
      (h2.a * p.x + h2.b * p.y) * D;
      h2.a * (p.x * D) + h2.b * (p.y * D);
      h2.a * X + h2.b * Y;
      h2.c * D;
    }
  }

  /** `p` violates `h` by no more than Eps9. */
  predicate Satisfies(h: HalfPlane, p: Point) {
    h.a * p.x + h.b * p.y <= h.c + Eps9
  }

  predicate Feasible(cons: seq<HalfPlane>, p: Point) {
    forall k :: 0 <= k < |cons| ==> Satisfies(cons[k], p)
  }

  /** Whether the pair (i, j) gives a vertex: its lines are not parallel
      (|D| >= Eps9) and their meeting point is feasible. */
  predicate Vertex(cons: seq<HalfPlane>, i: nat, j: nat)
    requires i < |cons| && j < |cons|
  {
    Abs(Det(cons[i], cons[j])) >= Eps9 && Feasible(cons, Meet(cons[i], cons[j]))
  }

  /** The vertex of pair (i, j), if it is one. */
  function PairPoint(cons: seq<HalfPlane>, i: nat, j: nat): seq<Point>
    requires i < |cons| && j < |cons|
  {
    if Vertex(cons, i, j) then [Meet(cons[i], cons[j])] else []
  }

  /** Vertices of the pairs (i, j) with i < j < upto, in loop order. */
  function RowPoints(cons: seq<HalfPlane>, i: nat, upto: nat): seq<Point>
    requires i < |cons| && upto <= |cons|
  {
    if upto <= i + 1 then [] else RowPoints(cons, i, upto - 1) + PairPoint(cons, i, upto - 1)
  }

  /** Vertices of the pairs whose first index is below `rows`, in loop order. */
  function PointsUpTo(cons: seq<HalfPlane>, rows: nat): seq<Point>
    requires rows <= |cons|
  {
    if rows == 0 then [] else PointsUpTo(cons, rows - 1) + RowPoints(cons, rows - 1, |cons|)
  }

  /** All vertices, in the order the pair loops find them. */
  function Survivors(cons: seq<HalfPlane>): seq<Point> {
    PointsUpTo(cons, |cons|)
  }

  lemma {:induction false} RowPointsMembers(cons: seq<HalfPlane>, i: nat, upto: nat, p: Point)
    requires i < |cons| && upto <= |cons|
    ensures p in RowPoints(cons, i, upto) <==>
      exists j :: i < j < upto && Vertex(cons, i, j) && Meet(cons[i], cons[j]) == p
    decreases upto
  {
    if upto > i + 1 {
      RowPointsMembers(cons, i, upto - 1, p);
    }
  }

  lemma {:induction false} PointsUpToMembers(cons: seq<HalfPlane>, rows: nat, p: Point)
    requires rows <= |cons|
    ensures p in PointsUpTo(cons, rows) <==>
      exists i, j :: 0 <= i < rows && i < j < |cons| && Vertex(cons, i, j) && Meet(cons[i], cons[j]) == p
    decreases rows
  {
    if rows > 0 {
      var i := rows - 1;
      var A, B := PointsUpTo(cons, i), RowPoints(cons, i, |cons|);
      assert PointsUpTo(cons, rows) == A + B;
      assert p in A + B <==> p in A || p in B;
      PointsUpToMembers(cons, i, p);
      RowPointsMembers(cons, i, |cons|, p);
      if p in RowPoints(cons, i, |cons|) {
        var j :| i < j < |cons| && Vertex(cons, i, j) && Meet(cons[i], cons[j]) == p;
        assert 0 <= i < rows && i < j < |cons| && Vertex(cons, i, j) && Meet(cons[i], cons[j]) == p;
      }
      if exists i', j :: 0 <= i' < rows && i' < j < |cons| && Vertex(cons, i', j) && Meet(cons[i'], cons[j]) == p {
        var i', j :| 0 <= i' < rows && i' < j < |cons| && Vertex(cons, i', j) && Meet(cons[i'], cons[j]) == p;
        if i' == i {
          assert i < j < |cons| && Vertex(cons, i, j) && Meet(cons[i], cons[j]) == p;
        } else {
          assert p in PointsUpTo(cons, i);
        }
      }
    }
  }

  /** A point survives exactly when some pair i < j of non-parallel boundary
      lines meets in it and it satisfies every constraint within Eps9. */
  lemma SurvivorsMembers(cons: seq<HalfPlane>, p: Point)
    ensures p in Survivors(cons) <==>
      exists i, j :: 0 <= i < j < |cons| && Abs(Det(cons[i], cons[j])) >= Eps9 &&
        Meet(cons[i], cons[j]) == p && Feasible(cons, p)
  {
    PointsUpToMembers(cons, |cons|, p);
    if p in Survivors(cons) {
      var i, j :| 0 <= i < |cons| && i < j < |cons| && Vertex(cons, i, j) && Meet(cons[i], cons[j]) == p;
      assert Abs(Det(cons[i], cons[j])) >= Eps9 && Feasible(cons, p);
    }
    if exists i, j :: 0 <= i < j < |cons| && Abs(Det(cons[i], cons[j])) >= Eps9 &&
        Meet(cons[i], cons[j]) == p && Feasible(cons, p) {
      var i, j :| 0 <= i < j < |cons| && Abs(Det(cons[i], cons[j])) >= Eps9 &&
        Meet(cons[i], cons[j]) == p && Feasible(cons, p);
      assert Vertex(cons, i, j);
    }
  }

  /** Every surviving point lies on both boundary lines of its pair and
      satisfies every constraint within Eps9. */
  lemma SurvivorsOnBoundaries(cons: seq<HalfPlane>, p: Point)
    requires p in Survivors(cons)
    ensures Feasible(cons, p)
    ensures exists i, j ::
      0 <= i < j < |cons| && Abs(Det(cons[i], cons[j])) >= Eps9 && OnBoundary(cons[i], p) && OnBoundary(cons[j], p)
  {
    SurvivorsMembers(cons, p);
  }

  lemma {:induction false} RowPointsCount(cons: seq<HalfPlane>, i: nat, upto: nat)
    requires i < |cons| && upto <= |cons|
    ensures |RowPoints(cons, i, upto)| <= if upto <= i + 1 then 0 else upto - i - 1
    decreases upto
  {
    if upto > i + 1 {
      RowPointsCount(cons, i, upto - 1);
    }
  }

  lemma {:induction false} PointsUpToCount(cons: seq<HalfPlane>, rows: nat)
    requires rows <= |cons|
    ensures 2 * |PointsUpTo(cons, rows)| <= rows * (2 * |cons| - rows - 1)
    decreases rows
  {
    if rows > 0 {
      PointsUpToCount(cons, rows - 1);
      RowPointsCount(cons, rows - 1, |cons|);
      PairCountStep(rows, |cons|);
    }
  }

  lemma PairCountStep(r: int, N: int)
    ensures (r - 1) * (2 * N - (r - 1) - 1) + 2 * (N - r) == r * (2 * N - r - 1)
  {
    calc {
      (r - 1) * (2 * N - r);
      r * (2 * N - r) - (2 * N - r);
      2 * N * r - r * r - 2 * N + r;
    }
  }

  /** At most one vertex per pair: no more than n(n-1)/2 points. */
  lemma SurvivorsCount(cons: seq<HalfPlane>)
    ensures 2 * |Survivors(cons)| <= |cons| * (|cons| - 1)
  {
    PointsUpToCount(cons, |cons|);
  }

  // ---------------------------------------------------------------- ordering

  function SumX(pts: seq<Point>): real {
    if pts == [] then 0.0 else SumX(pts[..|pts| - 1]) + pts[|pts| - 1].x
  }

  function SumY(pts: seq<Point>): real {
    if pts == [] then 0.0 else SumY(pts[..|pts| - 1]) + pts[|pts| - 1].y
  }

  /** The mean of the points: the centre the vertices are ordered around. */
  function Centroid(pts: seq<Point>): Point
    requires |pts| > 0
  {
    Point(SumX(pts) / |pts| as real, SumY(pts) / |pts| as real)
  }

  /** The sort key of `p`: the angle `angle(dy, dx)` of `p` seen from `ctr`. */
  function Key(angle: (real, real) -> real, ctr: Point, p: Point): real {
    angle(p.y - ctr.y, p.x - ctr.x)
  }

  predicate SortedBy(angle: (real, real) -> real, ctr: Point, s: seq<Point>) {
    forall i, j :: 0 <= i < j < |s| ==> Key(angle, ctr, s[i]) <= Key(angle, ctr, s[j])
  }

  /** `p` inserted into `s` after every element whose key is not larger. */
  function InsertByKey(angle: (real, real) -> real, ctr: Point, p: Point, s: seq<Point>): (r: seq<Point>)
    ensures multiset(r) == multiset(s) + multiset{p}
    ensures |r| == |s| + 1
  {
    if s == [] then [p]
    else if Key(angle, ctr, s[|s| - 1]) <= Key(angle, ctr, p) then s + [p]
    else
      assert s == s[..|s| - 1] + [s[|s| - 1]];
      InsertByKey(angle, ctr, p, s[..|s| - 1]) + [s[|s| - 1]]
  }

  /** Insertion keeps a sorted sequence sorted. */
  lemma {:induction false} InsertSorted(angle: (real, real) -> real, ctr: Point, p: Point, s: seq<Point>)
    requires SortedBy(angle, ctr, s)
    ensures SortedBy(angle, ctr, InsertByKey(angle, ctr, p, s))
    decreases |s|
  {
    if s == [] {
    } else if Key(angle, ctr, s[|s| - 1]) <= Key(angle, ctr, p) {
      forall i | 0 <= i < |s| ensures Key(angle, ctr, s[i]) <= Key(angle, ctr, p) {
        if i < |s| - 1 {
          assert Key(angle, ctr, s[i]) <= Key(angle, ctr, s[|s| - 1]);
        }
      }
      SortedSnoc(angle, ctr, s, p);
    } else {
      var front := s[..|s| - 1];
      var last := s[|s| - 1];
      assert SortedBy(angle, ctr, front);
      InsertSorted(angle, ctr, p, front);
      var r := InsertByKey(angle, ctr, p, front);
      forall i | 0 <= i < |r| ensures Key(angle, ctr, r[i]) <= Key(angle, ctr, last) {
        var q := r[i];
        assert q in multiset(r);
        assert q in multiset(front) || q == p;
        if q != p {
          var t :| 0 <= t < |front| && front[t] == q;
          assert s[t] == q;
        }
      }
      SortedSnoc(angle, ctr, r, last);
    }
  }

  /** Appending an element no smaller than every key keeps a sequence sorted. */
  lemma SortedSnoc(angle: (real, real) -> real, ctr: Point, r: seq<Point>, x: Point)
    requires SortedBy(angle, ctr, r)
    requires forall i :: 0 <= i < |r| ==> Key(angle, ctr, r[i]) <= Key(angle, ctr, x)
    ensures SortedBy(angle, ctr, r + [x])
  {
    var r' := r + [x];
    forall i, j | 0 <= i < j < |r'| ensures Key(angle, ctr, r'[i]) <= Key(angle, ctr, r'[j]) {
      if j == |r| {
        assert r'[i] == r[i];
      } else {
        assert r'[i] == r[i] && r'[j] == r[j];
      }
    }
  }

  /** A stable insertion sort by `Key`, the model of the comparator sort. */
  function SortByKey(angle: (real, real) -> real, ctr: Point, s: seq<Point>): (r: seq<Point>)
    ensures multiset(r) == multiset(s) && |r| == |s|
    ensures SortedBy(angle, ctr, r)
  {
    if s == [] then []
    else
      assert s == s[..|s| - 1] + [s[|s| - 1]];
      var front := SortByKey(angle, ctr, s[..|s| - 1]);
      InsertSorted(angle, ctr, s[|s| - 1], front);
      InsertByKey(angle, ctr, s[|s| - 1], front)
  }

  /** Whether `p` satisfies every constraint within Eps9 (stops at the first
      violated one). */
  method SatisfiesAll(cons: seq<HalfPlane>, p: Point) returns (ok: bool)
    ensures ok <==> Feasible(cons, p)
  {
    ok := true;
    var k := 0;
    while k < |cons|
      invariant 0 <= k <= |cons|
      invariant forall q :: 0 <= q < k ==> Satisfies(cons[q], p)
    {
      var h := cons[k];
      if h.a * p.x + h.b * p.y > h.c + Eps9 {
        ok := false;
        return;
      }
      k := k + 1;
    }
  }

  /** Intersects every pair i < j of non-parallel boundary lines and keeps
      the feasible meeting points, in loop order. */
  method Intersections(cons: seq<HalfPlane>) returns (pts: seq<Point>)
    ensures pts == Survivors(cons)
  {
    pts := [];
    var i := 0;
    while i < |cons|
      invariant 0 <= i <= |cons|
      invariant pts == PointsUpTo(cons, i)
    {
      var row := RowIntersections(cons, i);
      pts := pts + row;
      i := i + 1;
    }
  }

  /** The inner pair loop for a first index `i`: the vertices of the pairs
      (i, j), i < j, in loop order. */
  method RowIntersections(cons: seq<HalfPlane>, i: nat) returns (row: seq<Point>)
    requires i < |cons|
    ensures row == RowPoints(cons, i, |cons|)
  {
    row := [];
    var j := i + 1;
    while j < |cons|
      invariant i + 1 <= j <= |cons|
      invariant row == RowPoints(cons, i, j)
    {
      var found := PairIntersection(cons, i, j);
      row := row + found;
      j := j + 1;
    }
  }

  /** The body of the pair loop: skip near-parallel lines, otherwise meet
      them by Cramer's rule and keep the point when it is feasible. */
  method PairIntersection(cons: seq<HalfPlane>, i: nat, j: nat) returns (found: seq<Point>)
    requires i < j < |cons|
    ensures found == PairPoint(cons, i, j)
  {
    var h1 := cons[i];
    var h2 := cons[j];
    var D := h1.a * h2.b - h2.a * h1.b;
    assert D == Det(h1, h2);
    if Abs(D) < Eps9 {
      return [];
    }
    var x := (h1.c * h2.b - h2.c * h1.b) / D;
    var y := (h1.a * h2.c - h2.a * h1.c) / D;
    assert Point(x, y) == Meet(h1, h2);
    var ok := SatisfiesAll(cons, Point(x, y));
    if ok {
      return [Point(x, y)];
    }
    return [];
  }

  /** The vertices of the feasible region, ordered by the angle (given as
      `angle`, the arc tangent of dy over dx) around their centroid. */
  method HullFromConstraints(cons: seq<HalfPlane>, angle: (real, real) -> real) returns (hull: seq<Point>)
    ensures |Survivors(cons)| == 0 ==> hull == []
    ensures |Survivors(cons)| > 0 ==> hull == SortByKey(angle, Centroid(Survivors(cons)), Survivors(cons))
    ensures multiset(hull) == multiset(Survivors(cons))
    ensures 2 * |hull| <= |cons| * (|cons| - 1)
    ensures forall p :: p in hull ==> p in Survivors(cons)
  {
    var pts := Intersections(cons);
    SurvivorsCount(cons);
    if |pts| == 0 {
      return [];
    }
    var ctr := Centroid(pts);
    hull := SortByKey(angle, ctr, pts);
    forall p | p in hull ensures p in Survivors(cons) {
      assert p in multiset(hull);
    }
  }

  // ---------------------------------------------------------------- canvas fit

  /** The first and the second coordinates of the points. */
  function Xs(pts: seq<Point>): (xs: seq<real>)
    ensures |xs| == |pts| && forall k :: 0 <= k < |pts| ==> xs[k] == pts[k].x
  {
    seq(|pts|, k requires 0 <= k < |pts| => pts[k].x)
  }

  function Ys(pts: seq<Point>): (ys: seq<real>)
    ensures |ys| == |pts| && forall k :: 0 <= k < |pts| ==> ys[k] == pts[k].y
  {
    seq(|pts|, k requires 0 <= k < |pts| => pts[k].y)
  }

  /** The least element of a non-empty sequence. */
  function MinOf(xs: seq<real>): (r: real)
    requires |xs| > 0
    ensures r in xs && forall k :: 0 <= k < |xs| ==> r <= xs[k]
  {
    if |xs| == 1 then xs[0]
    else
      var rest := MinOf(xs[1..]);
      assert forall k :: 1 <= k < |xs| ==> xs[k] == xs[1..][k - 1];
      if xs[0] <= rest then xs[0] else rest
  }

  /** The greatest element of a non-empty sequence. */
  function MaxOf(xs: seq<real>): (r: real)
    requires |xs| > 0
    ensures r in xs && forall k :: 0 <= k < |xs| ==> r >= xs[k]
  {
    if |xs| == 1 then xs[0]
    else
      var rest := MaxOf(xs[1..]);
      assert forall k :: 1 <= k < |xs| ==> xs[k] == xs[1..][k - 1];
      if xs[0] >= rest then xs[0] else rest
  }

  /** A bounding-box extent, with 0 replaced by 1 (the `|| 1` fallback). */
  function Extent(lo: real, hi: real): (w: real)
    requires lo <= hi
    ensures w > 0.0 && (hi - lo > 0.0 ==> w == hi - lo) && (hi == lo ==> w == 1.0)
  {
    if hi - lo == 0.0 then 1.0 else hi - lo
  }

  datatype Box = Box(minX: real, maxX: real, minY: real, maxY: real)

  /** The points' bounding box: tight on every side. */
  function BoundingBox(pts: seq<Point>): (box: Box)
    requires |pts| > 0
    ensures box.minX <= box.maxX && box.minY <= box.maxY
    ensures forall k :: 0 <= k < |pts| ==> box.minX <= pts[k].x <= box.maxX && box.minY <= pts[k].y <= box.maxY
    ensures box.minX in Xs(pts) && box.maxX in Xs(pts) && box.minY in Ys(pts) && box.maxY in Ys(pts)
  {
    var xs, ys := Xs(pts), Ys(pts);
    var box := Box(MinOf(xs), MaxOf(xs), MinOf(ys), MaxOf(ys));
    assert xs[0] == pts[0].x && ys[0] == pts[0].y;
    box
  }

  datatype Fit = Fit(scale: real, origin: Point)

  /** The uniform scale that fits the points' bounding box into the canvas
      less `pad` on each side, and the origin that puts the box's lower-left
      corner at (pad, height - pad). */
  function FitToCanvas(pts: seq<Point>, width: real, height: real, pad: real): (f: Fit)
    requires |pts| > 0
    ensures FitsBox(f, BoundingBox(pts), width, height, pad)
  {
    FitBox(BoundingBox(pts), width, height, pad)
  }

  /** `f` scales `box` by the smaller of the two canvas-to-extent ratios (zero
      extents counted as 1) and puts its lower-left corner at (pad, height - pad). */
  predicate FitsBox(f: Fit, box: Box, width: real, height: real, pad: real)
    requires box.minX <= box.maxX && box.minY <= box.maxY
  {
    var hullW := Extent(box.minX, box.maxX);
    var hullH := Extent(box.minY, box.maxY);
    f.scale <= (width - 2.0 * pad) / hullW && f.scale <= (height - 2.0 * pad) / hullH &&
    (f.scale == (width - 2.0 * pad) / hullW || f.scale == (height - 2.0 * pad) / hullH) &&
    f.origin.x + box.minX * f.scale == pad &&
    f.origin.y - box.minY * f.scale == height - pad
  }

  /** The scale and origin for a given bounding box. */
  function FitBox(box: Box, width: real, height: real, pad: real): (f: Fit)
    requires box.minX <= box.maxX && box.minY <= box.maxY
    ensures FitsBox(f, box, width, height, pad)
  {
    var hullW := Extent(box.minX, box.maxX);
    var hullH := Extent(box.minY, box.maxY);
    var scale := MinRatio(width - 2.0 * pad, hullW, height - 2.0 * pad, hullH);
    Fit(scale, Origin(pad, height, box.minX, box.minY, scale))
  }

  /** The origin that puts (minX, minY) at (pad, height - pad) under `scale`. */
  function Origin(pad: real, height: real, minX: real, minY: real, scale: real): (o: Point)
    ensures o.x + minX * scale == pad && o.y - minY * scale == height - pad
  {
    CancelOffset(pad, minX, scale);
    CancelOffset(height - pad, minY, scale);
    Point(pad + (-minX) * scale, height - pad - (-minY) * scale)
  }

  /** The smaller of `roomW / hullW` and `roomH / hullH`. */
  function MinRatio(roomW: real, hullW: real, roomH: real, hullH: real): (s: real)
    requires hullW > 0.0 && hullH > 0.0
    ensures s <= roomW / hullW && s <= roomH / hullH && (s == roomW / hullW || s == roomH / hullH)
  {
    var sw := roomW / hullW;
    var sh := roomH / hullH;
    if sw <= sh then sw else sh
  }

  lemma CancelOffset(a: real, v: real, s: real)
    ensures (a + (-v) * s) + v * s == a
    ensures (a - (-v) * s) - v * s == a
  {
  }

  /** Where the drawing code puts a point: right by x, up by y, from the origin. */
  function ToCanvas(f: Fit, p: Point): Point {
    Point(f.origin.x + p.x * f.scale, f.origin.y - p.y * f.scale)
  }

  /** An offset `d` within an extent `h`, scaled by at most `room / h`, stays within `room`. */
  lemma ScaledSpan(d: real, h: real, s: real, room: real)
    requires 0.0 <= d <= h && h > 0.0 && 0.0 <= s <= room / h
    ensures 0.0 <= d * s <= room
  {
    assert d * s <= h * s;
    assert h * s <= h * (room / h);
    assert h * (room / h) == room;
  }

  /** When the padding fits the canvas, every point lands inside the padded box. */
  lemma FitInside(pts: seq<Point>, width: real, height: real, pad: real, k: nat)
    requires |pts| > 0 && k < |pts| && 2.0 * pad <= width && 2.0 * pad <= height
    ensures var q := ToCanvas(FitToCanvas(pts, width, height, pad), pts[k]);
      pad <= q.x <= width - pad && pad <= q.y <= height - pad
  {
    FitBoxInside(BoundingBox(pts), FitToCanvas(pts, width, height, pad), width, height, pad, pts[k]);
  }

  /** A fit of `box` maps every point of the box inside the padded canvas. */
  lemma FitBoxInside(box: Box, f: Fit, width: real, height: real, pad: real, p: Point)
    requires box.minX <= p.x <= box.maxX && box.minY <= p.y <= box.maxY
    requires FitsBox(f, box, width, height, pad) && 2.0 * pad <= width && 2.0 * pad <= height
    ensures var q := ToCanvas(f, p);
      pad <= q.x <= width - pad && pad <= q.y <= height - pad
  {
    FitScaleNonNegative(f, box, width, height, pad);
    PlaceInside(box, f, width, height, pad, p);
  }

  /** The fitted scale is not negative when the padding fits the canvas. */
  lemma FitScaleNonNegative(f: Fit, box: Box, width: real, height: real, pad: real)
    requires box.minX <= box.maxX && box.minY <= box.maxY
    requires FitsBox(f, box, width, height, pad) && 2.0 * pad <= width && 2.0 * pad <= height
    ensures 0.0 <= f.scale <= (width - 2.0 * pad) / Extent(box.minX, box.maxX)
    ensures f.scale <= (height - 2.0 * pad) / Extent(box.minY, box.maxY)
  {
    RatioNonNegative(width - 2.0 * pad, Extent(box.minX, box.maxX));
    RatioNonNegative(height - 2.0 * pad, Extent(box.minY, box.maxY));
  }

  /** A fit whose scale is within both ratios and whose origin puts the box's
      lower-left corner at (pad, height - pad) maps the box inside the padded canvas. */
  lemma PlaceInside(box: Box, f: Fit, width: real, height: real, pad: real, p: Point)
    requires box.minX <= p.x <= box.maxX && box.minY <= p.y <= box.maxY
    requires 0.0 <= f.scale <= (width - 2.0 * pad) / Extent(box.minX, box.maxX)
    requires f.scale <= (height - 2.0 * pad) / Extent(box.minY, box.maxY)
    requires f.origin.x + box.minX * f.scale == pad && f.origin.y - box.minY * f.scale == height - pad
    ensures var q := ToCanvas(f, p);
      pad <= q.x <= width - pad && pad <= q.y <= height - pad
  {
    PlaceRight(f.origin.x, box.minX, box.maxX, p.x, f.scale, width - 2.0 * pad, pad);
    PlaceDown(f.origin.y, box.minY, box.maxY, p.y, f.scale, height - 2.0 * pad, height - pad);
  }

  lemma RatioNonNegative(a: real, b: real)
    requires a >= 0.0 && b > 0.0
    ensures a / b >= 0.0
  {
  }

  /** On the x axis: an origin `o` that puts `lo` at `base` and a scale of at
      most `room / Extent(lo, hi)` put every `v` in [lo, hi] within `room` to
      the right of `base`. */
  lemma PlaceRight(o: real, lo: real, hi: real, v: real, s: real, room: real, base: real)
    requires lo <= v <= hi && 0.0 <= s <= room / Extent(lo, hi) && o + lo * s == base
    ensures base <= o + v * s <= base + room
  {
    ScaledSpan(v - lo, Extent(lo, hi), s, room);
    assert o + v * s == base + (v - lo) * s;
  }

  /** On the y axis, which points down: as `PlaceRight`, within `room` above `base`. */
  lemma PlaceDown(o: real, lo: real, hi: real, v: real, s: real, room: real, base: real)
    requires lo <= v <= hi && 0.0 <= s <= room / Extent(lo, hi) && o - lo * s == base
    ensures base - room <= o - v * s <= base
  {
    ScaledSpan(v - lo, Extent(lo, hi), s, room);
    assert o - v * s == base - (v - lo) * s;
  }
}
