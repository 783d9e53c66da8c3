/** Feature engineering on a standardized pose table (touchscreen_toolbox/postprocess/feature.py):
    distances, velocities, angles and angular velocities of the mouse's body points, and of the
    snout relative to the screens and the food port. The table is gap-free here: its cells are
    reals. Rounding the new columns to DECIMALS is not modelled. */
module Feature {
  import opened Tables
  import opened Arithmetic

  /** The body points of `internal_behaviour`. */
  const KEYPOINTS: seq<string> := ["snout", "spine1", "spine2", "tail1"]

  /** The targets of `external_behaviour`, in loop order. */
  const TARGETS: seq<string> := ["l_screen", "m_screen", "r_screen", "food_port"]

  // --- series ---------------------------------------------------------------

  /** `velocity1`: `np.diff(x, prepend=x[0])`, the first differences with a leading 0. Taking the
      first element of an empty series raises IndexError, hence the precondition. */
  function Velocity1(x: seq<real>): (r: seq<real>)
    requires |x| > 0
    ensures |r| == |x| && r[0] == 0.0
    ensures forall i :: 0 < i < |x| ==> r[i] == x[i] - x[i - 1]
  {
    var y := [x[0]] + x;
    seq(|x|, i requires 0 <= i < |x| => y[i + 1] - y[i])
  }

  function Sum(s: seq<real>): real {
    if s == [] then 0.0 else Sum(s[..|s| - 1]) + s[|s| - 1]
  }

  /** Velocity1 loses only the starting value: summing the differences up to `i` from `x[0]`
      gives back `x[i]`. */
  lemma {:induction false} Velocity1Integrates(x: seq<real>, i: nat)
    requires i < |x|
    ensures x[0] + Sum(Velocity1(x)[..i + 1]) == x[i]
  {
    var v := Velocity1(x);
    if i == 0 {
      assert v[..1] == [0.0];
      assert Sum([0.0]) == Sum([]) + 0.0;
    } else {
      Velocity1Integrates(x, i - 1);
      assert v[..i + 1][..i] == v[..i];
    }
  }

  /** `get_angv`: first differences of angles in degrees, moved by 360 towards 0 where they
      exceed 180 in magnitude. */
  function GetAngv(angles: seq<real>): (r: seq<real>)
    requires |angles| > 0
    ensures |r| == |angles|
  {
    var v := Velocity1(angles);
    seq(|v|, i requires 0 <= i < |v| =>
      v[i] - (if Abs(v[i]) > 180.0 then 1.0 else 0.0) * 360.0 * ((if v[i] > 0.0 then 1.0 else 0.0) * 2.0 - 1.0))
  }

  /** The angular velocity starts at 0 and differs from the raw difference by 0 or a full turn;
      a raw difference within half a turn is kept. */
  lemma GetAngvWraps(angles: seq<real>)
    requires |angles| > 0
    ensures GetAngv(angles)[0] == 0.0
    ensures forall i :: 0 <= i < |angles| ==>
      var d := GetAngv(angles)[i] - Velocity1(angles)[i]; d == 0.0 || d == 360.0 || d == -360.0
    ensures forall i :: 0 <= i < |angles| && Abs(Velocity1(angles)[i]) <= 180.0 ==>
      GetAngv(angles)[i] == Velocity1(angles)[i]
  {
  }

  /** For angles in [0, 360), as `angle1`, `angle3` and `absangle` give, every angular velocity
      lies within half a turn. */
  lemma GetAngvRange(angles: seq<real>)
    requires |angles| > 0
    requires forall i :: 0 <= i < |angles| ==> 0.0 <= angles[i] < 360.0
    ensures forall i :: 0 <= i < |angles| ==> -180.0 <= GetAngv(angles)[i] <= 180.0
  {
    var v := Velocity1(angles);
    forall i | 0 <= i < |angles| ensures -360.0 < v[i] < 360.0 {
    }
  }

  /** Turning from 350 through 355 and 2 to 8 degrees is a steady turn of 5, 7 and 6 degrees. */
  lemma GetAngvExample()
    ensures GetAngv([350.0, 355.0, 2.0, 8.0]) == [0.0, 5.0, 7.0, 6.0]
  {
  }

  /** The raw first difference that `internal_behaviour` uses for its `angv-` columns does jump
      by nearly a full turn where the angle crosses 0. */
  lemma Velocity1Unwrapped()
    ensures Velocity1([350.0, 10.0]) == [0.0, -340.0]
    ensures GetAngv([350.0, 10.0]) == [0.0, 20.0]
  {
  }

  /** `angv * (angle > 180) + -angv * (angle < 180)`: the sign of the angular velocity relative to
      a target, so that a positive value turns towards it. */
  function Oriented(angv: seq<real>, angle: seq<real>): (r: seq<real>)
    requires |angv| == |angle|
    ensures |r| == |angv|
  {
    seq(|angv|, i requires 0 <= i < |angv| =>
      angv[i] * (if angle[i] > 180.0 then 1.0 else 0.0) + -angv[i] * (if angle[i] < 180.0 then 1.0 else 0.0))
  }

  /** The oriented velocity is the velocity above 180 degrees, its negation below, and 0 at 180;
      its magnitude never exceeds the velocity's. */
  lemma OrientedCases(angv: seq<real>, angle: seq<real>)
    requires |angv| == |angle|
    ensures forall i :: 0 <= i < |angv| ==>
      Oriented(angv, angle)[i] ==
        (if angle[i] > 180.0 then angv[i] else if angle[i] < 180.0 then -angv[i] else 0.0)
    ensures forall i :: 0 <= i < |angv| ==> Abs(Oriented(angv, angle)[i]) <= Abs(angv[i])
  {
  }

  // --- points -----------------------------------------------------------------

  /** `get_distance`: `sqrt(dx ** 2 + dy ** 2)` frame by frame. */
  function Distances(m: Math, a: seq<Point>, b: seq<Point>): (r: seq<real>)
    requires Lawful(m) && |a| == |b|
    ensures |r| == |a| && forall i :: 0 <= i < |a| ==> 0.0 <= r[i]
  {
    seq(|a|, i requires 0 <= i < |a| => Dist1(m, a[i].Minus(b[i])))
  }

  lemma SqZero(x: real)
    ensures Sq(x) == 0.0 <==> x == 0.0
  {
    if x > 0.0 {
      assert Sq(x) / x == x;
    } else if x < 0.0 {
      assert Sq(x) / x == x;
    }
  }

  /** The distance between two points does not depend on their order, and is 0 exactly in the
      frames where they coincide. */
  lemma DistancesSymmetric(m: Math, a: seq<Point>, b: seq<Point>)
    requires Lawful(m) && |a| == |b|
    ensures Distances(m, a, b) == Distances(m, b, a)
    ensures forall i :: 0 <= i < |a| ==> (Distances(m, a, b)[i] == 0.0 <==> a[i] == b[i])
  {
    forall i | 0 <= i < |a| ensures Distances(m, a, b)[i] == Distances(m, b, a)[i] {
      Dist2Symmetric(m, b[i], a[i]);
      assert a[i].Minus(b[i]) == Point(a[i].x - b[i].x, a[i].y - b[i].y);
    }
    forall i | 0 <= i < |a| ensures Distances(m, a, b)[i] == 0.0 <==> a[i] == b[i] {
      var d := a[i].Minus(b[i]);
      var r := Distances(m, a, b)[i];
      SqNonNegative(d.x);
      SqNonNegative(d.y);
      SqZero(r);
      SqZero(d.x);
      SqZero(d.y);
    }
  }

  function Xs(a: seq<Point>): seq<real> { seq(|a|, i requires 0 <= i < |a| => a[i].x) }

  function Ys(a: seq<Point>): seq<real> { seq(|a|, i requires 0 <= i < |a| => a[i].y) }

  /** `velocity2`: the length of the vector of first differences of x and y. */
  function Velocity2(m: Math, a: seq<Point>): (r: seq<real>)
    requires Lawful(m) && |a| > 0
    ensures |r| == |a|
  {
    var dx := Velocity1(Xs(a));
    var dy := Velocity1(Ys(a));
    seq(|a|, i requires 0 <= i < |a| => Dist1(m, Point(dx[i], dy[i])))
  }

  /** The speed is 0 in the first frame and afterwards the distance the point moved since the
      frame before. */
  lemma Velocity2Steps(m: Math, a: seq<Point>)
    requires Lawful(m) && |a| > 0
    ensures Velocity2(m, a)[0] == 0.0
    ensures forall i :: 0 < i < |a| ==> Velocity2(m, a)[i] == Dist2(m, a[i - 1], a[i])
  {
    SqZero(Velocity2(m, a)[0]);
    forall i | 0 < i < |a| ensures Velocity2(m, a)[i] == Dist2(m, a[i - 1], a[i]) {
      assert a[i].Minus(a[i - 1]) == Point(Xs(a)[i] - Xs(a)[i - 1], Ys(a)[i] - Ys(a)[i - 1]);
    }
  }

  /** `(spine1 + lEar + rEar) / 3`, the neck. */
  function Centroid(a: seq<Point>, b: seq<Point>, c: seq<Point>): (r: seq<Point>)
    requires |a| == |b| == |c|
    ensures |r| == |a|
  {
    seq(|a|, i requires 0 <= i < |a| =>
      Point((a[i].x + b[i].x + c[i].x) / 3.0, (a[i].y + b[i].y + c[i].y) / 3.0))
  }

  /** Moving all three points moves the neck with them, so the angle at the neck between the
      snout and a target does not change when the whole scene is translated. */
  lemma CentroidTranslation(m: Math, a: seq<Point>, b: seq<Point>, c: seq<Point>, s: seq<Point>, g: seq<Point>, d: Point)
    requires Lawful(m) && |a| == |b| == |c| == |s| == |g|
    ensures Centroid(Shift(a, d), Shift(b, d), Shift(c, d)) == Shift(Centroid(a, b, c), d)
    ensures Angle3(m, Shift(s, d), Centroid(Shift(a, d), Shift(b, d), Shift(c, d)), Shift(g, d), false)
         == Angle3(m, s, Centroid(a, b, c), g, false)
  {
    assert Centroid(Shift(a, d), Shift(b, d), Shift(c, d)) == Shift(Centroid(a, b, c), d);
    Angle3Translation(m, s, Centroid(a, b, c), g, d, false);
  }

  // --- the table --------------------------------------------------------------

  /** The table has the x and y columns of point `p`. */
  predicate HasPoint(t: seq<Column<real>>, p: string) {
    p + "_x" in Names(t) && p + "_y" in Names(t)
  }

  /** `select_bodypart`: the (x, y) rows of a point. */
  function Bodypart(t: seq<Column<real>>, p: string, n: nat): (r: seq<Point>)
    requires Rectangular(t, n) && HasPoint(t, p)
    ensures |r| == n
  {
    var xs := Get(t, p + "_x");
    var ys := Get(t, p + "_y");
    seq(n, i requires 0 <= i < n => Point(xs[i], ys[i]))
  }

  function Neck(t: seq<Column<real>>, n: nat): (r: seq<Point>)
    requires Rectangular(t, n) && HasPoint(t, "spine1") && HasPoint(t, "lEar") && HasPoint(t, "rEar")
    ensures |r| == n
  {
    Centroid(Bodypart(t, "spine1", n), Bodypart(t, "lEar", n), Bodypart(t, "rEar", n))
  }

  /** One iteration of a loop of `internal_behaviour` or `external_behaviour`: each emits a pair of
      columns, a quantity and its rate of change. */
  datatype Feature =
    | Pair(a: string, b: string)                 // d-a-b, v-a-b
    | Triple(a: string, b: string, c: string)    // ang-a-b-c, angv-a-b-c
    | Motion(p: string)                          // v-p, a-p
    | Head                                       // head_ang, head_angv
    | Approach(target: string)                   // d-snout-target, v-snout-target
    | Orient(target: string)                     // ang-snout-target, angv-snout-target

  /** The points a feature reads. */
  predicate Available(t: seq<Column<real>>, f: Feature) {
    match f
    case Pair(a, b) => HasPoint(t, a) && HasPoint(t, b)
    case Triple(a, b, c) => HasPoint(t, a) && HasPoint(t, b) && HasPoint(t, c)
    case Motion(p) => HasPoint(t, p)
    case Head => HasPoint(t, "snout") && HasPoint(t, "spine1") && HasPoint(t, "lEar") && HasPoint(t, "rEar")
    case Approach(g) => HasPoint(t, "snout") && HasPoint(t, g)
    case Orient(g) =>
      HasPoint(t, "snout") && HasPoint(t, "spine1") && HasPoint(t, "lEar") && HasPoint(t, "rEar") && HasPoint(t, g)
  }

  /** A quantity and its rate of change as two named columns of equal length. */
  function Twin(a: string, x: seq<real>, b: string, y: seq<real>): (r: seq<Column<real>>)
    requires |x| == |y|
    ensures |r| == 2 && Rectangular(r, |x|) && r[0] == Column(a, x) && r[1] == Column(b, y)
  {
    [Column(a, x), Column(b, y)]
  }

  /** `d-a-b` and `v-a-b`: the distance between two points and its first difference. */
  function PairBlock(m: Math, t: seq<Column<real>>, n: nat, a: string, b: string): (r: seq<Column<real>>)
    requires Lawful(m) && Rectangular(t, n) && n > 0 && HasPoint(t, a) && HasPoint(t, b)
    ensures |r| == 2 && Rectangular(r, n)
  {
    var d := Distances(m, Bodypart(t, a, n), Bodypart(t, b, n));
    Twin("d-" + a + "-" + b, d, "v-" + a + "-" + b, Velocity1(d))
  }

  /** `ang-a-b-c` and `angv-a-b-c`: the angle at `b` in degrees and its raw first difference. */
  function TripleBlock(m: Math, t: seq<Column<real>>, n: nat, a: string, b: string, c: string): (r: seq<Column<real>>)
    requires Lawful(m) && Rectangular(t, n) && n > 0 && HasPoint(t, a) && HasPoint(t, b) && HasPoint(t, c)
    ensures |r| == 2 && Rectangular(r, n)
  {
    var ang := Angle3(m, Bodypart(t, a, n), Bodypart(t, b, n), Bodypart(t, c, n), false);
    Twin("ang-" + a + "-" + b + "-" + c, ang, "angv-" + a + "-" + b + "-" + c, Velocity1(ang))
  }

  /** `v-p` and `a-p`: the speed of a point and its first difference. */
  function MotionBlock(m: Math, t: seq<Column<real>>, n: nat, p: string): (r: seq<Column<real>>)
    requires Lawful(m) && Rectangular(t, n) && n > 0 && HasPoint(t, p)
    ensures |r| == 2 && Rectangular(r, n)
  {
    var v := Velocity2(m, Bodypart(t, p, n));
    Twin("v-" + p, v, "a-" + p, Velocity1(v))
  }

  /** `head_ang` and `head_angv`: the direction from the neck to the snout in degrees and its
      angular velocity. */
  function HeadBlock(m: Math, t: seq<Column<real>>, n: nat): (r: seq<Column<real>>)
    requires Lawful(m) && Rectangular(t, n) && n > 0 && Available(t, Head)
    ensures |r| == 2 && Rectangular(r, n)
  {
    var h := AbsAngle(m, Bodypart(t, "snout", n), Neck(t, n), false);
    Twin("head_ang", h, "head_angv", GetAngv(h))
  }

  /** `d-snout-g` and `v-snout-g`: the snout's distance to a target and its first difference. */
  function ApproachBlock(m: Math, t: seq<Column<real>>, n: nat, g: string): (r: seq<Column<real>>)
    requires Lawful(m) && Rectangular(t, n) && n > 0 && HasPoint(t, "snout") && HasPoint(t, g)
    ensures |r| == 2 && Rectangular(r, n)
  {
    var d := Distances(m, Bodypart(t, "snout", n), Bodypart(t, g, n));
    Twin("d-snout-" + g, d, "v-snout-" + g, Velocity1(d))
  }

  /** `ang-snout-g` and `angv-snout-g`: the angle at the neck from the snout to a target in degrees
      and its angular velocity, signed so that turning towards the target is positive. */
  function OrientBlock(m: Math, t: seq<Column<real>>, n: nat, g: string): (r: seq<Column<real>>)
    requires Lawful(m) && Rectangular(t, n) && n > 0 && Available(t, Orient(g))
    ensures |r| == 2 && Rectangular(r, n)
  {
    var target := Bodypart(t, g, n);
    var ang := Angle3(m, Bodypart(t, "snout", n), Neck(t, n), target, false);
    Twin("ang-snout-" + g, ang, "angv-snout-" + g, Oriented(GetAngv(ang), ang))
  }

  /** The two columns of a feature. */
  function Block(m: Math, t: seq<Column<real>>, n: nat, f: Feature): (r: seq<Column<real>>)
    requires Lawful(m) && Rectangular(t, n) && n > 0 && Available(t, f)
    ensures |r| == 2 && Rectangular(r, n)
  {
    match f
    case Pair(a, b) => PairBlock(m, t, n, a, b)
    case Triple(a, b, c) => TripleBlock(m, t, n, a, b, c)
    case Motion(p) => MotionBlock(m, t, n, p)
    case Head => HeadBlock(m, t, n)
    case Approach(g) => ApproachBlock(m, t, n, g)
    case Orient(g) => OrientBlock(m, t, n, g)
  }

  /** Apart from the angular velocities of the head and of the targets, the second column of a
      feature is the raw first difference of the first. */
  lemma RateBlock(m: Math, t: seq<Column<real>>, n: nat, f: Feature)
    requires Lawful(m) && Rectangular(t, n) && n > 0 && Available(t, f) && !f.Head? && !f.Orient?
    ensures |Block(m, t, n, f)[0].cells| > 0
    ensures Block(m, t, n, f)[1].cells == Velocity1(Block(m, t, n, f)[0].cells)
  {
  }

  /** Distances and speeds are never negative. */
  lemma DistanceBlock(m: Math, t: seq<Column<real>>, n: nat, f: Feature)
    requires Lawful(m) && Rectangular(t, n) && n > 0 && Available(t, f) && (f.Pair? || f.Approach? || f.Motion?)
    ensures forall i :: 0 <= i < n ==> 0.0 <= Block(m, t, n, f)[0].cells[i]
  {
    if f.Motion? {
      var r := MotionBlock(m, t, n, f.p);
      var a := Bodypart(t, f.p, n);
      var dx := Velocity1(Xs(a));
      var dy := Velocity1(Ys(a));
      forall i | 0 <= i < n ensures 0.0 <= r[0].cells[i] {
        assert r[0].cells[i] == Dist1(m, Point(dx[i], dy[i]));
      }
    }
  }

  /** The head direction is in [0, 360) degrees and its angular velocity within half a turn. */
  lemma HeadTurns(m: Math, t: seq<Column<real>>, n: nat)
    requires Lawful(m) && Rectangular(t, n) && n > 0 && Available(t, Head)
    ensures forall i :: 0 <= i < n ==> 0.0 <= HeadBlock(m, t, n)[0].cells[i] < 360.0
    ensures forall i :: 0 <= i < n ==> -180.0 <= HeadBlock(m, t, n)[1].cells[i] <= 180.0
  {
    var r := HeadBlock(m, t, n);
    GetAngvRange(r[0].cells);
  }

  /** The angle to a target is in [0, 360) degrees and its signed angular velocity within half a
      turn. */
  lemma OrientTurns(m: Math, t: seq<Column<real>>, n: nat, g: string)
    requires Lawful(m) && Rectangular(t, n) && n > 0 && Available(t, Orient(g))
    ensures forall i :: 0 <= i < n ==> 0.0 <= OrientBlock(m, t, n, g)[0].cells[i] < 360.0
    ensures forall i :: 0 <= i < n ==> -180.0 <= OrientBlock(m, t, n, g)[1].cells[i] <= 180.0
  {
    var r := OrientBlock(m, t, n, g);
    OrientedRange(r[0].cells);
  }

  /** For angles in [0, 360), the signed angular velocity stays within half a turn. */
  lemma OrientedRange(ang: seq<real>)
    requires |ang| > 0 && forall i :: 0 <= i < |ang| ==> 0.0 <= ang[i] < 360.0
    ensures forall i :: 0 <= i < |ang| ==> -180.0 <= Oriented(GetAngv(ang), ang)[i] <= 180.0
  {
    var v := GetAngv(ang);
    GetAngvRange(ang);
    OrientedCases(v, ang);
    forall i | 0 <= i < |ang| ensures -180.0 <= Oriented(v, ang)[i] <= 180.0 {
      assert Abs(Oriented(v, ang)[i]) <= Abs(v[i]);
    }
  }

  /** Angles are in [0, 360) degrees, and the angular velocities of the head and of the targets
      within half a turn. */
  lemma TurnBlock(m: Math, t: seq<Column<real>>, n: nat, f: Feature)
    requires Lawful(m) && Rectangular(t, n) && n > 0 && Available(t, f) && (f.Triple? || f.Head? || f.Orient?)
    ensures forall i :: 0 <= i < n ==> 0.0 <= Block(m, t, n, f)[0].cells[i] < 360.0
    ensures f.Head? || f.Orient? ==> forall i :: 0 <= i < n ==> -180.0 <= Block(m, t, n, f)[1].cells[i] <= 180.0
  {
    match f
    case Triple(a, b, c) =>
    case Head => HeadTurns(m, t, n);
    case Orient(g) => OrientTurns(m, t, n, g);
  }

  /** What `blk` makes of each entry of `fs`, one after the other. */
  function Joined<F, T>(blk: F --> seq<T>, fs: seq<F>): (r: seq<T>)
    requires forall k :: 0 <= k < |fs| ==> blk.requires(fs[k])
  {
    if fs == [] then [] else Joined(blk, fs[..|fs| - 1]) + blk(fs[|fs| - 1])
  }

  lemma JoinedStep<F, T>(blk: F --> seq<T>, fs: seq<F>, i: nat)
    requires forall k :: 0 <= k < |fs| ==> blk.requires(fs[k])
    requires i < |fs|
    ensures Joined(blk, fs[..i + 1]) == Joined(blk, fs[..i]) + blk(fs[i])
  {
    assert fs[..i + 1][..i] == fs[..i];
  }

  lemma {:induction false} JoinedConcat<F, T>(blk: F --> seq<T>, fs: seq<F>, gs: seq<F>)
    requires forall k :: 0 <= k < |fs| ==> blk.requires(fs[k])
    requires forall k :: 0 <= k < |gs| ==> blk.requires(gs[k])
    ensures forall k :: 0 <= k < |fs + gs| ==> blk.requires((fs + gs)[k])
    ensures Joined(blk, fs + gs) == Joined(blk, fs) + Joined(blk, gs)
  {
    if gs == [] {
      assert fs + gs == fs;
    } else {
      var front, last := gs[..|gs| - 1], gs[|gs| - 1];
      assert (fs + gs)[..|fs + gs| - 1] == fs + front;
      assert (fs + gs)[|fs + gs| - 1] == last;
      JoinedConcat(blk, fs, front);
    }
  }

  /** Blocks of two columns of `n` cells join into twice as many columns of `n` cells, block `k`
      at positions `2k` and `2k + 1`. */
  lemma {:induction false} JoinedPairs<F, T>(blk: F --> seq<Column<T>>, fs: seq<F>, n: nat)
    requires forall k :: 0 <= k < |fs| ==> blk.requires(fs[k])
    requires forall k :: 0 <= k < |fs| ==> |blk(fs[k])| == 2 && Rectangular(blk(fs[k]), n)
    ensures |Joined(blk, fs)| == 2 * |fs| && Rectangular(Joined(blk, fs), n)
    ensures forall k :: 0 <= k < |fs| ==>
      Joined(blk, fs)[2 * k] == blk(fs[k])[0] && Joined(blk, fs)[2 * k + 1] == blk(fs[k])[1]
  {
    if fs != [] {
      var front := fs[..|fs| - 1];
      JoinedPairs(blk, front, n);
      assert forall k :: 0 <= k < |front| ==> front[k] == fs[k];
    }
  }

  /** `Block`, as a value. */
  function BlockOf(m: Math, t: seq<Column<real>>, n: nat): (r: Feature --> seq<Column<real>>)
    requires Lawful(m) && Rectangular(t, n) && n > 0
    ensures forall f :: Available(t, f) ==> r.requires(f) && r(f) == Block(m, t, n, f)
  {
    f requires Available(t, f) => Block(m, t, n, f)
  }

  /** The columns of a list of features, block after block. */
  function Blocks(m: Math, t: seq<Column<real>>, n: nat, fs: seq<Feature>): (r: seq<Column<real>>)
    requires Lawful(m) && Rectangular(t, n) && n > 0
    requires forall k :: 0 <= k < |fs| ==> Available(t, fs[k])
    ensures |r| == 2 * |fs| && Rectangular(r, n)
  {
    JoinedPairs(BlockOf(m, t, n), fs, n);
    Joined(BlockOf(m, t, n), fs)
  }

  /** The blocks of the first `i + 1` features are those of the first `i` and then block `i`. */
  lemma BlocksStep(m: Math, t: seq<Column<real>>, n: nat, fs: seq<Feature>, i: nat)
    requires Lawful(m) && Rectangular(t, n) && n > 0
    requires forall k :: 0 <= k < |fs| ==> Available(t, fs[k])
    requires i < |fs|
    ensures Blocks(m, t, n, fs[..i + 1]) == Blocks(m, t, n, fs[..i]) + Block(m, t, n, fs[i])
  {
    JoinedStep(BlockOf(m, t, n), fs, i);
  }

  /** Columns `2k` and `2k + 1` are those of feature `k`. */
  lemma BlocksAt(m: Math, t: seq<Column<real>>, n: nat, fs: seq<Feature>, k: nat)
    requires Lawful(m) && Rectangular(t, n) && n > 0
    requires forall j :: 0 <= j < |fs| ==> Available(t, fs[j])
    requires k < |fs|
    ensures Blocks(m, t, n, fs)[2 * k] == Block(m, t, n, fs[k])[0]
    ensures Blocks(m, t, n, fs)[2 * k + 1] == Block(m, t, n, fs[k])[1]
  {
    JoinedPairs(BlockOf(m, t, n), fs, n);
  }

  /** The blocks of two lists of features, one after the other. */
  lemma BlocksConcat(m: Math, t: seq<Column<real>>, n: nat, fs: seq<Feature>, gs: seq<Feature>)
    requires Lawful(m) && Rectangular(t, n) && n > 0
    requires forall k :: 0 <= k < |fs| ==> Available(t, fs[k])
    requires forall k :: 0 <= k < |gs| ==> Available(t, gs[k])
    ensures forall k :: 0 <= k < |fs + gs| ==> Available(t, (fs + gs)[k])
    ensures Blocks(m, t, n, fs + gs) == Blocks(m, t, n, fs) + Blocks(m, t, n, gs)
  {
    JoinedConcat(BlockOf(m, t, n), fs, gs);
  }

  // --- combinations -------------------------------------------------------------

  /** `x` paired with each entry of `ys`, in order. */
  function Firsts<T>(x: T, ys: seq<T>): (r: seq<(T, T)>)
    ensures |r| == |ys| && forall j :: 0 <= j < |ys| ==> r[j] == (x, ys[j])
  {
    if ys == [] then [] else [(x, ys[0])] + Firsts(x, ys[1..])
  }

  /** `x` put in front of each pair of `ps`, in order. */
  function Fronted<T>(x: T, ps: seq<(T, T)>): (r: seq<(T, T, T)>)
    ensures |r| == |ps| && forall j :: 0 <= j < |ps| ==> r[j] == (x, ps[j].0, ps[j].1)
  {
    if ps == [] then [] else [(x, ps[0].0, ps[0].1)] + Fronted(x, ps[1..])
  }

  /** `combinations(ks, 2)`: the pairs in index order. */
  function Pairs<T>(ks: seq<T>): seq<(T, T)>
  {
    if ks == [] then [] else Firsts(ks[0], ks[1..]) + Pairs(ks[1..])
  }

  /** `combinations(ks, 3)`: the triples in index order. */
  function Triples<T>(ks: seq<T>): seq<(T, T, T)>
  {
    if ks == [] then [] else Fronted(ks[0], Pairs(ks[1..])) + Triples(ks[1..])
  }

  /** There are n(n-1)/2 pairs, each of two entries of `ks` taken in increasing position. */
  lemma {:induction false} PairsOf<T>(ks: seq<T>)
    ensures 2 * |Pairs(ks)| == |ks| * (|ks| - 1)
    ensures forall j :: 0 <= j < |Pairs(ks)| ==>
      exists a, b :: 0 <= a < b < |ks| && Pairs(ks)[j] == (ks[a], ks[b])
  {
    if ks != [] {
      var rest := ks[1..];
      PairsOf(rest);
      var h := |ks| - 1;
      var head := Firsts(ks[0], rest);
      assert Pairs(ks) == head + Pairs(rest);
      assert 2 * |Pairs(ks)| == 2 * h + |rest| * (|rest| - 1);
      forall j | 0 <= j < |Pairs(ks)| ensures exists a, b :: 0 <= a < b < |ks| && Pairs(ks)[j] == (ks[a], ks[b]) {
        if j < h {
          assert Pairs(ks)[j] == head[j] == (ks[0], ks[j + 1]);
        } else {
          var a, b :| 0 <= a < b < |rest| && Pairs(rest)[j - h] == (rest[a], rest[b]);
          assert Pairs(ks)[j] == (ks[a + 1], ks[b + 1]);
        }
      }
    }
  }

  lemma TripleCountStep(m: int, p: int, q: int)
    requires 2 * p == (m - 1) * (m - 2) && 6 * q == (m - 1) * (m - 2) * (m - 3)
    ensures 6 * (p + q) == m * (m - 1) * (m - 2)
  {
    assert (m - 1) * (m - 2) * (m - 3) + 3 * ((m - 1) * (m - 2)) == (m - 1) * (m - 2) * m;
  }

  /** There are n(n-1)(n-2)/6 triples, each of three entries of `ks` in increasing position. */
  lemma {:induction false} TriplesOf<T>(ks: seq<T>)
    ensures 6 * |Triples(ks)| == |ks| * (|ks| - 1) * (|ks| - 2)
    ensures forall j :: 0 <= j < |Triples(ks)| ==>
      exists a, b, c :: 0 <= a < b < c < |ks| && Triples(ks)[j] == (ks[a], ks[b], ks[c])
  {
    if ks != [] {
      var rest := ks[1..];
      TriplesOf(rest);
      PairsOf(rest);
      var ps := Pairs(rest);
      var head := Fronted(ks[0], ps);
      assert Triples(ks) == head + Triples(rest);
      TripleCountStep(|ks|, |ps|, |Triples(rest)|);
      forall j | 0 <= j < |Triples(ks)|
        ensures exists a, b, c :: 0 <= a < b < c < |ks| && Triples(ks)[j] == (ks[a], ks[b], ks[c])
      {
        if j < |ps| {
          var a, b :| 0 <= a < b < |rest| && ps[j] == (rest[a], rest[b]);
          assert Triples(ks)[j] == head[j] == (ks[0], ks[a + 1], ks[b + 1]);
        } else {
          var a, b, c :| 0 <= a < b < c < |rest| && Triples(rest)[j - |ps|] == (rest[a], rest[b], rest[c]);
          assert Triples(ks)[j] == (ks[a + 1], ks[b + 1], ks[c + 1]);
        }
      }
    }
  }

  lemma CombinationsOfTwo<T>(c: T, d: T)
    ensures Pairs([c, d]) == [(c, d)] && Triples([c, d]) == []
  {
    assert [c, d][1..] == [d] && [d][1..] == [];
    assert Pairs([d]) == [] && Triples([d]) == [];
  }

  lemma CombinationsOfThree<T>(b: T, c: T, d: T)
    ensures Pairs([b, c, d]) == [(b, c), (b, d), (c, d)] && Triples([b, c, d]) == [(b, c, d)]
  {
    assert [b, c, d][1..] == [c, d];
    CombinationsOfTwo(c, d);
    assert Firsts(b, [c, d]) == [(b, c), (b, d)];
  }

  /** The pairs and triples of four entries, in `combinations` order. */
  lemma CombinationsOfFour<T>(a: T, b: T, c: T, d: T)
    ensures Pairs([a, b, c, d]) == [(a, b), (a, c), (a, d), (b, c), (b, d), (c, d)]
    ensures Triples([a, b, c, d]) == [(a, b, c), (a, b, d), (a, c, d), (b, c, d)]
  {
    assert [a, b, c, d][1..] == [b, c, d];
    CombinationsOfThree(b, c, d);
    assert Firsts(a, [b, c, d]) == [(a, b), (a, c), (a, d)];
    assert Fronted(a, [(b, c), (b, d), (c, d)]) == [(a, b, c), (a, b, d), (a, c, d)];
  }

  /** The six pairs and four triples of the keypoints, in `combinations` order. */
  lemma KeypointCombinations()
    ensures Pairs(KEYPOINTS) == [("snout", "spine1"), ("snout", "spine2"), ("snout", "tail1"),
                                 ("spine1", "spine2"), ("spine1", "tail1"), ("spine2", "tail1")]
    ensures Triples(KEYPOINTS) == [("snout", "spine1", "spine2"), ("snout", "spine1", "tail1"),
                                   ("snout", "spine2", "tail1"), ("spine1", "spine2", "tail1")]
  {
    CombinationsOfFour("snout", "spine1", "spine2", "tail1");
  }

  function PairFeatures(ps: seq<(string, string)>): (r: seq<Feature>)
    ensures |r| == |ps|
  {
    seq(|ps|, j requires 0 <= j < |ps| => Pair(ps[j].0, ps[j].1))
  }

  function TripleFeatures(ps: seq<(string, string, string)>): (r: seq<Feature>)
    ensures |r| == |ps|
  {
    seq(|ps|, j requires 0 <= j < |ps| => Triple(ps[j].0, ps[j].1, ps[j].2))
  }

  function MotionFeatures(ks: seq<string>): (r: seq<Feature>)
    ensures |r| == |ks|
  {
    seq(|ks|, j requires 0 <= j < |ks| => Motion(ks[j]))
  }

  /** The table has every keypoint's x and y columns. */
  predicate HasKeypoints(t: seq<Column<real>>) {
    forall k :: 0 <= k < |KEYPOINTS| ==> HasPoint(t, KEYPOINTS[k])
  }

  /** The features of `internal_behaviour`: the pairs, then the triples, then the points. */
  function InternalFeatures(): seq<Feature> {
    PairFeatures(Pairs(KEYPOINTS)) + TripleFeatures(Triples(KEYPOINTS)) + MotionFeatures(KEYPOINTS)
  }

  /** Every feature built from the points of `ks` reads only points the table has. */
  lemma FeaturesAvailable(t: seq<Column<real>>, ks: seq<string>)
    requires forall k :: 0 <= k < |ks| ==> HasPoint(t, ks[k])
    ensures AllAvailable(t, PairFeatures(Pairs(ks)))
    ensures AllAvailable(t, TripleFeatures(Triples(ks)))
    ensures AllAvailable(t, MotionFeatures(ks))
    ensures 2 * |Pairs(ks)| == |ks| * (|ks| - 1) && 6 * |Triples(ks)| == |ks| * (|ks| - 1) * (|ks| - 2)
  {
    PairsOf(ks);
    TriplesOf(ks);
  }

  /** The six pairs, four triples and four points of the keypoints. */
  lemma InternalAvailable(t: seq<Column<real>>)
    requires HasKeypoints(t)
    ensures AllAvailable(t, PairFeatures(Pairs(KEYPOINTS)))
    ensures AllAvailable(t, TripleFeatures(Triples(KEYPOINTS)))
    ensures AllAvailable(t, MotionFeatures(KEYPOINTS))
    ensures AllAvailable(t, InternalFeatures()) && |InternalFeatures()| == 14
  {
    var ks := KEYPOINTS;
    FeaturesAvailable(t, ks);
    assert |ks| == 4;
    var p, q, r := PairFeatures(Pairs(ks)), TripleFeatures(Triples(ks)), MotionFeatures(ks);
    assert |p| == 6 && |q| == 4 && |r| == 4;
    AvailableConcat(t, p, q, r);
  }

  lemma AvailableConcat(t: seq<Column<real>>, p: seq<Feature>, q: seq<Feature>, r: seq<Feature>)
    requires AllAvailable(t, p) && AllAvailable(t, q) && AllAvailable(t, r)
    ensures AllAvailable(t, p + q + r)
  {
    forall k | 0 <= k < |p + q + r| ensures Available(t, (p + q + r)[k]) {
      if k < |p| {
        assert (p + q + r)[k] == p[k];
      } else if k < |p| + |q| {
        assert (p + q + r)[k] == q[k - |p|];
      } else {
        assert (p + q + r)[k] == r[k - |p| - |q|];
      }
    }
  }

  /** One loop of `internal_behaviour` or `external_behaviour`: the columns of each feature in
      turn added to the new table. */
  method AddBlocks(m: Math, t: seq<Column<real>>, n: nat, new_: seq<Column<real>>, fs: seq<Feature>)
    returns (r: seq<Column<real>>)
    requires Lawful(m) && Rectangular(t, n) && n > 0
    requires forall k :: 0 <= k < |fs| ==> Available(t, fs[k])
    ensures r == new_ + Blocks(m, t, n, fs)
  {
    r := new_;
    var i := 0;
    while i < |fs|
      invariant 0 <= i <= |fs|
      invariant r == new_ + Blocks(m, t, n, fs[..i])
    {
      var b := Block(m, t, n, fs[i]);
      BlocksStep(m, t, n, fs, i);
      AppendStep(new_, Blocks(m, t, n, fs[..i]), b, r);
      r := r + b;
      i := i + 1;
    }
    assert fs[..i] == fs;
  }

  /** `internal_behaviour(data)`: a new table filled column by column, the distance pairs first,
      then the angle triples, then the point speeds. */
  method InternalBehaviour(m: Math, t: seq<Column<real>>, n: nat) returns (new_: seq<Column<real>>)
    requires Lawful(m) && Rectangular(t, n) && n > 0 && HasKeypoints(t)
    ensures forall k :: 0 <= k < |InternalFeatures()| ==> Available(t, InternalFeatures()[k])
    ensures new_ == Blocks(m, t, n, InternalFeatures())
  {
    InternalAvailable(t);
    var pairs := PairFeatures(Pairs(KEYPOINTS));
    var triples := TripleFeatures(Triples(KEYPOINTS));
    var points := MotionFeatures(KEYPOINTS);
    new_ := AddBlocks(m, t, n, [], pairs);
    new_ := AddBlocks(m, t, n, new_, triples);
    new_ := AddBlocks(m, t, n, new_, points);
    BlocksOfThree(m, t, n, pairs, triples, points);
  }

  lemma BlocksOfThree(m: Math, t: seq<Column<real>>, n: nat, p: seq<Feature>, q: seq<Feature>, r: seq<Feature>)
    requires Lawful(m) && Rectangular(t, n) && n > 0
    requires forall k :: 0 <= k < |p| ==> Available(t, p[k])
    requires forall k :: 0 <= k < |q| ==> Available(t, q[k])
    requires forall k :: 0 <= k < |r| ==> Available(t, r[k])
    ensures forall k :: 0 <= k < |p + q + r| ==> Available(t, (p + q + r)[k])
    ensures Blocks(m, t, n, p + q + r) == [] + Blocks(m, t, n, p) + Blocks(m, t, n, q) + Blocks(m, t, n, r)
  {
    BlocksConcat(m, t, n, p, q);
    BlocksConcat(m, t, n, p + q, r);
    Concat3(Blocks(m, t, n, p), Blocks(m, t, n, q), Blocks(m, t, n, r), Blocks(m, t, n, p + q), Blocks(m, t, n, p + q + r));
  }

  lemma Concat3<T>(a: seq<T>, b: seq<T>, c: seq<T>, ab: seq<T>, abc: seq<T>)
    requires ab == a + b && abc == ab + c
    ensures abc == [] + a + b + c
  {
  }

  /** Where no feature is an angular velocity of the head or of a target, every second column is
      the raw first difference of the column before it. */
  lemma RatesFollow(m: Math, t: seq<Column<real>>, n: nat, fs: seq<Feature>)
    requires Lawful(m) && Rectangular(t, n) && n > 0
    requires forall k :: 0 <= k < |fs| ==> Available(t, fs[k]) && !fs[k].Head? && !fs[k].Orient?
    ensures forall k :: 0 <= k < |fs| ==>
      Blocks(m, t, n, fs)[2 * k + 1].cells == Velocity1(Blocks(m, t, n, fs)[2 * k].cells)
  {
    forall k | 0 <= k < |fs|
      ensures Blocks(m, t, n, fs)[2 * k + 1].cells == Velocity1(Blocks(m, t, n, fs)[2 * k].cells)
    {
      BlocksAt(m, t, n, fs, k);
      RateBlock(m, t, n, fs[k]);
    }
  }

  /** `internal_behaviour` emits 28 columns of n frames: six distance pairs, four angle triples and
      four speeds, each followed by its raw first difference. */
  lemma InternalLayout(m: Math, t: seq<Column<real>>, n: nat)
    requires Lawful(m) && Rectangular(t, n) && n > 0 && HasKeypoints(t)
    ensures forall k :: 0 <= k < |InternalFeatures()| ==> Available(t, InternalFeatures()[k])
    ensures |InternalFeatures()| == 14 && |Blocks(m, t, n, InternalFeatures())| == 28
    ensures forall k :: 0 <= k < 14 ==>
      Blocks(m, t, n, InternalFeatures())[2 * k + 1].cells == Velocity1(Blocks(m, t, n, InternalFeatures())[2 * k].cells)
  {
    InternalAvailable(t);
    RatesFollow(m, t, n, InternalFeatures());
  }

  /** For each target, its distance pair and then its angle pair. */
  function TargetFeatures(gs: seq<string>): (r: seq<Feature>)
    ensures |r| == 2 * |gs|
  {
    seq(2 * |gs|, j requires 0 <= j < 2 * |gs| => if j % 2 == 0 then Approach(gs[j / 2]) else Orient(gs[j / 2]))
  }

  /** The table has the points `external_behaviour` reads. */
  predicate HasExternalPoints(t: seq<Column<real>>) {
    HasPoint(t, "snout") && HasPoint(t, "spine1") && HasPoint(t, "lEar") && HasPoint(t, "rEar") &&
    forall k :: 0 <= k < |TARGETS| ==> HasPoint(t, TARGETS[k])
  }

  /** The head angle, then the targets. */
  function HeadThen(gs: seq<string>): seq<Feature> {
    [Head] + TargetFeatures(gs)
  }

  function ExternalFeatures(): seq<Feature> {
    HeadThen(TARGETS)
  }

  /** Every feature of the list reads only points the table has. */
  predicate AllAvailable(t: seq<Column<real>>, fs: seq<Feature>) {
    forall k :: 0 <= k < |fs| ==> Available(t, fs[k])
  }

  lemma {:induction false} TargetsAvailable(t: seq<Column<real>>, gs: seq<string>)
    requires Available(t, Head) && forall k :: 0 <= k < |gs| ==> HasPoint(t, gs[k])
    ensures AllAvailable(t, HeadThen(gs))
  {
    var fs := HeadThen(gs);
    forall k | 0 <= k < |fs| ensures Available(t, fs[k]) {
      if k > 0 {
        assert fs[k] == TargetFeatures(gs)[k - 1];
      }
    }
  }

  lemma ExternalAvailable(t: seq<Column<real>>)
    requires HasExternalPoints(t)
    ensures AllAvailable(t, ExternalFeatures())
  {
    TargetsAvailable(t, TARGETS);
  }

  /** One more target adds its distance pair and its angle pair. */
  lemma TargetStep(m: Math, t: seq<Column<real>>, n: nat, gs: seq<string>, i: nat)
    requires Lawful(m) && Rectangular(t, n) && n > 0
    requires Available(t, Head) && forall k :: 0 <= k < |gs| ==> HasPoint(t, gs[k])
    requires i < |gs|
    ensures AllAvailable(t, HeadThen(gs[..i])) && AllAvailable(t, HeadThen(gs[..i + 1]))
    ensures AllAvailable(t, [Approach(gs[i]), Orient(gs[i])])
    ensures Blocks(m, t, n, HeadThen(gs[..i + 1]))
         == Blocks(m, t, n, HeadThen(gs[..i])) + Blocks(m, t, n, [Approach(gs[i]), Orient(gs[i])])
  {
    TargetsAvailable(t, gs[..i]);
    TargetsAvailable(t, gs[..i + 1]);
    var step := [Approach(gs[i]), Orient(gs[i])];
    assert TargetFeatures(gs[..i + 1]) == TargetFeatures(gs[..i]) + step;
    assert HeadThen(gs[..i + 1]) == HeadThen(gs[..i]) + step;
    BlocksConcat(m, t, n, HeadThen(gs[..i]), step);
  }

  /** `external_behaviour(data)`: the head angle columns, then the four columns of each target. */
  method ExternalBehaviour(m: Math, t: seq<Column<real>>, n: nat) returns (new_: seq<Column<real>>)
    requires Lawful(m) && Rectangular(t, n) && n > 0 && HasExternalPoints(t)
    ensures AllAvailable(t, ExternalFeatures())
    ensures new_ == Blocks(m, t, n, ExternalFeatures())
  {
    ExternalAvailable(t);
    new_ := TargetBlocks(m, t, n, TARGETS);
  }

  /** The loop of `external_behaviour`: the head columns, then for each target in turn its
      distance and angle columns. */
  method TargetBlocks(m: Math, t: seq<Column<real>>, n: nat, targets: seq<string>) returns (new_: seq<Column<real>>)
    requires Lawful(m) && Rectangular(t, n) && n > 0
    requires Available(t, Head) && forall k :: 0 <= k < |targets| ==> HasPoint(t, targets[k])
    ensures AllAvailable(t, HeadThen(targets))
    ensures new_ == Blocks(m, t, n, HeadThen(targets))
  {
    TargetsAvailable(t, targets);
    assert HeadThen(targets[..0]) == [Head];
    new_ := AddBlocks(m, t, n, [], [Head]);
    var i := 0;
    while i < |targets|
      invariant 0 <= i <= |targets|
      invariant AllAvailable(t, HeadThen(targets[..i]))
      invariant new_ == Blocks(m, t, n, HeadThen(targets[..i]))
    {
      var g := targets[i];
      TargetStep(m, t, n, targets, i);
      new_ := AddBlocks(m, t, n, new_, [Approach(g), Orient(g)]);
      i := i + 1;
    }
    assert targets[..i] == targets;
  }

  /** After the head come, for each target in turn, its distance and then its angle. */
  lemma TargetKinds(gs: seq<string>)
    ensures |HeadThen(gs)| == 2 * |gs| + 1 && HeadThen(gs)[0] == Head
    ensures forall k :: 0 < k < |HeadThen(gs)| && k % 2 == 1 ==> HeadThen(gs)[k].Approach?
    ensures forall k :: 0 < k < |HeadThen(gs)| && k % 2 == 0 ==> HeadThen(gs)[k].Orient?
  {
    var fs := HeadThen(gs);
    forall k | 0 < k < |fs| ensures fs[k] == TargetFeatures(gs)[k - 1] { }
  }

  /** An angle column in [0, 360) and beside it an angular velocity within half a turn. */
  predicate Turning(angle: seq<real>, rate: seq<real>) {
    |angle| == |rate| && forall i :: 0 <= i < |angle| ==> 0.0 <= angle[i] < 360.0 && -180.0 <= rate[i] <= 180.0
  }

  /** A column never negative and beside it its first difference. */
  predicate Distancing(d: seq<real>, rate: seq<real>) {
    |d| > 0 && (forall i :: 0 <= i < |d| ==> 0.0 <= d[i]) && rate == Velocity1(d)
  }

  /** The columns of an angle feature at position `k` of any feature list. */
  lemma TurnsAt(m: Math, t: seq<Column<real>>, n: nat, fs: seq<Feature>, k: nat)
    requires Lawful(m) && Rectangular(t, n) && n > 0
    requires forall j :: 0 <= j < |fs| ==> Available(t, fs[j])
    requires k < |fs| && (fs[k].Head? || fs[k].Orient?)
    ensures Turning(Blocks(m, t, n, fs)[2 * k].cells, Blocks(m, t, n, fs)[2 * k + 1].cells)
  {
    BlocksAt(m, t, n, fs, k);
    TurnBlock(m, t, n, fs[k]);
  }

  /** The columns of a distance feature at position `k` of any feature list. */
  lemma DistancesAt(m: Math, t: seq<Column<real>>, n: nat, fs: seq<Feature>, k: nat)
    requires Lawful(m) && Rectangular(t, n) && n > 0
    requires forall j :: 0 <= j < |fs| ==> Available(t, fs[j])
    requires k < |fs| && (fs[k].Pair? || fs[k].Approach? || fs[k].Motion?)
    ensures Distancing(Blocks(m, t, n, fs)[2 * k].cells, Blocks(m, t, n, fs)[2 * k + 1].cells)
  {
    BlocksAt(m, t, n, fs, k);
    DistanceBlock(m, t, n, fs[k]);
    RateBlock(m, t, n, fs[k]);
  }

  /** `external_behaviour` emits 18 columns: the head and target angles in [0, 360) with angular
      velocities within half a turn, and the target distances, never negative, each followed by its
      first difference. */
  lemma ExternalLayout(m: Math, t: seq<Column<real>>, n: nat)
    requires Lawful(m) && Rectangular(t, n) && n > 0 && HasExternalPoints(t)
    ensures AllAvailable(t, ExternalFeatures())
    ensures |ExternalFeatures()| == 9 && |Blocks(m, t, n, ExternalFeatures())| == 18
    ensures forall k :: 0 <= k < 9 && k % 2 == 0 ==>
      Turning(Blocks(m, t, n, ExternalFeatures())[2 * k].cells, Blocks(m, t, n, ExternalFeatures())[2 * k + 1].cells)
    ensures forall k :: 0 <= k < 9 && k % 2 == 1 ==>
      Distancing(Blocks(m, t, n, ExternalFeatures())[2 * k].cells, Blocks(m, t, n, ExternalFeatures())[2 * k + 1].cells)
  {
    ExternalAvailable(t);
    TargetKinds(TARGETS);
    assert |TARGETS| == 4 && |ExternalFeatures()| == 9;
    forall k | 0 <= k < 9 && k % 2 == 0
      ensures Turning(Blocks(m, t, n, ExternalFeatures())[2 * k].cells, Blocks(m, t, n, ExternalFeatures())[2 * k + 1].cells)
    {
      TurnsAt(m, t, n, ExternalFeatures(), k);
    }
    forall k | 0 <= k < 9 && k % 2 == 1
      ensures Distancing(Blocks(m, t, n, ExternalFeatures())[2 * k].cells, Blocks(m, t, n, ExternalFeatures())[2 * k + 1].cells)
    {
      DistancesAt(m, t, n, ExternalFeatures(), k);
    }
  }

  // --- the combined table ---------------------------------------------------------

  /** A column under a top-level label. */
  datatype Labelled = Labelled(top: string, column: Column<real>)

  /** `make_multiindex(df, name)`: every column put under `name`, on a copy. */
  function MakeMultiindex(t: seq<Column<real>>, name: string): (r: seq<Labelled>)
    ensures |r| == |t|
  {
    seq(|t|, i requires 0 <= i < |t| => Labelled(name, t[i]))
  }

  /** Dropping the top level of the labels gives back the table. */
  function DropLevel(r: seq<Labelled>): (t: seq<Column<real>>)
    ensures |t| == |r| && forall i :: 0 <= i < |r| ==> t[i] == r[i].column
  {
    seq(|r|, i requires 0 <= i < |r| => r[i].column)
  }

  /** Labelling keeps the columns, their names, values and order, and labels each with `name`. */
  lemma MultiindexInverse(t: seq<Column<real>>, name: string)
    ensures DropLevel(MakeMultiindex(t, name)) == t
    ensures forall i :: 0 <= i < |t| ==> MakeMultiindex(t, name)[i].top == name
  {
  }

  /** `engineering(data)`: the coordinates, the internal and the external features side by side,
      each under its own label. */
  method Engineering(m: Math, t: seq<Column<real>>, n: nat) returns (r: seq<Labelled>)
    requires Lawful(m) && Rectangular(t, n) && n > 0 && HasKeypoints(t) && HasExternalPoints(t)
    ensures forall k :: 0 <= k < |InternalFeatures()| ==> Available(t, InternalFeatures()[k])
    ensures AllAvailable(t, ExternalFeatures())
    ensures r == MakeMultiindex(t, "coordinate") + MakeMultiindex(Blocks(m, t, n, InternalFeatures()), "internal")
              + MakeMultiindex(Blocks(m, t, n, ExternalFeatures()), "external")
    ensures |r| == |t| + 46
  {
    var internal := InternalBehaviour(m, t, n);
    var external := ExternalBehaviour(m, t, n);
    InternalLayout(m, t, n);
    ExternalLayout(m, t, n);
    r := MakeMultiindex(t, "coordinate") + MakeMultiindex(internal, "internal") + MakeMultiindex(external, "external");
  }
}
