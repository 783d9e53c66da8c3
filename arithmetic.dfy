/** Points, distances, angles and the frame/second conversions of the toolbox's arithmetic helpers. */
module Arithmetic {
  import Config

  /** A 2-D point or vector (one row of an (n, 2) coordinate array). */
  datatype Point = Point(x: real, y: real) {
    function Minus(q: Point): Point { Point(x - q.x, y - q.y) }
    function Plus(q: Point): Point { Point(x + q.x, y + q.y) }
  }

  /** The floating-point library the helpers call (`np.sqrt` inside `np.linalg.norm`, `np.arctan2`,
      `math.pi`), passed in as values; `Lawful` is what the model relies on about them. */
  datatype Math = Math(sqrt: real -> real, atan2: (real, real) -> real, pi: real)

  ghost predicate Lawful(m: Math) {
    m.pi > 0.0 &&
    (forall x: real :: 0.0 <= x ==> 0.0 <= m.sqrt(x) && Sq(m.sqrt(x)) == x) &&
    (forall y: real, x: real :: -m.pi < m.atan2(y, x) <= m.pi)
  }

  function Abs(x: real): real { if x < 0.0 then -x else x }

  function Sq(x: real): real { x * x }

  /** `absmin`: elementwise, the value of smaller magnitude; on a tie, the second sequence's. */
  function AbsMin(a: seq<real>, b: seq<real>): (r: seq<real>)
    requires |a| == |b|
    ensures |r| == |a|
    ensures forall i :: 0 <= i < |a| ==>
      (r[i] == a[i] || r[i] == b[i]) && Abs(r[i]) <= Abs(a[i]) && Abs(r[i]) <= Abs(b[i])
    ensures forall i :: 0 <= i < |a| && Abs(a[i]) == Abs(b[i]) ==> r[i] == b[i]
  {
    seq(|a|, i requires 0 <= i < |a| => if Abs(a[i]) < Abs(b[i]) then a[i] else b[i])
  }

  /** `absmax`: elementwise, the value of larger magnitude; on a tie, the second sequence's. */
  function AbsMax(a: seq<real>, b: seq<real>): (r: seq<real>)
    requires |a| == |b|
    ensures |r| == |a|
    ensures forall i :: 0 <= i < |a| ==>
      (r[i] == a[i] || r[i] == b[i]) && Abs(a[i]) <= Abs(r[i]) && Abs(b[i]) <= Abs(r[i])
    ensures forall i :: 0 <= i < |a| && Abs(a[i]) == Abs(b[i]) ==> r[i] == b[i]
  {
    seq(|a|, i requires 0 <= i < |a| => if Abs(a[i]) > Abs(b[i]) then a[i] else b[i])
  }

  /** `dist1`: Euclidean distance from the origin. */
  function Dist1(m: Math, p: Point): (r: real)
    requires Lawful(m)
    ensures 0.0 <= r && Sq(r) == Sq(p.x) + Sq(p.y)
  {
    SqNonNegative(p.x);
    SqNonNegative(p.y);
    m.sqrt(Sq(p.x) + Sq(p.y))
  }

  lemma SqNonNegative(a: real)
    ensures 0.0 <= Sq(a)
  {
    if a < 0.0 {
      assert Sq(a) == Sq(-a);
    }
  }

  /** `dist2`: Euclidean distance between two points. */
  function Dist2(m: Math, p: Point, q: Point): (r: real)
    requires Lawful(m)
    ensures 0.0 <= r && Sq(r) == Sq(q.x - p.x) + Sq(q.y - p.y)
  {
    Dist1(m, q.Minus(p))
  }

  lemma Dist2Symmetric(m: Math, p: Point, q: Point)
    requires Lawful(m)
    ensures Dist2(m, p, q) == Dist2(m, q, p)
  {
    assert Sq(q.x - p.x) == Sq(p.x - q.x);
    assert Sq(q.y - p.y) == Sq(p.y - q.y);
  }

  // --- angles ---------------------------------------------------------------

  /** One element of `convert_angles`: a negative angle gains 2*pi; then, unless radians are
      requested, the angle is scaled by 180/pi into degrees. */
  function Converted(m: Math, a: real, radians: bool): (r: real)
    requires Lawful(m)
    ensures radians ==> r == a || r == a + 2.0 * m.pi
    ensures !radians ==> r * m.pi == 180.0 * (if a < 0.0 then a + 2.0 * m.pi else a)
  {
    var b := if a < 0.0 then a + 2.0 * m.pi else a;
    if radians then b else b * (180.0 / m.pi)
  }

  function ConvertedAll(m: Math, s: seq<real>, radians: bool): (r: seq<real>)
    requires Lawful(m)
    ensures |r| == |s|
    ensures forall i :: 0 <= i < |s| ==> r[i] == Converted(m, s[i], radians)
  {
    seq(|s|, i requires 0 <= i < |s| => Converted(m, s[i], radians))
  }

  /** An angle in (-2*pi, 2*pi) lands in [0, 2*pi) in radians, and in [0, 360) in degrees. */
  lemma ConvertedRange(m: Math, a: real)
    requires Lawful(m) && -2.0 * m.pi < a < 2.0 * m.pi
    ensures 0.0 <= Converted(m, a, true) < 2.0 * m.pi
    ensures 0.0 <= Converted(m, a, false) < 360.0
  {
    var b := Converted(m, a, true);
    assert b * (180.0 / m.pi) == 180.0 * (b / m.pi);
    assert b / m.pi < 2.0;
  }

  /** An angle already in [0, 2*pi) is left alone in radians. */
  lemma ConvertedKeeps(m: Math, a: real)
    requires Lawful(m) && 0.0 <= a
    ensures Converted(m, a, true) == a
  {
  }

  /** `convert_angles` updates the array it is given in place and returns it. */
  method ConvertAngles(m: Math, angles: array<real>, radians: bool)
    requires Lawful(m)
    modifies angles
    ensures angles[..] == ConvertedAll(m, old(angles[..]), radians)
  {
    ghost var orig := angles[..];
    var i := 0;
    while i < angles.Length
      invariant 0 <= i <= angles.Length
      invariant forall k :: 0 <= k < i ==> angles[k] == Converted(m, orig[k], radians)
      invariant forall k :: i <= k < angles.Length ==> angles[k] == orig[k]
    {
      if angles[i] < 0.0 {
        angles[i] := angles[i] + 2.0 * m.pi;
      }
      if !radians {
        angles[i] := angles[i] * (180.0 / m.pi);
      }
      i := i + 1;
    }
  }

  function Atan2Of(m: Math, v: Point): real { m.atan2(v.y, v.x) }

  /** `angle1`: the angle of each vector with the horizontal axis. */
  function Angle1(m: Math, v: seq<Point>, radians: bool): (r: seq<real>)
    requires Lawful(m)
    ensures |r| == |v|
    ensures forall i :: 0 <= i < |v| ==> r[i] == Converted(m, Atan2Of(m, v[i]), radians)
    ensures forall i :: 0 <= i < |v| ==> 0.0 <= r[i] < (if radians then 2.0 * m.pi else 360.0)
  {
    var a := seq(|v|, i requires 0 <= i < |v| => Atan2Of(m, v[i]));
    forall i | 0 <= i < |v| ensures -2.0 * m.pi < a[i] < 2.0 * m.pi {
      assert -m.pi < Atan2Of(m, v[i]) <= m.pi;
    }
    RangeAll(m, a);
    ConvertedAll(m, a, radians)
  }

  lemma RangeAll(m: Math, a: seq<real>)
    requires Lawful(m) && forall i :: 0 <= i < |a| ==> -2.0 * m.pi < a[i] < 2.0 * m.pi
    ensures forall i :: 0 <= i < |a| ==> 0.0 <= Converted(m, a[i], true) < 2.0 * m.pi
    ensures forall i :: 0 <= i < |a| ==> 0.0 <= Converted(m, a[i], false) < 360.0
  {
    forall i | 0 <= i < |a| ensures 0.0 <= Converted(m, a[i], true) < 2.0 * m.pi
      && 0.0 <= Converted(m, a[i], false) < 360.0 {
      ConvertedRange(m, a[i]);
    }
  }

  /** `angle2`: the angle turned from each `v` to the matching `u`. */
  function Angle2(m: Math, v: seq<Point>, u: seq<Point>, radians: bool): (r: seq<real>)
    requires Lawful(m) && |v| == |u|
    ensures |r| == |v|
    ensures forall i :: 0 <= i < |v| ==>
      r[i] == Converted(m, Atan2Of(m, u[i]) - Atan2Of(m, v[i]), radians)
    ensures forall i :: 0 <= i < |v| ==> 0.0 <= r[i] < (if radians then 2.0 * m.pi else 360.0)
  {
    var a := seq(|v|, i requires 0 <= i < |v| => Atan2Of(m, u[i]) - Atan2Of(m, v[i]));
    forall i | 0 <= i < |v| ensures -2.0 * m.pi < a[i] < 2.0 * m.pi {
      assert -m.pi < Atan2Of(m, u[i]) <= m.pi;
      assert -m.pi < Atan2Of(m, v[i]) <= m.pi;
    }
    RangeAll(m, a);
    ConvertedAll(m, a, radians)
  }

  function Diff(p: seq<Point>, q: seq<Point>): (r: seq<Point>)
    requires |p| == |q|
    ensures |r| == |p| && forall i :: 0 <= i < |p| ==> r[i] == p[i].Minus(q[i])
  {
    seq(|p|, i requires 0 <= i < |p| => p[i].Minus(q[i]))
  }

  function Shift(p: seq<Point>, d: Point): (r: seq<Point>)
    ensures |r| == |p| && forall i :: 0 <= i < |p| ==> r[i] == p[i].Plus(d)
  {
    seq(|p|, i requires 0 <= i < |p| => p[i].Plus(d))
  }

  /** `angle3`: the angle at the vertex `pts2` from `pts1` round to `pts3`. */
  function Angle3(m: Math, pts1: seq<Point>, pts2: seq<Point>, pts3: seq<Point>, radians: bool): (r: seq<real>)
    requires Lawful(m) && |pts1| == |pts2| == |pts3|
    ensures |r| == |pts1|
    ensures forall i :: 0 <= i < |pts1| ==> 0.0 <= r[i] < (if radians then 2.0 * m.pi else 360.0)
  {
    Angle2(m, Diff(pts1, pts2), Diff(pts3, pts2), radians)
  }

  /** The angle at a vertex does not change when all three points move by the same offset. */
  lemma Angle3Translation(m: Math, p1: seq<Point>, p2: seq<Point>, p3: seq<Point>, d: Point, radians: bool)
    requires Lawful(m) && |p1| == |p2| == |p3|
    ensures Angle3(m, Shift(p1, d), Shift(p2, d), Shift(p3, d), radians) == Angle3(m, p1, p2, p3, radians)
  {
    assert Diff(Shift(p1, d), Shift(p2, d)) == Diff(p1, p2);
    assert Diff(Shift(p3, d), Shift(p2, d)) == Diff(p3, p2);
  }

  /** `absangle`: the angle of each vector `v - u` with the horizontal axis. */
  function AbsAngle(m: Math, v: seq<Point>, u: seq<Point>, radians: bool): (r: seq<real>)
    requires Lawful(m) && |v| == |u|
    ensures |r| == |v|
    ensures forall i :: 0 <= i < |v| ==> 0.0 <= r[i] < (if radians then 2.0 * m.pi else 360.0)
  {
    Angle1(m, Diff(v, u), radians)
  }

  /** The absolute angle of `v` about `u` is the angle at `u` from the point one unit to its right
      round to `v`, whenever atan2 of the unit vector is 0. */
  lemma AbsAngleIsAngle3(m: Math, v: seq<Point>, u: seq<Point>, radians: bool)
    requires Lawful(m) && |v| == |u| && m.atan2(0.0, 1.0) == 0.0
    ensures AbsAngle(m, v, u, radians) == Angle3(m, Shift(u, Point(1.0, 0.0)), u, v, radians)
  {
    var e := Shift(u, Point(1.0, 0.0));
    forall i | 0 <= i < |v|
      ensures AbsAngle(m, v, u, radians)[i] == Angle3(m, e, u, v, radians)[i]
    {
      assert Diff(e, u)[i] == Point(1.0, 0.0);
    }
  }

  // --- rounding and time ------------------------------------------------------

  /** `np.round` to an integer: to the nearest integer, ties to the even one. */
  function RoundHalfEven(x: real): (r: int)
    ensures -0.5 <= r as real - x <= 0.5
    ensures (r as real - x == 0.5 || x - r as real == 0.5) ==> r % 2 == 0
  {
    var f := x.Floor;
    var d := x - f as real;
    if d < 0.5 then f else if d > 0.5 then f + 1 else if f % 2 == 0 then f else f + 1
  }

  /** Halves go to the even neighbour, up or down: 2.5 to 2, 3.5 to 4, -2.5 to -2. */
  lemma RoundTies()
    ensures RoundHalfEven(2.5) == 2 && RoundHalfEven(3.5) == 4 && RoundHalfEven(-2.5) == -2
  {
    assert (2.5).Floor == 2 && (3.5).Floor == 3 && (-2.5).Floor == -3;
  }

  lemma RoundInteger(n: int)
    ensures RoundHalfEven(n as real) == n
  {
  }

  /** Rounding keeps the integer bounds of its argument. */
  lemma RoundBounds(x: real, lo: int, hi: int)
    requires lo as real <= x <= hi as real
    ensures lo <= RoundHalfEven(x) <= hi
  {
  }

  /** Rounding never reverses the order of two values. */
  lemma RoundMonotone(x: real, y: real)
    requires x <= y
    ensures RoundHalfEven(x) <= RoundHalfEven(y)
  {
    if x.Floor < y.Floor {
      assert x.Floor + 1 <= y.Floor;
    }
  }

  /** `round(decimals=4)`: scaled by 10^4, rounded to an integer (ties to even), scaled back. */
  function Round4(x: real): (r: real)
    ensures -0.00005 <= r - x <= 0.00005
  {
    RoundHalfEven(x * 10000.0) as real / 10000.0
  }

  /** A value with at most four decimals is kept, so rounding twice is rounding once. */
  lemma Round4Exact(k: int)
    ensures Round4(k as real / 10000.0) == k as real / 10000.0
  {
    assert k as real / 10000.0 * 10000.0 == k as real;
    RoundInteger(k);
  }

  /** A tie at the fourth decimal goes to the even digit: 0.00125 to 0.0012, 0.00135 to 0.0014. */
  lemma Round4Ties()
    ensures Round4(0.00125) == 0.0012 && Round4(0.00135) == 0.0014
  {
    assert 0.00125 * 10000.0 == 12.5 && (12.5).Floor == 12;
    assert 0.00135 * 10000.0 == 13.5 && (13.5).Floor == 13;
  }

  lemma Round4Idempotent(x: real)
    ensures Round4(Round4(x)) == Round4(x)
  {
    Round4Exact(RoundHalfEven(x * 10000.0));
  }

  /** `frame2sec`. */
  function Frame2Sec(frame: int): (r: real)
    ensures r * Config.FPS as real == frame as real
  {
    frame as real / Config.FPS as real
  }

  /** `sec2frame`: the nearest frame, ties to even. */
  function Sec2Frame(sec: real): (r: int)
    ensures -0.5 <= r as real - Config.FPS as real * sec <= 0.5
  {
    RoundHalfEven(Config.FPS as real * sec)
  }

  /** Converting a frame number to seconds and back gives it again. */
  lemma FrameSecondRoundTrip(frame: int)
    ensures Sec2Frame(Frame2Sec(frame)) == frame
  {
    assert Config.FPS as real * Frame2Sec(frame) == frame as real;
    RoundInteger(frame);
  }

  /** Converting seconds to a frame and back is off by at most half a frame. */
  lemma SecondFrameRoundTrip(sec: real)
    ensures -0.5 / Config.FPS as real <= Frame2Sec(Sec2Frame(sec)) - sec <= 0.5 / Config.FPS as real
  {
  }
}
