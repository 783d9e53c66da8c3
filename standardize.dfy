/** The canonical frame of touchscreen_toolbox/postprocess/standardize.py (and the identical helpers
    of touchscreen_toolbox/extract/postprocess.py): the confidence columns are dropped, y is
    flipped, the reference points are pinned to their medians, `ll_corner` becomes the origin, the
    plane is rotated and scaled so that `lr_corner` lands at (TRAY_LENGTH, 0), and the gaps are
    filled. The helpers overwrite the columns of the table they are given. */
module Standardize {
  import opened Wrappers
  import opened Tables
  import opened Config
  import opened Layout
  import opened Arithmetic
  import Fill
  import Refine

  /** A pose table that the helpers change in place: its columns, in order. */
  class PoseFrame {
    var columns: seq<Column<Cell>>

    constructor (columns: seq<Column<Cell>>)
      ensures this.columns == columns
    {
      this.columns := columns;
    }
  }

  // --- whole-column arithmetic with missing cells -----------------------------------------

  /** `col *= -1`; a missing cell stays missing. */
  function Negated(c: seq<Cell>): (r: seq<Cell>)
    ensures |r| == |c|
  {
    seq(|c|, i requires 0 <= i < |c| => if c[i].Some? then Some(-c[i].value) else None)
  }

  /** `col -= a`; a missing cell, or a missing `a`, gives a missing cell. */
  function Shifted(c: seq<Cell>, a: Cell): (r: seq<Cell>)
    ensures |r| == |c|
  {
    seq(|c|, i requires 0 <= i < |c| => if c[i].Some? && a.Some? then Some(c[i].value - a.value) else None)
  }

  /** `df[name] = df[name].median()`: every cell becomes the median of the present cells, or
      missing when there are none. */
  function Constant(c: seq<Cell>): (r: seq<Cell>)
    ensures |r| == |c|
  {
    seq(|c|, _ => Median(Present(c)))
  }

  /** Flipping twice gives the column back. */
  lemma NegatedTwice(c: seq<Cell>)
    ensures Negated(Negated(c)) == c
    ensures forall i :: 0 <= i < |c| ==> (Negated(c)[i].Some? <==> c[i].Some?)
  {
  }

  /** Shifting by the first cell puts the first cell at 0, and shifting back by `-a` restores
      every present cell when `a` is present. */
  lemma ShiftedInverse(c: seq<Cell>, a: real)
    ensures |c| > 0 && c[0].Some? ==> Shifted(c, c[0])[0] == Some(0.0)
    ensures Shifted(Shifted(c, Some(a)), Some(-a)) == c
  {
  }

  /** Every cell of `c` is `v`: what the median pins a reference point to. */
  predicate Uniform(c: seq<Cell>, v: Cell) {
    forall i :: 0 <= i < |c| ==> c[i] == v
  }

  /** After pinning, a column with any present value holds its median in every cell, and a column
      with none is all missing; pinning twice changes nothing. (Tables.MedianBounds places the
      median between the column's smallest and largest present value.) */
  lemma ConstantPinned(c: seq<Cell>)
    ensures Present(c) != [] ==> Uniform(Constant(c), Some(Median(Present(c)).value))
    ensures Present(c) == [] ==> forall i :: 0 <= i < |c| ==> Constant(c)[i].None?
    ensures Constant(Constant(c)) == Constant(c)
  {
    if Present(c) != [] {
      ConstantMedian(Constant(c), Median(Present(c)).value);
    } else {
      PresentNone(Constant(c));
    }
  }

  lemma {:induction false} PresentNone(s: seq<Cell>)
    requires forall i :: 0 <= i < |s| ==> s[i].None?
    ensures Present(s) == []
  {
    if s != [] {
      PresentNone(s[1..]);
    }
  }

  /** A non-empty column of one present value has that value as its median. */
  lemma ConstantMedian(c: seq<Cell>, v: real)
    requires Uniform(c, Some(v))
    ensures |c| > 0 ==> Median(Present(c)) == Some(v)
    ensures |c| == 0 ==> Present(c) == []
  {
    if |c| > 0 {
      PresentMember(c, v);
      Refine.PresentConstant(c, v);
      MedianBounds(Present(c));
    }
  }

  // --- column assignment by name ------------------------------------------------------------

  /** The table after `df[name] = f(df[name])` for every name in `names`: each column labelled by
      one of them is replaced, the others are kept. */
  function Apply(t: seq<Column<Cell>>, names: seq<string>, f: seq<Cell> -> seq<Cell>): (r: seq<Column<Cell>>)
    ensures |r| == |t| && Names(r) == Names(t)
  {
    seq(|t|, j requires 0 <= j < |t| => if t[j].name in names then Column(t[j].name, f(t[j].cells)) else t[j])
  }

  /** Reading a column after the assignment: the new cells for a listed name, the old ones otherwise. */
  lemma GetApply(t: seq<Column<Cell>>, names: seq<string>, f: seq<Cell> -> seq<Cell>, name: string)
    requires name in Names(t)
    ensures name in Names(Apply(t, names, f))
    ensures Get(Apply(t, names, f), name) == if name in names then f(Get(t, name)) else Get(t, name)
  {
  }

  /** Assigning two lists of names that share none, one after the other, is assigning their
      concatenation. */
  lemma ApplyConcat(t: seq<Column<Cell>>, a: seq<string>, b: seq<string>, f: seq<Cell> -> seq<Cell>)
    requires forall x :: x in b ==> x !in a
    ensures Apply(Apply(t, a, f), b, f) == Apply(t, a + b, f)
  {
  }

  /** A length-keeping column operation keeps every column at `n` cells. */
  lemma ApplyRectangular(t: seq<Column<Cell>>, names: seq<string>, f: seq<Cell> -> seq<Cell>, n: nat)
    requires Rectangular(t, n) && forall c: seq<Cell> :: |f(c)| == |c|
    ensures Rectangular(Apply(t, names, f), n)
  {
  }

  // --- the column lists name every point once -----------------------------------------------

  predicate Distinct<T(==)>(s: seq<T>) {
    forall i, j :: 0 <= i < j < |s| ==> s[i] != s[j]
  }

  /** The position of a point name in POINTS. */
  function PointCode(p: string): int {
    if p == "snout" then 0 else if p == "lEar" then 1 else if p == "rEar" then 2
    else if p == "spine1" then 3 else if p == "spine2" then 4 else if p == "tail1" then 5
    else if p == "tail2" then 6 else if p == "tail3" then 7 else if p == "food_port" then 8
    else if p == "ll_corner" then 9 else if p == "lr_corner" then 10 else if p == "l_screen" then 11
    else if p == "m_screen" then 12 else if p == "r_screen" then 13 else -1
  }

  lemma PointCodeAt(i: nat)
    requires i < 14
    ensures |POINTS| == 14 && PointCode(POINTS[i]) == i
  {
    if i < 8 {
      assert POINTS[i] == MICE[i];
      if i == 0 {} else if i == 1 {} else if i == 2 {} else if i == 3 {}
      else if i == 4 {} else if i == 5 {} else if i == 6 {} else {}
    } else {
      assert POINTS[i] == REFE[i - 8];
      if i == 8 {} else if i == 9 {} else if i == 10 {} else if i == 11 {} else if i == 12 {} else {}
    }
  }

  /** No point is listed twice; `ll_corner` and `lr_corner` are points 9 and 10. */
  lemma PointsDistinct()
    ensures |POINTS| == 14 && Distinct(POINTS)
    ensures POINTS[9] == "ll_corner" && POINTS[10] == "lr_corner"
    ensures forall k :: 0 <= k < |REFE| ==> POINTS[8 + k] == REFE[k]
  {
    forall i, j | 0 <= i < j < |POINTS| ensures POINTS[i] != POINTS[j] {
      PointCodeAt(i);
      PointCodeAt(j);
    }
  }

  lemma SuffixCancel(a: string, b: string, s: string)
    ensures a + s == b + s <==> a == b
  {
    if a + s == b + s {
      assert |a| == |b|;
      assert a == (a + s)[..|a|] && b == (b + s)[..|b|];
    }
  }

  /** An `_x` name is never a `_y` name: their last characters differ. */
  lemma TagsDiffer(a: string, b: string)
    ensures a + "_x" != b + "_y"
  {
    if |a| == |b| {
      assert (a + "_x")[|a| + 1] == 'x' && (b + "_y")[|b| + 1] == 'y';
    }
  }

  /** XCOLS and YCOLS name each point once and share no name; the corners' columns sit at
      positions 9 and 10 of both lists. */
  lemma ColumnsDistinct()
    ensures |XCOLS| == 14 && |YCOLS| == 14 && Distinct(XCOLS) && Distinct(YCOLS)
    ensures forall i, j :: 0 <= i < 14 && 0 <= j < 14 ==> XCOLS[i] != YCOLS[j]
    ensures XCOLS[9] == "ll_corner_x" && YCOLS[9] == "ll_corner_y"
    ensures XCOLS[10] == "lr_corner_x" && YCOLS[10] == "lr_corner_y"
  {
    ColumnLists();
    ColumnListsPartition();
    PointsDistinct();
    forall i, j | 0 <= i < j < 14 ensures XCOLS[i] != XCOLS[j] && YCOLS[i] != YCOLS[j] {
      if XCOLS[i] == XCOLS[j] { SuffixCancel(POINTS[i], POINTS[j], "_x"); }
      if YCOLS[i] == YCOLS[j] { SuffixCancel(POINTS[i], POINTS[j], "_y"); }
    }
    forall i, j | 0 <= i < 14 && 0 <= j < 14 ensures XCOLS[i] != YCOLS[j] {
      assert XCOLS[i] in XCOLS && YCOLS[j] in YCOLS;
    }
  }

  /** The x/y headers of distinct points are distinct, and each is some point's `_x` or `_y` name. */
  lemma {:induction false} XYHeadersDistinct(ps: seq<string>)
    requires Distinct(ps)
    ensures Distinct(XYHeadersOf(ps))
    ensures forall h :: h in XYHeadersOf(ps) ==> exists q :: q in ps && (h == q + "_x" || h == q + "_y")
  {
    if ps != [] {
      XYHeadersDistinct(ps[1..]);
      var rest := XYHeadersOf(ps[1..]);
      var r := XYHeadersOf(ps);
      assert r == [ps[0] + "_x", ps[0] + "_y"] + rest;
      TagsDiffer(ps[0], ps[0]);
      forall h | h in rest ensures h != ps[0] + "_x" && h != ps[0] + "_y" {
        var q :| q in ps[1..] && (h == q + "_x" || h == q + "_y");
        assert q != ps[0];
        SuffixCancel(q, ps[0], "_x");
        SuffixCancel(q, ps[0], "_y");
        TagsDiffer(q, ps[0]);
        TagsDiffer(ps[0], q);
      }
      forall i, j | 0 <= i < j < |r| ensures r[i] != r[j] {
        if i >= 2 {
          assert r[i] == rest[i - 2] && r[j] == rest[j - 2];
        } else if j >= 2 {
          assert r[j] in rest;
        }
      }
    }
  }

  /** Adding points at the end adds their x/y headers at the end. */
  lemma {:induction false} XYHeadersConcat(a: seq<string>, b: seq<string>)
    ensures XYHeadersOf(a + b) == XYHeadersOf(a) + XYHeadersOf(b)
  {
    if a != [] {
      assert (a + b)[1..] == a[1..] + b;
      XYHeadersConcat(a[1..], b);
    } else {
      assert a + b == b;
    }
  }

  /** Every x and y column name is an x/y header; the reference points' names come after the
      body points'. */
  lemma XYHeadersHold()
    ensures |XCOLS| == 14 && |YCOLS| == 14 && forall k :: 0 <= k < 14 ==> XCOLS[k] in XYHEADERS && YCOLS[k] in XYHEADERS
    ensures forall h :: h in XYHeadersOf(REFE) ==> h in XYHEADERS
    ensures Distinct(XYHeadersOf(REFE))
  {
    XYHeadersLayout();
    forall k | 0 <= k < 14 ensures XCOLS[k] in XYHEADERS && YCOLS[k] in XYHEADERS {
      assert XYHEADERS[2 * k] == XCOLS[k] && XYHEADERS[2 * k + 1] == YCOLS[k];
    }
    XYHeadersConcat(MICE, REFE);
    PointsDistinct();
    assert Distinct(REFE) by {
      forall i, j | 0 <= i < j < |REFE| ensures REFE[i] != REFE[j] {
        assert POINTS[8 + i] == REFE[i] && POINTS[8 + j] == REFE[j];
      }
    }
    XYHeadersDistinct(REFE);
  }

  // --- replace_w_median -------------------------------------------------------------------

  /** `replace_w_median(df, col)`: the x and then the y column of point `col` become their medians. */
  method ReplaceWithMedian(f: PoseFrame, col: string)
    requires col + "_x" in Names(f.columns) && col + "_y" in Names(f.columns)
    modifies f
    ensures f.columns == Apply(old(f.columns), [col + "_x", col + "_y"], Constant)
  {
    ghost var t := f.columns;
    f.columns := Apply(f.columns, [col + "_x"], Constant);
    f.columns := Apply(f.columns, [col + "_y"], Constant);
    TagsDiffer(col, col);
    ApplyConcat(t, [col + "_x"], [col + "_y"], Constant);
    assert [col + "_x"] + [col + "_y"] == [col + "_x", col + "_y"];
  }

  // --- set_origin -------------------------------------------------------------------------

  /** The column operation `col -= a`, as a value. */
  function ShiftBy(a: Cell): (r: seq<Cell> -> seq<Cell>)
    ensures forall c :: r(c) == Shifted(c, a)
  {
    c => Shifted(c, a)
  }

  /** What `set_origin(df, col)` leaves: every x column less the first `col_x` cell, every y column
      less the first `col_y` cell. */
  function Origin(t: seq<Column<Cell>>, col: string): (r: seq<Column<Cell>>)
    requires col + "_x" in Names(t) && col + "_y" in Names(t)
    requires |Get(t, col + "_x")| > 0 && |Get(t, col + "_y")| > 0
    ensures Names(r) == Names(t)
  {
    var xa := Get(t, col + "_x")[0];
    var ya := Get(t, col + "_y")[0];
    Apply(Apply(t, XCOLS, ShiftBy(xa)), YCOLS, ShiftBy(ya))
  }

  /** `set_origin`: both adjustments are read before the loops over XCOLS and YCOLS write. */
  method SetOrigin(f: PoseFrame, col: string)
    requires col + "_x" in Names(f.columns) && col + "_y" in Names(f.columns)
    requires |Get(f.columns, col + "_x")| > 0 && |Get(f.columns, col + "_y")| > 0
    requires forall c :: c in XCOLS || c in YCOLS ==> c in Names(f.columns)
    modifies f
    ensures f.columns == Origin(old(f.columns), col)
  {
    var xa := Get(f.columns, col + "_x")[0];
    var ya := Get(f.columns, col + "_y")[0];
    ColumnsDistinct();
    ShiftColumns(f, XCOLS, xa);
    ShiftColumns(f, YCOLS, ya);
  }

  /** One loop of `set_origin`: `df[c] -= a` for each listed column in turn. */
  method ShiftColumns(f: PoseFrame, cols: seq<string>, a: Cell)
    requires Distinct(cols)
    modifies f
    ensures f.columns == Apply(old(f.columns), cols, ShiftBy(a))
  {
    ghost var t := f.columns;
    var k := 0;
    while k < |cols|
      invariant 0 <= k <= |cols| && f.columns == Apply(t, cols[..k], ShiftBy(a))
    {
      ApplyConcat(t, cols[..k], [cols[k]], ShiftBy(a));
      f.columns := Apply(f.columns, [cols[k]], ShiftBy(a));
      assert cols[..k + 1] == cols[..k] + [cols[k]];
      k := k + 1;
    }
    assert cols[..k] == cols;
  }

  // --- L_transformer ------------------------------------------------------------------------

  /** `L_transformer(cos, sin, scale)`: the rotation `[[cos, -sin], [sin, cos]]` and the scale. */
  datatype Transformer = Transformer(cos: real, sin: real, scale: real)

  /** The constructor's defaults. */
  const IDENTITY: Transformer := Transformer(1.0, 0.0, 1.0)

  /** `transform` on one row `(x, y)`: the rotation, then the scale. */
  function Transform(tr: Transformer, p: Point): (r: Point)
    ensures p == Point(0.0, 0.0) ==> r == p
    ensures tr == IDENTITY ==> r == p
  {
    Point(tr.scale * (tr.cos * p.x - tr.sin * p.y), tr.scale * (tr.sin * p.x + tr.cos * p.y))
  }

  /** Every transformer fixes the origin. */
  lemma TransformOrigin(tr: Transformer)
    ensures Transform(tr, Point(0.0, 0.0)) == Point(0.0, 0.0)
  {
  }

  /** The default transformer is the identity; with `cos² + sin² = 1` squared lengths are
      multiplied by `scale²`. */
  lemma TransformFacts(tr: Transformer, p: Point)
    ensures Transform(IDENTITY, p) == p
    ensures Sq(tr.cos) + Sq(tr.sin) == 1.0 ==>
      Sq(Transform(tr, p).x) + Sq(Transform(tr, p).y) == Sq(tr.scale) * (Sq(p.x) + Sq(p.y))
  {
    var c, s, x, y := tr.cos, tr.sin, p.x, p.y;
    var u, v := c * x - s * y, s * x + c * y;
    RotatedLength(c, s, x, y);
    assert Sq(tr.scale * u) == Sq(tr.scale) * Sq(u);
    assert Sq(tr.scale * v) == Sq(tr.scale) * Sq(v);
  }

  lemma RotatedLength(c: real, s: real, x: real, y: real)
    ensures Sq(c * x - s * y) + Sq(s * x + c * y) == (Sq(c) + Sq(s)) * (Sq(x) + Sq(y))
  {
    assert Sq(c * x - s * y) == c * c * (x * x) - 2.0 * (c * s) * (x * y) + s * s * (y * y);
    assert Sq(s * x + c * y) == s * s * (x * x) + 2.0 * (c * s) * (x * y) + c * c * (y * y);
  }

  /** `-data['lr_corner_y'].iloc[0]`. */
  function NegCell(c: Cell): Cell {
    if c.Some? then Some(-c.value) else None
  }

  /** The transformer `standardize` builds from `adj` and `opp`: `hyp = dist1((adj, opp))`,
      `cos = adj / hyp`, `sin = opp / hyp`, `scale = TRAY_LENGTH / hyp`. A missing `adj` or `opp`,
      or `hyp == 0`, gives NaN coefficients, which turn every transformed cell missing: `None`. */
  function MakeTransformer(m: Math, adj: Cell, opp: Cell): (r: Option<Transformer>)
    requires Lawful(m)
    ensures r.Some? <==> adj.Some? && opp.Some? && (adj.value != 0.0 || opp.value != 0.0)
    ensures r.Some? ==> r.value.scale > 0.0
  {
    if adj.None? || opp.None? then None
    else
      var hyp := Dist1(m, Point(adj.value, opp.value));
      SqZero(hyp);
      SqZero(adj.value);
      SqZero(opp.value);
      if hyp == 0.0 then None
      else Some(Transformer(adj.value / hyp, opp.value / hyp, TRAY_LENGTH / hyp))
  }

  lemma SqZero(a: real)
    ensures Sq(a) >= 0.0 && (Sq(a) == 0.0 <==> a == 0.0)
  {
    if a > 0.0 {
      calc { Sq(a); a * a; > 0.0; }
    } else if a < 0.0 {
      calc { Sq(a); (-a) * (-a); > 0.0; }
    }
  }

  /** A transformer exists exactly when `(adj, opp)` is not the origin; it is then a rotation
      (`cos² + sin² = 1`) with a positive scale that takes `(adj, -opp)` to `(TRAY_LENGTH, 0)`. */
  lemma MakeTransformerFacts(m: Math, a: real, o: real)
    requires Lawful(m)
    ensures MakeTransformer(m, Some(a), Some(o)).Some? <==> (a != 0.0 || o != 0.0)
    ensures MakeTransformer(m, Some(a), Some(o)).Some? ==>
      var tr := MakeTransformer(m, Some(a), Some(o)).value;
      Sq(tr.cos) + Sq(tr.sin) == 1.0 && tr.scale > 0.0 &&
      Transform(tr, Point(a, -o)) == Point(TRAY_LENGTH, 0.0)
  {
    var h := Dist1(m, Point(a, o));
    assert Sq(h) == Sq(a) + Sq(o) && h >= 0.0;
    SqZero(a);
    SqZero(o);
    SqZero(h);
    if h != 0.0 {
      var c, s := a / h, o / h;
      assert c * h == a && s * h == o;
      assert h * h == a * a + o * o;
      assert Sq(c) + Sq(s) == 1.0 by {
        assert (c * c + s * s) * (h * h) == a * a + o * o;
      }
      var tr := Transformer(c, s, TRAY_LENGTH / h);
      assert c * a - s * (-o) == h by {
        assert c * a + s * o == (c * c + s * s) * h;
      }
      assert s * a + c * (-o) == 0.0 by {
        assert s * a - c * o == (s * c - c * s) * h;
      }
      assert (TRAY_LENGTH / h) * h == TRAY_LENGTH;
    }
  }

  /** One transformed row; missing when the transformer or either coordinate is. */
  function TransformCell(tr: Option<Transformer>, x: Cell, y: Cell): Option<Point> {
    if tr.Some? && x.Some? && y.Some? then Some(Transform(tr.value, Point(x.value, y.value))) else None
  }

  function XOf(p: Option<Point>): Cell { if p.Some? then Some(p.value.x) else None }
  function YOf(p: Option<Point>): Cell { if p.Some? then Some(p.value.y) else None }

  /** `transformer.transform(data[[xcol, ycol]].values)`: the new x and y columns, row by row. */
  function TransformCells(tr: Option<Transformer>, x: seq<Cell>, y: seq<Cell>): (r: (seq<Cell>, seq<Cell>))
    requires |x| == |y|
    ensures |r.0| == |x| && |r.1| == |x|
  {
    (seq(|x|, i requires 0 <= i < |x| => XOf(TransformCell(tr, x[i], y[i]))),
     seq(|x|, i requires 0 <= i < |x| => YOf(TransformCell(tr, x[i], y[i]))))
  }

  /** Two columns constant at the coordinates of `p` are transformed into two columns constant
      at the coordinates of its image `q`. */
  lemma TransformConstant(tr: Transformer, x: seq<Cell>, y: seq<Cell>, p: Point, q: Point)
    requires |x| == |y| && Uniform(x, Some(p.x)) && Uniform(y, Some(p.y)) && Transform(tr, p) == q
    ensures Uniform(TransformCells(Some(tr), x, y).0, Some(q.x))
    ensures Uniform(TransformCells(Some(tr), x, y).1, Some(q.y))
  {
  }

  /** Without a transformer every transformed cell is missing. */
  lemma TransformMissing(x: seq<Cell>, y: seq<Cell>)
    requires |x| == |y|
    ensures forall i :: 0 <= i < |x| ==> TransformCells(None, x, y).0[i].None? && TransformCells(None, x, y).1[i].None?
  {
  }

  /** The column operation that replaces a column by `cells`, as a value. */
  function Put(cells: seq<Cell>): (r: seq<Cell> -> seq<Cell>)
    ensures forall c :: r(c) == cells
  {
    _ => cells
  }

  /** `data[[xcol, ycol]] = transformer.transform(data[[xcol, ycol]].values)`. */
  function TransformedPair(t: seq<Column<Cell>>, xn: string, yn: string, tr: Option<Transformer>, n: nat): (r: seq<Column<Cell>>)
    requires xn in Names(t) && yn in Names(t) && Rectangular(t, n)
    ensures Names(r) == Names(t) && Rectangular(r, n)
  {
    var p := TransformCells(tr, Get(t, xn), Get(t, yn));
    Apply(Apply(t, [xn], Put(p.0)), [yn], Put(p.1))
  }

  /** The first `k` pairs `(XCOLS[i], YCOLS[i])` transformed, in order. */
  function TransformPairs(t: seq<Column<Cell>>, k: nat, tr: Option<Transformer>, n: nat): (r: seq<Column<Cell>>)
    requires k <= 14 && Rectangular(t, n)
    requires forall c :: c in XCOLS || c in YCOLS ==> c in Names(t)
    ensures Names(r) == Names(t) && Rectangular(r, n)
  {
    if k == 0 then t else
      ColumnsDistinct();
      TransformedPair(TransformPairs(t, k - 1, tr, n), XCOLS[k - 1], YCOLS[k - 1], tr, n)
  }

  /** Reading a column after one pair is transformed. */
  lemma TransformedPairGet(t: seq<Column<Cell>>, xn: string, yn: string, tr: Option<Transformer>, n: nat, name: string)
    requires xn in Names(t) && yn in Names(t) && name in Names(t) && Rectangular(t, n) && xn != yn
    ensures |Get(t, xn)| == n && |Get(t, yn)| == n
    ensures var q := TransformCells(tr, Get(t, xn), Get(t, yn));
      Get(TransformedPair(t, xn, yn, tr, n), name) == if name == xn then q.0 else if name == yn then q.1 else Get(t, name)
  {
    var q := TransformCells(tr, Get(t, xn), Get(t, yn));
    GetApply(t, [xn], Put(q.0), name);
    GetApply(Apply(t, [xn], Put(q.0)), [yn], Put(q.1), name);
  }

  /** After the loop over the first `k` pairs, pair `p` has been transformed once, from the input's
      columns, if `p < k`, and is untouched otherwise. */
  lemma {:induction false} TransformPairsAt(t: seq<Column<Cell>>, k: nat, tr: Option<Transformer>, n: nat, p: nat)
    requires k <= 14 && p < |XCOLS| && p < |YCOLS| && Rectangular(t, n)
    requires forall c :: c in XCOLS || c in YCOLS ==> c in Names(t)
    ensures |Get(t, XCOLS[p])| == n && |Get(t, YCOLS[p])| == n
    ensures Get(TransformPairs(t, k, tr, n), XCOLS[p]) ==
      if p < k then TransformCells(tr, Get(t, XCOLS[p]), Get(t, YCOLS[p])).0 else Get(t, XCOLS[p])
    ensures Get(TransformPairs(t, k, tr, n), YCOLS[p]) ==
      if p < k then TransformCells(tr, Get(t, XCOLS[p]), Get(t, YCOLS[p])).1 else Get(t, YCOLS[p])
  {
    PairNames(p, p);
    GetUniformLength(t, XCOLS[p], n);
    GetUniformLength(t, YCOLS[p], n);
    if k > 0 {
      TransformPairsAt(t, k - 1, tr, n, p);
      PairNames(p, k - 1);
      var u := TransformPairs(t, k - 1, tr, n);
      PairAfterStep(u, XCOLS[k - 1], YCOLS[k - 1], tr, n, XCOLS[p], YCOLS[p], Get(t, XCOLS[p]), Get(t, YCOLS[p]), p < k - 1);
    }
  }

  /** What the distinctness of the coordinate names gives about the pairs at `p` and `q`. */
  lemma PairNames(p: nat, q: nat)
    requires p < |XCOLS| && p < |YCOLS| && q < |XCOLS| && q < |YCOLS|
    ensures |XCOLS| == 14 && |YCOLS| == 14
    ensures XCOLS[p] in XCOLS && YCOLS[p] in YCOLS && XCOLS[q] in XCOLS && YCOLS[q] in YCOLS
    ensures XCOLS[p] != YCOLS[q] && YCOLS[p] != XCOLS[q] && XCOLS[q] != YCOLS[q]
    ensures (XCOLS[p] == XCOLS[q] <==> p == q) && (YCOLS[p] == YCOLS[q] <==> p == q)
  {
    ColumnsDistinct();
  }

  lemma PairAfterStep(u: seq<Column<Cell>>, xn: string, yn: string, tr: Option<Transformer>, n: nat,
                      px: string, py: string, x: seq<Cell>, y: seq<Cell>, done: bool)
    requires xn in Names(u) && yn in Names(u) && px in Names(u) && py in Names(u) && Rectangular(u, n)
    requires xn != yn && px != yn && py != xn && (px == xn <==> py == yn) && (px == xn ==> !done)
    requires |x| == |y|
    requires Get(u, px) == (if done then TransformCells(tr, x, y).0 else x)
    requires Get(u, py) == (if done then TransformCells(tr, x, y).1 else y)
    ensures Get(TransformedPair(u, xn, yn, tr, n), px) == (if done || px == xn then TransformCells(tr, x, y).0 else x)
    ensures Get(TransformedPair(u, xn, yn, tr, n), py) == (if done || px == xn then TransformCells(tr, x, y).1 else y)
  {
    TransformedPairGet(u, xn, yn, tr, n, px);
    TransformedPairGet(u, xn, yn, tr, n, py);
  }

  lemma GetUniformLength(t: seq<Column<Cell>>, name: string, n: nat)
    requires name in Names(t) && Rectangular(t, n)
    ensures |Get(t, name)| == n
  {
  }

  // --- fillna -------------------------------------------------------------------------------

  /** `fillna(df)`: every column is filled on its own (`for col_name in df`). */
  method FillNa(f: PoseFrame)
    modifies f
    ensures f.columns == Apply(old(f.columns), Names(old(f.columns)), Fill.FilledAsWritten)
  {
    ghost var t := f.columns;
    var j := 0;
    while j < |f.columns|
      invariant |f.columns| == |t| && 0 <= j <= |t|
      invariant forall i :: 0 <= i < |t| ==> f.columns[i] == if i < j then Column(t[i].name, Fill.FilledAsWritten(t[i].cells)) else t[i]
    {
      var c := Fill.FillColumn(f.columns[j].cells);
      f.columns := f.columns[j := Column(f.columns[j].name, c)];
      j := j + 1;
    }
    assert forall i :: 0 <= i < |t| ==> t[i].name in Names(t) by {
      forall i | 0 <= i < |t| ensures t[i].name in Names(t) {
        assert Names(t)[i] == t[i].name;
      }
    }
  }

  /** A column with no gap is left as it is by `fillna`, under either guard. */
  lemma FilledFull(c: seq<Cell>)
    requires forall i :: 0 <= i < |c| ==> c[i].Some?
    ensures Fill.Filled(c) == c && Fill.FilledAsWritten(c) == c
  {
  }

  /** A column with no present cell stays without one, under either guard: there is nothing to
      interpolate from, and nothing to fill forwards or backwards. */
  lemma FilledEmpty(c: seq<Cell>)
    requires forall i :: 0 <= i < |c| ==> c[i].None?
    ensures forall i :: 0 <= i < |c| ==> Fill.Filled(c)[i].None? && Fill.FilledAsWritten(c)[i].None?
  {
    var m := Fill.InterpolatedAll(c);
    forall i | 0 <= i < |c| ensures m[i].None? {
      assert Fill.Before(c, i) == -1;
    }
    var b := BFill(m);
    forall i | 0 <= i < |c| ensures b[i].None? {
      if i + 1 <= |m| { assert FirstPresent(m, i + 1).None?; }
    }
    forall i | 0 <= i < |c| ensures FFill(b)[i].None? {
      assert LastPresent(b, i).None?;
    }
  }

  /** After `fillna`, a column with one present cell has no gap left, unless its one gap is its
      first cell: the guard `idx.any()` skips that column, which keeps the gap. */
  lemma FillNaComplete(t: seq<Column<Cell>>, name: string, j: nat)
    requires name in Names(t) && j < |Get(t, name)| && Get(t, name)[j].Some?
    ensures name in Names(Apply(t, Names(t), Fill.FilledAsWritten))
    ensures var c, r := Get(t, name), Get(Apply(t, Names(t), Fill.FilledAsWritten), name);
      (forall i :: 0 <= i < |c| ==> r[i].Some?) ||
      (c[0].None? && (forall i :: 1 <= i < |c| ==> c[i].Some?) && r == c)
  {
    GetApply(t, Names(t), Fill.FilledAsWritten, name);
    Fill.FilledAsWrittenComplete(Get(t, name), j);
  }

  // --- the stages of `standardize` ------------------------------------------------------------

  /** `data[YCOLS] *= -1`. */
  function Flipped(t: seq<Column<Cell>>): (r: seq<Column<Cell>>)
    ensures Names(r) == Names(t)
  {
    Apply(t, YCOLS, Negated)
  }

  /** `for col in REFE: replace_w_median(data, col)`: the x and y columns of every reference point
      become their medians. */
  function Pinned(t: seq<Column<Cell>>): (r: seq<Column<Cell>>)
    ensures Names(r) == Names(t)
  {
    Apply(t, XYHeadersOf(REFE), Constant)
  }

  /** The transformer built from the first `lr_corner` cells of a table whose origin is `ll_corner`. */
  function TransformerOf(m: Math, t: seq<Column<Cell>>): (r: Option<Transformer>)
    requires Lawful(m) && "lr_corner_x" in Names(t) && "lr_corner_y" in Names(t)
    requires |Get(t, "lr_corner_x")| > 0 && |Get(t, "lr_corner_y")| > 0
    ensures var x, y := Get(t, "lr_corner_x")[0], Get(t, "lr_corner_y")[0];
      r.Some? <==> x.Some? && y.Some? && (x.value != 0.0 || y.value != 0.0)
    ensures r.Some? ==> r.value.scale > 0.0
  {
    MakeTransformer(m, Get(t, "lr_corner_x")[0], NegCell(Get(t, "lr_corner_y")[0]))
  }

  /** `data.round(decimals=4)` on one column. */
  function Rounded(c: seq<Cell>): (r: seq<Cell>)
    ensures |r| == |c|
  {
    seq(|c|, i requires 0 <= i < |c| => if c[i].Some? then Some(Round4(c[i].value)) else None)
  }

  /** Rounding keeps gaps where they are, moves no value by more than half of the fourth decimal,
      and rounding twice is rounding once. */
  lemma RoundedFacts(c: seq<Cell>)
    ensures forall i :: 0 <= i < |c| ==> (Rounded(c)[i].Some? <==> c[i].Some?)
    ensures forall i :: 0 <= i < |c| && c[i].Some? ==> -0.00005 <= Rounded(c)[i].value - c[i].value <= 0.00005
    ensures Rounded(Rounded(c)) == Rounded(c)
  {
    forall i | 0 <= i < |c| && c[i].Some? ensures Round4(Round4(c[i].value)) == Round4(c[i].value) {
      Round4Idempotent(c[i].value);
    }
  }

  /** The names the corners need, present in the raw layout and in the x/y layout. */
  predicate CornerNames(names: seq<string>) {
    "ll_corner_x" in names && "ll_corner_y" in names && "lr_corner_x" in names && "lr_corner_y" in names
  }

  /** Every x and y name, the reference points' names and the corners' names are in both layouts;
      no confidence name is one of them. */
  lemma LayoutNames()
    ensures CornerNames(HEADERS) && CornerNames(XYHEADERS)
    ensures forall c :: c in XCOLS || c in YCOLS ==> c in XYHEADERS
    ensures forall c :: c in XYHeadersOf(REFE) ==> c in XYHEADERS
  {
    XYHeadersHold();
    ColumnsDistinct();
    assert XCOLS[9] in XYHEADERS && YCOLS[9] in XYHEADERS && XCOLS[10] in XYHEADERS && YCOLS[10] in XYHEADERS;
    HeadersLayout();
    ColumnLists();
  }

  /** Dropping keeps a column of `n` cells each at `n` cells. */
  lemma {:induction false} DropRectangular(t: seq<Column<Cell>>, names: seq<string>, n: nat)
    requires Rectangular(t, n)
    ensures Rectangular(Drop(t, names), n)
  {
    if t != [] {
      DropRectangular(t[1..], names, n);
    }
  }

  /** Each stage keeps the x/y layout and `n` cells per column. */
  lemma StageShapes(t: seq<Column<Cell>>, n: nat)
    requires Names(t) == HEADERS && Rectangular(t, n)
    ensures Names(Drop(t, CCOLS)) == XYHEADERS && Rectangular(Drop(t, CCOLS), n)
    ensures Rectangular(Flipped(Drop(t, CCOLS)), n) && Rectangular(Pinned(Flipped(Drop(t, CCOLS))), n)
  {
    DropConfidence(t);
    DropRectangular(t, CCOLS, n);
    var d := Drop(t, CCOLS);
    ApplyRectangular(d, YCOLS, Negated, n);
    ApplyRectangular(Flipped(d), XYHeadersOf(REFE), Constant, n);
  }

  /** `set_origin` keeps `n` cells per column. */
  lemma OriginRectangular(t: seq<Column<Cell>>, col: string, n: nat)
    requires col + "_x" in Names(t) && col + "_y" in Names(t) && Rectangular(t, n)
    requires |Get(t, col + "_x")| > 0 && |Get(t, col + "_y")| > 0
    ensures Rectangular(Origin(t, col), n)
  {
    var xa := Get(t, col + "_x")[0];
    var ya := Get(t, col + "_y")[0];
    ApplyRectangular(t, XCOLS, ShiftBy(xa), n);
    ApplyRectangular(Apply(t, XCOLS, ShiftBy(xa)), YCOLS, ShiftBy(ya), n);
  }

  /** The table after `set_origin(data, 'll_corner')`: confidence dropped, y flipped, reference
      points pinned, and every coordinate measured from the first `ll_corner` cell. */
  function Centered(t: seq<Column<Cell>>, n: nat): (r: seq<Column<Cell>>)
    requires Names(t) == HEADERS && Rectangular(t, n) && n > 0
    ensures Names(r) == XYHEADERS && Rectangular(r, n)
    ensures CornerNames(Names(r)) && |Get(r, "lr_corner_x")| == n && |Get(r, "lr_corner_y")| == n
  {
    StageShapes(t, n);
    LayoutNames();
    var p := Pinned(Flipped(Drop(t, CCOLS)));
    GetUniformLength(p, "ll_corner_x", n);
    GetUniformLength(p, "ll_corner_y", n);
    OriginRectangular(p, "ll_corner", n);
    var o := Origin(p, "ll_corner");
    GetUniformLength(o, "lr_corner_x", n);
    GetUniformLength(o, "lr_corner_y", n);
    o
  }

  /** The table `standardize` leaves in `data` (before the rounded copy it returns): the centred
      table with every pair rotated and scaled, and every column filled. */
  function Standardized(m: Math, t: seq<Column<Cell>>, n: nat): (r: seq<Column<Cell>>)
    requires Lawful(m) && Names(t) == HEADERS && Rectangular(t, n) && n > 0
    ensures Names(r) == XYHEADERS && Rectangular(r, n)
  {
    var o := Centered(t, n);
    LayoutNames();
    var u := TransformPairs(o, 14, TransformerOf(m, o), n);
    ApplyRectangular(u, Names(u), Fill.FilledAsWritten, n);
    Apply(u, Names(u), Fill.FilledAsWritten)
  }

  /** In a sequence without repeats, nothing in the middle part occurs in the first. */
  lemma DistinctParts<T>(a: seq<T>, b: seq<T>, c: seq<T>)
    requires Distinct(a + b + c)
    ensures forall x :: x in b ==> x !in a
  {
    var s := a + b + c;
    forall x | x in b ensures x !in a {
      var j :| 0 <= j < |b| && b[j] == x;
      assert s[|a| + j] == x;
      forall i | 0 <= i < |a| ensures a[i] != x {
        assert s[i] == a[i];
      }
    }
  }

  lemma OneHeaders(p: string)
    ensures XYHeadersOf([p]) == [p + "_x", p + "_y"]
  {
  }

  /** The x/y names of the first `k + 1` points: those of the first `k`, then point `k`'s two. */
  lemma PrefixHeaders(ps: seq<string>, k: nat)
    requires k < |ps|
    ensures XYHeadersOf(ps[..k]) + [ps[k] + "_x", ps[k] + "_y"] == XYHeadersOf(ps[..k + 1])
  {
    assert ps[..k + 1] == ps[..k] + [ps[k]];
    XYHeadersConcat(ps[..k], [ps[k]]);
    OneHeaders(ps[k]);
  }

  /** The x/y names of `ps` split after point `k`. */
  lemma SplitHeaders(ps: seq<string>, k: nat)
    requires k < |ps|
    ensures XYHeadersOf(ps) == XYHeadersOf(ps[..k + 1]) + XYHeadersOf(ps[k + 1..])
  {
    assert ps == ps[..k + 1] + ps[k + 1..];
    XYHeadersConcat(ps[..k + 1], ps[k + 1..]);
  }

  /** `for col in REFE: replace_w_median(data, col)`. */
  method PinReferences(f: PoseFrame)
    requires forall c :: c in XYHeadersOf(REFE) ==> c in Names(f.columns)
    modifies f
    ensures f.columns == Pinned(old(f.columns))
  {
    ghost var t := f.columns;
    XYHeadersHold();
    var k := 0;
    while k < |REFE|
      invariant 0 <= k <= |REFE| && f.columns == Apply(t, XYHeadersOf(REFE[..k]), Constant)
    {
      PrefixHeaders(REFE, k);
      SplitHeaders(REFE, k);
      DistinctParts(XYHeadersOf(REFE[..k]), [REFE[k] + "_x", REFE[k] + "_y"], XYHeadersOf(REFE[k + 1..]));
      assert REFE[k] + "_x" in XYHeadersOf(REFE) && REFE[k] + "_y" in XYHeadersOf(REFE) by {
        assert XYHeadersOf(REFE)[2 * k] == REFE[k] + "_x";
        assert XYHeadersOf(REFE)[2 * k + 1] == REFE[k] + "_y";
      }
      ReplaceWithMedian(f, REFE[k]);
      ApplyConcat(t, XYHeadersOf(REFE[..k]), [REFE[k] + "_x", REFE[k] + "_y"], Constant);
      k := k + 1;
    }
    assert REFE[..k] == REFE;
  }

  /** `for xcol, ycol in zip(XCOLS, YCOLS): data[[xcol, ycol]] = transformer.transform(...)`. */
  method TransformAll(f: PoseFrame, tr: Option<Transformer>, ghost n: nat)
    requires Rectangular(f.columns, n) && forall c :: c in XCOLS || c in YCOLS ==> c in Names(f.columns)
    modifies f
    ensures f.columns == TransformPairs(old(f.columns), 14, tr, n)
  {
    ghost var o := f.columns;
    ColumnsDistinct();
    var k := 0;
    while k < 14
      invariant 0 <= k <= 14 && f.columns == TransformPairs(o, k, tr, n)
    {
      var q := TransformCells(tr, Get(f.columns, XCOLS[k]), Get(f.columns, YCOLS[k]));
      f.columns := Apply(f.columns, [XCOLS[k]], Put(q.0));
      f.columns := Apply(f.columns, [YCOLS[k]], Put(q.1));
      k := k + 1;
    }
  }

  /** `standardize(data)`: the steps in their order, each overwriting `data`; the caller's table
      ends as Standardized and the rounded copy is returned. */
  method Standardize(m: Math, f: PoseFrame, ghost n: nat) returns (rounded: seq<Column<Cell>>)
    requires Lawful(m) && Names(f.columns) == HEADERS && Rectangular(f.columns, n) && n > 0
    modifies f
    ensures f.columns == Standardized(m, old(f.columns), n)
    ensures rounded == Apply(f.columns, Names(f.columns), Rounded)
  {
    ghost var t := f.columns;
    StageShapes(t, n);
    LayoutNames();
    f.columns := Drop(f.columns, CCOLS);
    f.columns := Apply(f.columns, YCOLS, Negated);
    PinReferences(f);
    ghost var p := f.columns;
    GetUniformLength(p, "ll_corner_x", n);
    GetUniformLength(p, "ll_corner_y", n);
    SetOrigin(f, "ll_corner");
    ghost var o := f.columns;
    OriginRectangular(p, "ll_corner", n);
    GetUniformLength(o, "lr_corner_x", n);
    GetUniformLength(o, "lr_corner_y", n);
    var adj := Get(f.columns, "lr_corner_x")[0];
    var opp := NegCell(Get(f.columns, "lr_corner_y")[0]);
    var tr := MakeTransformer(m, adj, opp);
    TransformAll(f, tr, n);
    FillNa(f);
    rounded := Apply(f.columns, Names(f.columns), Rounded);
  }

  // --- what `standardize` makes of the corners ------------------------------------------------

  lemma GetHead(c: Column<Cell>, rest: seq<Column<Cell>>)
    ensures c.name in Names([c] + rest) && Get([c] + rest, c.name) == c.cells
  {
    assert Names([c] + rest)[0] == c.name;
  }

  lemma GetTail(c: Column<Cell>, rest: seq<Column<Cell>>, name: string)
    requires name in Names(rest) && c.name != name
    ensures name in Names([c] + rest) && Get([c] + rest, name) == Get(rest, name)
  {
    var t := [c] + rest;
    assert Names(t) == [c.name] + Names(rest);
    assert t[1..] == rest;
  }

  /** Dropping other names leaves a column where it can be read as before. */
  lemma {:induction false} GetDrop(t: seq<Column<Cell>>, names: seq<string>, name: string)
    requires name in Names(t) && name !in names
    ensures name in Names(Drop(t, names)) && Get(Drop(t, names), name) == Get(t, name)
  {
    var c, rest := t[0], t[1..];
    assert t == [c] + rest;
    var dr := Drop(rest, names);
    if c.name == name {
      assert Drop(t, names) == [c] + dr;
      GetHead(c, rest);
      GetHead(c, dr);
    } else {
      assert Names(t)[1..] == Names(rest);
      assert name in Names(rest);
      GetTail(c, rest, name);
      GetDrop(rest, names, name);
      if c.name in names {
        assert Drop(t, names) == dr;
      } else {
        assert Drop(t, names) == [c] + dr;
        GetTail(c, dr, name);
      }
    }
  }

  /** Reading a column after `set_origin`: an x column less the first `col_x` cell, a y column less
      the first `col_y` cell, any other column as it was. */
  lemma GetOrigin(t: seq<Column<Cell>>, col: string, name: string)
    requires col + "_x" in Names(t) && col + "_y" in Names(t) && name in Names(t)
    requires |Get(t, col + "_x")| > 0 && |Get(t, col + "_y")| > 0
    ensures name in Names(Origin(t, col))
    ensures Get(Origin(t, col), name) ==
      if name in XCOLS then Shifted(Get(t, name), Get(t, col + "_x")[0])
      else if name in YCOLS then Shifted(Get(t, name), Get(t, col + "_y")[0])
      else Get(t, name)
  {
    var xa := Get(t, col + "_x")[0];
    var ya := Get(t, col + "_y")[0];
    ColumnsDistinct();
    assert name in XCOLS ==> name !in YCOLS;
    GetApply(t, XCOLS, ShiftBy(xa), name);
    GetApply(Apply(t, XCOLS, ShiftBy(xa)), YCOLS, ShiftBy(ya), name);
  }

  /** The x and y column names of one of the two corners. */
  predicate CornerPair(xn: string, yn: string) {
    (xn == "ll_corner_x" && yn == "ll_corner_y") || (xn == "lr_corner_x" && yn == "lr_corner_y")
  }

  /** Where the corners' columns sit in the column lists. */
  lemma CornerColumns(xn: string, yn: string)
    requires CornerPair(xn, yn)
    ensures xn in XCOLS && xn !in YCOLS && yn in YCOLS && yn !in XCOLS
    ensures xn in XYHeadersOf(REFE) && yn in XYHeadersOf(REFE)
    ensures xn in HEADERS && yn in HEADERS && xn !in CCOLS && yn !in CCOLS
  {
    ColumnsDistinct();
    PointsDistinct();
    var k := if xn == "ll_corner_x" then 9 else 10;
    assert XCOLS[k] == xn && YCOLS[k] == yn;
    assert xn !in YCOLS by {
      forall j | 0 <= j < 14 ensures YCOLS[j] != xn { assert XCOLS[k] != YCOLS[j]; }
    }
    assert yn !in XCOLS by {
      forall j | 0 <= j < 14 ensures XCOLS[j] != yn { assert XCOLS[j] != YCOLS[k]; }
    }
    XYHeadersHold();
    ColumnLists();
    assert REFE[k - 8] == POINTS[k];
    assert XYHeadersOf(REFE)[2 * (k - 8)] == XCOLS[k] && XYHeadersOf(REFE)[2 * (k - 8) + 1] == YCOLS[k];
    LayoutNames();
    ConfidenceNames();
    assert POINTS[k] in POINTS;
  }

  /** Where `standardize` sees a corner in the raw table: the median of its x column, and the
      median of its flipped y column; missing when the column has no present value. */
  function CornerX(t: seq<Column<Cell>>, xn: string): Cell
    requires xn in Names(t)
  {
    MedianOf(Get(t, xn))
  }

  function CornerY(t: seq<Column<Cell>>, yn: string): Cell
    requires yn in Names(t)
  {
    MedianOf(Negated(Get(t, yn)))
  }

  /** After flipping and pinning, a corner's x column is its median everywhere and its y column the
      median of the flipped column. */
  lemma PinnedCorner(t: seq<Column<Cell>>, n: nat, xn: string, yn: string)
    requires Names(t) == HEADERS && Rectangular(t, n) && CornerPair(xn, yn)
    ensures xn in Names(t) && yn in Names(t)
    ensures var p := Pinned(Flipped(Drop(t, CCOLS)));
      xn in Names(p) && yn in Names(p) &&
      Get(p, xn) == Constant(Get(t, xn)) && Get(p, yn) == Constant(Negated(Get(t, yn)))
  {
    CornerColumns(xn, yn);
    StageShapes(t, n);
    var d := Drop(t, CCOLS);
    GetDrop(t, CCOLS, xn);
    GetDrop(t, CCOLS, yn);
    GetApply(d, YCOLS, Negated, xn);
    GetApply(d, YCOLS, Negated, yn);
    GetApply(Flipped(d), XYHeadersOf(REFE), Constant, xn);
    GetApply(Flipped(d), XYHeadersOf(REFE), Constant, yn);
  }

  /** The cell `a - b`, missing when either is. */
  function Sub(a: Option<real>, b: Option<real>): Cell {
    if a.Some? && b.Some? then Some(a.value - b.value) else None
  }

  /** Column `name` is present and holds `v` in every row. */
  predicate ColumnAt(t: seq<Column<Cell>>, name: string, v: Cell) {
    name in Names(t) && Uniform(Get(t, name), v)
  }

  /** The medians `standardize` pins a column to. */
  function MedianOf(c: seq<Cell>): Cell { Median(Present(c)) }

  /** A corner's columns after `set_origin`: each pinned column less the pinned `ll_corner` cell. */
  lemma CenteredCornerCells(t: seq<Column<Cell>>, n: nat, xn: string, yn: string)
    requires Names(t) == HEADERS && Rectangular(t, n) && n > 0 && CornerPair(xn, yn)
    ensures "ll_corner_x" in Names(t) && "ll_corner_y" in Names(t) && xn in Names(t) && yn in Names(t)
    ensures xn in Names(Centered(t, n)) && yn in Names(Centered(t, n))
    ensures Get(Centered(t, n), xn) == Shifted(Constant(Get(t, xn)), MedianOf(Get(t, "ll_corner_x")))
    ensures Get(Centered(t, n), yn) == Shifted(Constant(Negated(Get(t, yn))), MedianOf(Negated(Get(t, "ll_corner_y"))))
  {
    LayoutNames();
    PinnedCorner(t, n, "ll_corner_x", "ll_corner_y");
    PinnedCorner(t, n, xn, yn);
    CornerColumns(xn, yn);
    var p := Pinned(Flipped(Drop(t, CCOLS)));
    StageShapes(t, n);
    GetUniformLength(p, "ll_corner_x", n);
    GetUniformLength(p, "ll_corner_y", n);
    OriginTags();
    var o := Origin(p, "ll_corner");
    assert Centered(t, n) == o;
    var xa, ya := Get(p, "ll_corner_x")[0], Get(p, "ll_corner_y")[0];
    assert xa == MedianOf(Get(t, "ll_corner_x"));
    assert ya == MedianOf(Negated(Get(t, "ll_corner_y")));
    GetOrigin(p, "ll_corner", xn);
    assert Get(o, xn) == Shifted(Get(p, xn), xa);
    GetOrigin(p, "ll_corner", yn);
    assert Get(o, yn) == Shifted(Get(p, yn), ya);
  }

  /** The names `set_origin(data, 'll_corner')` reads. */
  lemma OriginTags()
    ensures "ll_corner" + "_x" == "ll_corner_x" && "ll_corner" + "_y" == "ll_corner_y"
  {
  }

  /** A pinned column less a pinned first cell holds the difference of the two medians in every
      row, which is missing when either median is. */
  lemma PinnedOffset(g: seq<Cell>, c: seq<Cell>, l: seq<Cell>)
    requires g == Shifted(Constant(c), MedianOf(l))
    ensures Uniform(g, Sub(MedianOf(c), MedianOf(l)))
  {
  }

  /** After `set_origin`, each corner column of a conforming table holds, in every row, the corner's
      median less the median of the matching `ll_corner` column. */
  lemma CenteredCorner(t: seq<Column<Cell>>, n: nat, xn: string, yn: string)
    requires Names(t) == HEADERS && Rectangular(t, n) && n > 0 && CornerPair(xn, yn)
    ensures CornerNames(Names(t))
    ensures ColumnAt(Centered(t, n), xn, Sub(CornerX(t, xn), CornerX(t, "ll_corner_x")))
    ensures ColumnAt(Centered(t, n), yn, Sub(CornerY(t, yn), CornerY(t, "ll_corner_y")))
  {
    CenteredCornerCells(t, n, xn, yn);
    LayoutNames();
    var o := Centered(t, n);
    PinnedOffset(Get(o, xn), Get(t, xn), Get(t, "ll_corner_x"));
    PinnedOffset(Get(o, yn), Negated(Get(t, yn)), Negated(Get(t, "ll_corner_y")));
  }

  /** A cell less itself is zero, or missing. */
  lemma SubSelf(a: Cell)
    ensures Sub(a, a) == if a.Some? then Some(0.0) else None
  {
  }

  /** After `set_origin`, `ll_corner` sits at the origin in every row where it was seen, and
      `lr_corner` at its offset from `ll_corner`. */
  lemma CenteredCorners(t: seq<Column<Cell>>, n: nat)
    requires Names(t) == HEADERS && Rectangular(t, n) && n > 0
    ensures CornerNames(Names(t))
    ensures var o := Centered(t, n);
      ColumnAt(o, "ll_corner_x", if CornerX(t, "ll_corner_x").Some? then Some(0.0) else None) &&
      ColumnAt(o, "ll_corner_y", if CornerY(t, "ll_corner_y").Some? then Some(0.0) else None) &&
      ColumnAt(o, "lr_corner_x", Sub(CornerX(t, "lr_corner_x"), CornerX(t, "ll_corner_x"))) &&
      ColumnAt(o, "lr_corner_y", Sub(CornerY(t, "lr_corner_y"), CornerY(t, "ll_corner_y")))
  {
    CenteredCorner(t, n, "ll_corner_x", "ll_corner_y");
    CenteredCorner(t, n, "lr_corner_x", "lr_corner_y");
    SubSelf(CornerX(t, "ll_corner_x"));
    SubSelf(CornerY(t, "ll_corner_y"));
  }

  /** The corners are pair 9 (`ll_corner`) and pair 10 (`lr_corner`) of the transform loop. */
  lemma CornerIndices()
    ensures |XCOLS| == 14 && |YCOLS| == 14
    ensures XCOLS[9] == "ll_corner_x" && YCOLS[9] == "ll_corner_y"
    ensures XCOLS[10] == "lr_corner_x" && YCOLS[10] == "lr_corner_y"
  {
    ColumnLists();
    assert POINTS[9] == "ll_corner" && POINTS[10] == "lr_corner";
    OriginTags();
    assert "lr_corner" + "_x" == "lr_corner_x" && "lr_corner" + "_y" == "lr_corner_y";
  }

  /** Filling leaves a column that holds one value, or is all missing, as it is. */
  lemma FilledUniform(u: seq<Column<Cell>>, name: string, v: Cell)
    requires ColumnAt(u, name, v)
    ensures ColumnAt(Apply(u, Names(u), Fill.FilledAsWritten), name, v)
  {
    GetApply(u, Names(u), Fill.FilledAsWritten, name);
    if v.Some? {
      FilledFull(Get(u, name));
    } else {
      FilledEmpty(Get(u, name));
    }
  }

  /** The transformer made from the offset `(a, b)` of `lr_corner` (with `opp = -b`) exists when the
      offset is not zero, and takes the offset to `(TRAY_LENGTH, 0)`. */
  lemma CornerTransformer(m: Math, a: real, b: real)
    requires Lawful(m) && (a != 0.0 || b != 0.0)
    ensures MakeTransformer(m, Some(a), Some(-b)).Some?
    ensures Transform(MakeTransformer(m, Some(a), Some(-b)).value, Point(a, b)) == Point(TRAY_LENGTH, 0.0)
  {
    MakeTransformerFacts(m, a, -b);
    assert -(-b) == b;
  }

  /** With `ll_corner` at the origin and `lr_corner` at `(a, b) != (0, 0)` in every row, the
      transform puts `ll_corner` at the origin and `lr_corner` at `(TRAY_LENGTH, 0)`. */
  lemma TransformedCorners(m: Math, o: seq<Column<Cell>>, n: nat, a: real, b: real)
    requires Lawful(m) && Rectangular(o, n) && (forall c :: c in XCOLS || c in YCOLS ==> c in Names(o))
    requires ColumnAt(o, "ll_corner_x", Some(0.0)) && ColumnAt(o, "ll_corner_y", Some(0.0))
    requires ColumnAt(o, "lr_corner_x", Some(a)) && ColumnAt(o, "lr_corner_y", Some(b))
    requires a != 0.0 || b != 0.0
    ensures var u := TransformPairs(o, 14, MakeTransformer(m, Some(a), Some(-b)), n);
      ColumnAt(u, "ll_corner_x", Some(0.0)) && ColumnAt(u, "ll_corner_y", Some(0.0)) &&
      ColumnAt(u, "lr_corner_x", Some(TRAY_LENGTH)) && ColumnAt(u, "lr_corner_y", Some(0.0))
  {
    var tr := MakeTransformer(m, Some(a), Some(-b));
    CornerTransformer(m, a, b);
    TransformOrigin(tr.value);
    CornerIndices();
    TransformedPairAt(o, n, tr.value, 9, Point(0.0, 0.0), Point(0.0, 0.0));
    TransformedPairAt(o, n, tr.value, 10, Point(a, b), Point(TRAY_LENGTH, 0.0));
  }

  /** A pair whose columns hold the coordinates of `p` in every row holds those of its image `q`
      after the transform. */
  lemma TransformedPairAt(o: seq<Column<Cell>>, n: nat, tr: Transformer, k: nat, p: Point, q: Point)
    requires Rectangular(o, n) && (forall c :: c in XCOLS || c in YCOLS ==> c in Names(o))
    requires k < 14 && k < |XCOLS| && k < |YCOLS| && Transform(tr, p) == q
    requires ColumnAt(o, XCOLS[k], Some(p.x)) && ColumnAt(o, YCOLS[k], Some(p.y))
    ensures var u := TransformPairs(o, 14, Some(tr), n);
      ColumnAt(u, XCOLS[k], Some(q.x)) && ColumnAt(u, YCOLS[k], Some(q.y))
  {
    TransformPairsAt(o, 14, Some(tr), n, k);
    TransformConstant(tr, Get(o, XCOLS[k]), Get(o, YCOLS[k]), p, q);
  }

  /** Without a transformer, every coordinate column comes out of the transform all missing. */
  lemma TransformedMissing(o: seq<Column<Cell>>, n: nat)
    requires Rectangular(o, n) && (forall c :: c in XCOLS || c in YCOLS ==> c in Names(o))
    ensures |XCOLS| == 14 && |YCOLS| == 14
    ensures var u := TransformPairs(o, 14, None, n);
      forall k :: 0 <= k < 14 ==> ColumnAt(u, XCOLS[k], None) && ColumnAt(u, YCOLS[k], None)
  {
    ColumnLists();
    var u := TransformPairs(o, 14, None, n);
    forall k | 0 <= k < 14 ensures ColumnAt(u, XCOLS[k], None) && ColumnAt(u, YCOLS[k], None) {
      TransformPairsAt(o, 14, None, n, k);
      TransformMissing(Get(o, XCOLS[k]), Get(o, YCOLS[k]));
    }
  }

  /** The offset of `lr_corner` from `ll_corner` that `standardize` measures: `(adj, opp)` before
      the sign of `opp` is turned back. */
  function CornerOffset(t: seq<Column<Cell>>): (Cell, Cell)
    requires CornerNames(Names(t))
  {
    (Sub(CornerX(t, "lr_corner_x"), CornerX(t, "ll_corner_x")), Sub(CornerY(t, "lr_corner_y"), CornerY(t, "ll_corner_y")))
  }

  /** The centred table's transformer is the one made from the corners' offset. */
  lemma CenteredTransformer(m: Math, t: seq<Column<Cell>>, n: nat)
    requires Lawful(m) && Names(t) == HEADERS && Rectangular(t, n) && n > 0
    ensures CornerNames(Names(t))
    ensures var d := CornerOffset(t);
      TransformerOf(m, Centered(t, n)) == MakeTransformer(m, d.0, NegCell(d.1))
  {
    CenteredCorners(t, n);
  }

  /** The transformer made from an offset `(a, b)`, with `opp = -b`, exists exactly when both
      coordinates are present and not both zero. */
  lemma OffsetTransformer(m: Math, a: Cell, b: Cell)
    requires Lawful(m)
    ensures MakeTransformer(m, a, NegCell(b)).Some? <==> a.Some? && b.Some? && (a.value != 0.0 || b.value != 0.0)
  {
    if a.Some? && b.Some? {
      MakeTransformerFacts(m, a.value, -b.value);
    }
  }

  /** The transformer of a table whose first `lr_corner` cells are `(a, b)`. */
  lemma TransformerAt(m: Math, o: seq<Column<Cell>>, a: real, b: real)
    requires Lawful(m) && ColumnAt(o, "lr_corner_x", Some(a)) && ColumnAt(o, "lr_corner_y", Some(b))
    requires |Get(o, "lr_corner_x")| > 0 && |Get(o, "lr_corner_y")| > 0
    ensures TransformerOf(m, o) == MakeTransformer(m, Some(a), Some(-b))
  {
  }

  /** The steps after `set_origin`, on a table with `ll_corner` at the origin and `lr_corner` at
      `(a, b) != (0, 0)` in every row: the transformed, filled table has `ll_corner` at the origin
      and `lr_corner` at `(TRAY_LENGTH, 0)`. */
  lemma FinishedCorners(m: Math, o: seq<Column<Cell>>, n: nat, a: real, b: real)
    requires Lawful(m) && Rectangular(o, n) && (forall c :: c in XCOLS || c in YCOLS ==> c in Names(o))
    requires ColumnAt(o, "ll_corner_x", Some(0.0)) && ColumnAt(o, "ll_corner_y", Some(0.0))
    requires ColumnAt(o, "lr_corner_x", Some(a)) && ColumnAt(o, "lr_corner_y", Some(b))
    requires |Get(o, "lr_corner_x")| > 0 && |Get(o, "lr_corner_y")| > 0 && (a != 0.0 || b != 0.0)
    ensures var u := TransformPairs(o, 14, TransformerOf(m, o), n); var r := Apply(u, Names(u), Fill.FilledAsWritten);
      ColumnAt(r, "ll_corner_x", Some(0.0)) && ColumnAt(r, "ll_corner_y", Some(0.0)) &&
      ColumnAt(r, "lr_corner_x", Some(TRAY_LENGTH)) && ColumnAt(r, "lr_corner_y", Some(0.0))
  {
    TransformedCorners(m, o, n, a, b);
    TransformerAt(m, o, a, b);
    var u := TransformPairs(o, 14, TransformerOf(m, o), n);
    FilledUniform(u, "ll_corner_x", Some(0.0));
    FilledUniform(u, "ll_corner_y", Some(0.0));
    FilledUniform(u, "lr_corner_x", Some(TRAY_LENGTH));
    FilledUniform(u, "lr_corner_y", Some(0.0));
  }

  /** The steps after `set_origin`, without a transformer: every coordinate column of the
      transformed, filled table is all missing. */
  lemma FinishedMissing(m: Math, o: seq<Column<Cell>>, n: nat)
    requires Lawful(m) && Rectangular(o, n) && (forall c :: c in XCOLS || c in YCOLS ==> c in Names(o))
    requires "lr_corner_x" in Names(o) && "lr_corner_y" in Names(o)
    requires |Get(o, "lr_corner_x")| > 0 && |Get(o, "lr_corner_y")| > 0 && TransformerOf(m, o).None?
    ensures |XCOLS| == 14 && |YCOLS| == 14
    ensures var u := TransformPairs(o, 14, TransformerOf(m, o), n); var r := Apply(u, Names(u), Fill.FilledAsWritten);
      forall k :: 0 <= k < 14 ==> ColumnAt(r, XCOLS[k], None) && ColumnAt(r, YCOLS[k], None)
  {
    TransformedMissing(o, n);
    var u := TransformPairs(o, 14, None, n);
    forall k | 0 <= k < 14 ensures ColumnAt(Apply(u, Names(u), Fill.FilledAsWritten), XCOLS[k], None) && ColumnAt(Apply(u, Names(u), Fill.FilledAsWritten), YCOLS[k], None) {
      FilledUniform(u, XCOLS[k], None);
      FilledUniform(u, YCOLS[k], None);
    }
  }

  /** When both corners are seen and apart, the standardized table has `ll_corner` at the origin
      and `lr_corner` at `(TRAY_LENGTH, 0)` in every row. */
  lemma StandardizedCorners(m: Math, t: seq<Column<Cell>>, n: nat)
    requires Lawful(m) && Names(t) == HEADERS && Rectangular(t, n) && n > 0
    ensures CornerNames(Names(t))
    ensures var d := CornerOffset(t); var r := Standardized(m, t, n);
      d.0.Some? && d.1.Some? && (d.0.value != 0.0 || d.1.value != 0.0) ==>
        ColumnAt(r, "ll_corner_x", Some(0.0)) && ColumnAt(r, "ll_corner_y", Some(0.0)) &&
        ColumnAt(r, "lr_corner_x", Some(TRAY_LENGTH)) && ColumnAt(r, "lr_corner_y", Some(0.0))
  {
    CenteredCorners(t, n);
    var d := CornerOffset(t);
    if d.0.Some? && d.1.Some? && (d.0.value != 0.0 || d.1.value != 0.0) {
      LayoutNames();
      FinishedCorners(m, Centered(t, n), n, d.0.value, d.1.value);
    }
  }

  /** When either corner is never seen, or both sit at the same place, there is no transformer
      and every coordinate of the standardized table is missing. */
  lemma StandardizedDegenerate(m: Math, t: seq<Column<Cell>>, n: nat)
    requires Lawful(m) && Names(t) == HEADERS && Rectangular(t, n) && n > 0
    ensures CornerNames(Names(t)) && |XCOLS| == 14 && |YCOLS| == 14
    ensures var d := CornerOffset(t); var r := Standardized(m, t, n);
      d.0.None? || d.1.None? || (d.0.value == 0.0 && d.1.value == 0.0) ==>
        forall k :: 0 <= k < 14 ==> ColumnAt(r, XCOLS[k], None) && ColumnAt(r, YCOLS[k], None)
  {
    CenteredCorners(t, n);
    CenteredTransformer(m, t, n);
    var d := CornerOffset(t);
    OffsetTransformer(m, d.0, d.1);
    LayoutNames();
    ColumnLists();
    if d.0.None? || d.1.None? || (d.0.value == 0.0 && d.1.value == 0.0) {
      FinishedMissing(m, Centered(t, n), n);
    }
  }

  /** Rounding keeps a column that holds a four-decimal value in every row as it is. */
  lemma RoundedUniform(u: seq<Column<Cell>>, name: string, v: real)
    requires ColumnAt(u, name, Some(v)) && Round4(v) == v
    ensures ColumnAt(Apply(u, Names(u), Rounded), name, Some(v))
  {
    GetApply(u, Names(u), Rounded, name);
  }

  /** The rounded copy `standardize` returns keeps the corners exactly where the standardized
      table has them: `0` and `TRAY_LENGTH` have at most four decimals. */
  lemma RoundedCorners(m: Math, t: seq<Column<Cell>>, n: nat)
    requires Lawful(m) && Names(t) == HEADERS && Rectangular(t, n) && n > 0
    ensures CornerNames(Names(t))
    ensures var d := CornerOffset(t); var r := Standardized(m, t, n); var q := Apply(r, Names(r), Rounded);
      d.0.Some? && d.1.Some? && (d.0.value != 0.0 || d.1.value != 0.0) ==>
        ColumnAt(q, "ll_corner_x", Some(0.0)) && ColumnAt(q, "ll_corner_y", Some(0.0)) &&
        ColumnAt(q, "lr_corner_x", Some(TRAY_LENGTH)) && ColumnAt(q, "lr_corner_y", Some(0.0))
  {
    StandardizedCorners(m, t, n);
    var d := CornerOffset(t);
    if d.0.Some? && d.1.Some? && (d.0.value != 0.0 || d.1.value != 0.0) {
      var r := Standardized(m, t, n);
      Round4Exact(0);
      Round4Exact(268000);
      assert 268000 as real / 10000.0 == TRAY_LENGTH;
      RoundedUniform(r, "ll_corner_x", 0.0);
      RoundedUniform(r, "ll_corner_y", 0.0);
      RoundedUniform(r, "lr_corner_x", TRAY_LENGTH);
      RoundedUniform(r, "lr_corner_y", 0.0);
    }
  }
}
