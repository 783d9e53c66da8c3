/** Prediction refinement (touchscreen_toolbox/postprocess/refine.py): low-confidence coordinates
    are blanked, the confidence columns dropped, and every column smoothed by a centred rolling
    median and then a Savitzky-Golay filter. Each step works on a copy of its input. */
module Refine {
  import opened Wrappers
  import opened Tables
  import opened Layout
  import Config

  /** `cfd < p_cutoff`; a missing confidence compares false, like NaN. */
  predicate Low(cfd: Cell, p: real)
    ensures cfd.None? ==> !Low(cfd, p)
  {
    cfd.Some? && cfd.value < p
  }

  function Blanked(c: Column<Cell>, cfd: seq<Cell>, p: real): (r: Column<Cell>)
    requires |c.cells| == |cfd|
    ensures r.name == c.name && |r.cells| == |cfd|
    ensures forall i :: 0 <= i < |cfd| ==> r.cells[i] == if Low(cfd[i], p) then None else c.cells[i]
  {
    Column(c.name, seq(|cfd|, i requires 0 <= i < |cfd| => if Low(cfd[i], p) then None else c.cells[i]))
  }

  /** `cutoff`: in each triple (x, y, confidence) of columns, the x and y cell of every frame whose
      confidence is below `p` become missing. */
  function CutoffTable(t: seq<Column<Cell>>, p: real, n: nat): (r: seq<Column<Cell>>)
    requires Rectangular(t, n) && |t| % 3 == 0
    ensures |r| == |t|
  {
    if t == [] then [] else
      var cfd := t[2].cells;
      [Blanked(t[0], cfd, p), Blanked(t[1], cfd, p), t[2]] + CutoffTable(t[3..], p, n)
  }

  lemma {:induction false} CutoffConcat(a: seq<Column<Cell>>, b: seq<Column<Cell>>, p: real, n: nat)
    requires Rectangular(a, n) && Rectangular(b, n) && |a| % 3 == 0 && |b| % 3 == 0
    ensures Rectangular(a + b, n) && |a + b| % 3 == 0
    ensures CutoffTable(a + b, p, n) == CutoffTable(a, p, n) + CutoffTable(b, p, n)
  {
    if a == [] {
      assert a + b == b;
    } else {
      assert (a + b)[3..] == a[3..] + b;
      CutoffConcat(a[3..], b, p, n);
    }
  }

  /** Cutoff keeps every name and the number of cells of every column. */
  lemma {:induction false} CutoffShape(t: seq<Column<Cell>>, p: real, n: nat)
    requires Rectangular(t, n) && |t| % 3 == 0
    ensures var r := CutoffTable(t, p, n); Rectangular(r, n) && Names(r) == Names(t)
  {
    if t != [] {
      var u := t[3..];
      CutoffShape(u, p, n);
      var r := CutoffTable(t, p, n);
      var ru := CutoffTable(u, p, n);
      assert r[3..] == ru;
      forall k | 3 <= k < |t| ensures r[k] == ru[k - 3] && t[k] == u[k - 3] {}
      assert Names(r) == Names(t) by {
        forall k | 0 <= k < |t| ensures r[k].name == t[k].name {
          if k >= 3 { assert Names(ru)[k - 3] == Names(u)[k - 3]; }
        }
      }
    }
  }

  /** In the `j`-th triple, cutoff blanks the x and y column by the triple's confidence column and
      keeps that column: an x or y cell becomes missing exactly when its frame's confidence is below
      `p`, and is kept otherwise. */
  lemma {:induction false} CutoffAt(t: seq<Column<Cell>>, p: real, n: nat, j: nat)
    requires Rectangular(t, n) && |t| % 3 == 0 && 3 * j + 2 < |t|
    ensures var r := CutoffTable(t, p, n); var cfd := t[3 * j + 2].cells;
      r[3 * j] == Blanked(t[3 * j], cfd, p) && r[3 * j + 1] == Blanked(t[3 * j + 1], cfd, p) &&
      r[3 * j + 2] == t[3 * j + 2]
  {
    if j > 0 {
      var u := t[3..];
      CutoffAt(u, p, n, j - 1);
      var r := CutoffTable(t, p, n);
      assert r[3..] == CutoffTable(u, p, n);
      assert u[3 * (j - 1)] == t[3 * j] && u[3 * (j - 1) + 1] == t[3 * j + 1] && u[3 * (j - 1) + 2] == t[3 * j + 2];
      assert r[3 * j] == r[3..][3 * (j - 1)] && r[3 * j + 1] == r[3..][3 * (j - 1) + 1] && r[3 * j + 2] == r[3..][3 * (j - 1) + 2];
    }
  }

  lemma CutoffStep(t: seq<Column<Cell>>, i: nat, p: real, n: nat)
    requires Rectangular(t, n) && |t| % 3 == 0 && i + 3 <= |t| && i % 3 == 0
    ensures Rectangular(t[..i], n) && Rectangular(t[..i + 3], n) && |t[..i]| % 3 == 0 && |t[..i + 3]| % 3 == 0
    ensures (CutoffTable(t[..i], p, n) + t[i..])[i := Blanked(t[i], t[i + 2].cells, p)][i + 1 := Blanked(t[i + 1], t[i + 2].cells, p)]
      == CutoffTable(t[..i + 3], p, n) + t[i + 3..]
  {
    var cfd := t[i + 2].cells;
    assert t[..i + 3] == t[..i] + t[i..i + 3];
    CutoffConcat(t[..i], t[i..i + 3], p, n);
    assert CutoffTable(t[i..i + 3], p, n) == [Blanked(t[i], cfd, p), Blanked(t[i + 1], cfd, p), t[i + 2]] by {
      assert t[i..i + 3][3..] == [];
    }
  }

  /** The loop of `cutoff`, over the column triples of a copy of the table. */
  method Cutoff(t: seq<Column<Cell>>, p: real, n: nat) returns (r: seq<Column<Cell>>)
    requires Rectangular(t, n) && |t| % 3 == 0
    ensures r == CutoffTable(t, p, n)
  {
    r := t;
    var i := 0;
    ghost var j := 0;
    ghost var m := |t| / 3;
    assert |t| == 3 * m;
    assert t[..0] == [];
    while i < |t|
      invariant 0 <= j <= m && i == 3 * j
      invariant Rectangular(t[..i], n) && |t[..i]| % 3 == 0
      invariant r == CutoffTable(t[..i], p, n) + t[i..]
    {
      CutoffStep(t, i, p, n);
      var cfd := t[i + 2].cells;
      r := r[i := Blanked(t[i], cfd, p)][i + 1 := Blanked(t[i + 1], cfd, p)];
      i := i + 3;
      j := j + 1;
    }
    assert t[..i] == t;
  }

  lemma BlankedTwice(c: Column<Cell>, cfd: seq<Cell>, p: real)
    requires |c.cells| == |cfd|
    ensures Blanked(Blanked(c, cfd, p), cfd, p) == Blanked(c, cfd, p)
  {
  }

  /** Cutting off a second time changes nothing: the confidence columns it reads are the ones the
      first pass kept. */
  lemma {:induction false} CutoffIdempotent(t: seq<Column<Cell>>, p: real, n: nat)
    requires Rectangular(t, n) && |t| % 3 == 0
    ensures Rectangular(CutoffTable(t, p, n), n)
    ensures CutoffTable(CutoffTable(t, p, n), p, n) == CutoffTable(t, p, n)
  {
    CutoffShape(t, p, n);
    if t != [] {
      var r := CutoffTable(t, p, n);
      var u := t[3..];
      CutoffIdempotent(u, p, n);
      assert r[3..] == CutoffTable(u, p, n);
      BlankedTwice(t[0], t[2].cells, p);
      BlankedTwice(t[1], t[2].cells, p);
    }
  }

  // --- median filter ------------------------------------------------------------

  const WINDOW_LEN: nat := 5

  /** The cells of the centred window of length WINDOW_LEN around frame `i`, cut at the ends. */
  function Window(c: seq<Cell>, i: nat): (r: seq<Cell>)
    requires i < |c|
    ensures c[i] in r
  {
    var lo := if i < WINDOW_LEN / 2 then 0 else i - WINDOW_LEN / 2;
    var hi := if i + WINDOW_LEN / 2 + 1 > |c| then |c| else i + WINDOW_LEN / 2 + 1;
    assert c[lo..hi][i - lo] == c[i];
    c[lo..hi]
  }

  /** A present cell's window has a present value, the cell's own. */
  lemma {:induction false} WindowPresent(c: seq<Cell>, i: nat)
    requires i < |c| && c[i].Some?
    ensures Present(Window(c, i)) != []
  {
    PresentMember(Window(c, i), c[i].value);
  }

  /** One cell of the filtered column: missing where the input is, otherwise the median of the
      present cells of its window. */
  function SmoothedCell(c: seq<Cell>, i: nat): (r: Cell)
    requires i < |c|
    ensures r.None? <==> c[i].None?
  {
    if c[i].None? then None else
      WindowPresent(c, i);
      Median(Present(Window(c, i)))
  }

  /** One column of `median_filter`: `rolling(5, min_periods=1, center=True).median()`, which takes
      the median of the present cells of each window, then the originally missing cells put back. */
  function Smoothed(c: seq<Cell>): (r: seq<Cell>)
    ensures |r| == |c|
    ensures forall i :: 0 <= i < |c| ==> (r[i].None? <==> c[i].None?)
    ensures forall i :: 0 <= i < |c| && c[i].Some? ==> r[i] == Median(Present(Window(c, i)))
  {
    seq(|c|, i requires 0 <= i < |c| => SmoothedCell(c, i))
  }

  /** A smoothed cell lies between the smallest and largest present value of its window. */
  lemma SmoothedBetween(c: seq<Cell>, i: nat)
    requires i < |c| && c[i].Some?
    ensures var w := Present(Window(c, i));
      Smoothed(c)[i].Some? &&
      (exists a :: 0 <= a < |w| && w[a] <= Smoothed(c)[i].value) &&
      (exists b :: 0 <= b < |w| && Smoothed(c)[i].value <= w[b])
  {
    var w := Present(Window(c, i));
    PresentMember(Window(c, i), c[i].value);
    MedianBounds(w);
  }

  /** A gap-free column that holds one value throughout is unchanged by the filter. */
  lemma SmoothedConstant(c: seq<Cell>, v: real)
    requires forall i :: 0 <= i < |c| ==> c[i] == Some(v)
    ensures Smoothed(c) == c
  {
    forall i | 0 <= i < |c| ensures Smoothed(c)[i] == c[i] {
      WindowConstant(c, i, v);
    }
  }

  lemma WindowConstant(c: seq<Cell>, i: nat, v: real)
    requires i < |c| && forall k :: 0 <= k < |c| ==> c[k] == Some(v)
    ensures Median(Present(Window(c, i))) == Some(v)
  {
    var win := Window(c, i);
    assert forall k :: 0 <= k < |win| ==> win[k] == Some(v);
    PresentConstant(win, v);
    var w := Present(win);
    WindowPresent(c, i);
    MedianBounds(w);
  }

  lemma {:induction false} PresentConstant(s: seq<Cell>, v: real)
    requires forall k :: 0 <= k < |s| ==> s[k] == Some(v)
    ensures forall j :: 0 <= j < |Present(s)| ==> Present(s)[j] == v
  {
    if s != [] {
      PresentConstant(s[1..], v);
    }
  }

  function SmoothTable(t: seq<Column<Cell>>): (r: seq<Column<Cell>>)
    ensures |r| == |t| && Names(r) == Names(t)
    ensures forall k :: 0 <= k < |t| ==> r[k].cells == Smoothed(t[k].cells)
  {
    seq(|t|, k requires 0 <= k < |t| => Column(t[k].name, Smoothed(t[k].cells)))
  }

  /** The loop of `median_filter`, over the columns of a copy of the table. */
  method MedianFilter(t: seq<Column<Cell>>) returns (r: seq<Column<Cell>>)
    ensures r == SmoothTable(t)
  {
    r := t;
    var i := 0;
    while i < |t|
      invariant 0 <= i <= |t| && |r| == |t|
      invariant forall k :: 0 <= k < i ==> r[k] == SmoothTable(t)[k]
      invariant forall k :: i <= k < |t| ==> r[k] == t[k]
    {
      r := r[i := Column(r[i].name, Smoothed(r[i].cells))];
      i := i + 1;
    }
  }

  // --- Savitzky-Golay filter and the whole refinement ------------------------------

  /** `savgol_filter`: the library filter, given as a function on one column, applied column by
      column. */
  function SavgolTable(savgol: seq<Cell> -> seq<Cell>, t: seq<Column<Cell>>): (r: seq<Column<Cell>>)
    ensures |r| == |t| && Names(r) == Names(t)
    ensures forall k :: 0 <= k < |t| ==> r[k].cells == savgol(t[k].cells)
  {
    seq(|t|, k requires 0 <= k < |t| => Column(t[k].name, savgol(t[k].cells)))
  }

  /** `refine_data`: cutoff at P_CUTOFF, drop CCOLS, median filter, Savitzky-Golay filter. */
  method RefineData(t: seq<Column<Cell>>, n: nat, savgol: seq<Cell> -> seq<Cell>) returns (r: seq<Column<Cell>>)
    requires Rectangular(t, n) && |t| % 3 == 0
    requires forall c :: c in Config.CCOLS ==> c in Names(t)
    ensures r == SavgolTable(savgol, SmoothTable(Drop(CutoffTable(t, Config.P_CUTOFF, n), Config.CCOLS)))
  {
    var c := Cutoff(t, Config.P_CUTOFF, n);
    var d := Drop(c, Config.CCOLS);
    var m := MedianFilter(d);
    r := SavgolTable(savgol, m);
  }

  /** On a table with the HEADERS layout, refinement leaves exactly the x and y columns, named and
      ordered as XYHEADERS, every one still one cell per frame when the filter keeps lengths; each
      x/y column is the smoothed, then filtered, cutoff of the matching input column. */
  lemma RefineLayout(t: seq<Column<Cell>>, n: nat, savgol: seq<Cell> -> seq<Cell>)
    requires Rectangular(t, n) && Names(t) == Config.HEADERS
    requires forall c: seq<Cell> :: |savgol(c)| == |c|
    ensures |t| == 42
    ensures var r := SavgolTable(savgol, SmoothTable(Drop(CutoffTable(t, Config.P_CUTOFF, n), Config.CCOLS)));
      Names(r) == XYHEADERS && Rectangular(r, n) &&
      forall k :: 0 <= k < 14 ==>
        r[2 * k].cells == savgol(Smoothed(CutoffTable(t, Config.P_CUTOFF, n)[3 * k].cells)) &&
        r[2 * k + 1].cells == savgol(Smoothed(CutoffTable(t, Config.P_CUTOFF, n)[3 * k + 1].cells))
  {
    Config.HeadersCount();
    CutoffShape(t, Config.P_CUTOFF, n);
    FilterLayout(CutoffTable(t, Config.P_CUTOFF, n), n, savgol);
  }

  lemma FilterLayout(c: seq<Column<Cell>>, n: nat, savgol: seq<Cell> -> seq<Cell>)
    requires Rectangular(c, n) && Names(c) == Config.HEADERS
    requires forall c: seq<Cell> :: |savgol(c)| == |c|
    ensures |c| == 42
    ensures var r := SavgolTable(savgol, SmoothTable(Drop(c, Config.CCOLS)));
      Names(r) == XYHEADERS && Rectangular(r, n) &&
      forall k :: 0 <= k < 14 ==>
        r[2 * k].cells == savgol(Smoothed(c[3 * k].cells)) &&
        r[2 * k + 1].cells == savgol(Smoothed(c[3 * k + 1].cells))
  {
    DropConfidence(c);
    FilterXY(c, n, savgol);
  }

  /** Smoothing and filtering the x and y columns of a table of triples. */
  lemma FilterXY(c: seq<Column<Cell>>, n: nat, savgol: seq<Cell> -> seq<Cell>)
    requires Rectangular(c, n) && |c| % 3 == 0
    requires forall c: seq<Cell> :: |savgol(c)| == |c|
    ensures var r := SavgolTable(savgol, SmoothTable(XYColumns(c)));
      Names(r) == Names(XYColumns(c)) && Rectangular(r, n) &&
      forall k :: 0 <= k < |c| / 3 ==>
        r[2 * k].cells == savgol(Smoothed(c[3 * k].cells)) &&
        r[2 * k + 1].cells == savgol(Smoothed(c[3 * k + 1].cells))
  {
    XYColumnsRectangular(c, n);
    XYColumnsAt(c);
    FilterColumns(XYColumns(c), n, savgol);
  }

  /** Smoothing and filtering keep the names, and the cell count when the filter keeps lengths. */
  lemma FilterColumns(d: seq<Column<Cell>>, n: nat, savgol: seq<Cell> -> seq<Cell>)
    requires Rectangular(d, n)
    requires forall c: seq<Cell> :: |savgol(c)| == |c|
    ensures var r := SavgolTable(savgol, SmoothTable(d));
      Names(r) == Names(d) && Rectangular(r, n) &&
      forall k :: 0 <= k < |d| ==> r[k].cells == savgol(Smoothed(d[k].cells))
  {
  }

  lemma {:induction false} XYColumnsRectangular<T>(t: seq<Column<T>>, n: nat)
    requires |t| % 3 == 0 && Rectangular(t, n)
    ensures Rectangular(XYColumns(t), n)
  {
    if t != [] {
      XYColumnsRectangular(t[3..], n);
      assert XYColumns(t)[2..] == XYColumns(t[3..]);
      forall i | 2 <= i < |XYColumns(t)| ensures |XYColumns(t)[i].cells| == n {
        assert XYColumns(t)[i] == XYColumns(t[3..])[i - 2];
      }
    }
  }

  lemma {:induction false} XYColumnsAt<T>(t: seq<Column<T>>)
    requires |t| % 3 == 0
    ensures forall k :: 0 <= k < |t| / 3 ==> XYColumns(t)[2 * k] == t[3 * k] && XYColumns(t)[2 * k + 1] == t[3 * k + 1]
  {
    if t != [] {
      XYColumnsAt(t[3..]);
      forall k | 1 <= k < |t| / 3
        ensures XYColumns(t)[2 * k] == t[3 * k] && XYColumns(t)[2 * k + 1] == t[3 * k + 1]
      {
        assert XYColumns(t)[2 * k] == XYColumns(t[3..])[2 * (k - 1)];
        assert XYColumns(t)[2 * k + 1] == XYColumns(t[3..])[2 * (k - 1) + 1];
        assert t[3..][3 * (k - 1)] == t[3 * k] && t[3..][3 * (k - 1) + 1] == t[3 * k + 1];
      }
    }
  }
}
