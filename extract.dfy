/** The older, in-place refinement of touchscreen_toolbox/extract/postprocess.py: `cutoff` and
    `median_filter` overwrite the columns of the table they are given instead of returning a
    changed copy. Its `replace_w_median`, `set_origin`, `L_transformer`, `fillna` and `standardize`
    are line for line those of module Standardize, and its `statistics` is Statistics.GetStats. */
module Extract {
  import opened Wrappers
  import opened Tables
  import Refine
  import opened Standardize

  /** `cutoff(df, p_cutoff)`: in each triple (x, y, confidence) of columns, the x and y cells of
      every frame whose confidence is below `p` are blanked, in the table itself. */
  method Cutoff(f: PoseFrame, p: real, ghost n: nat)
    requires Rectangular(f.columns, n) && |f.columns| % 3 == 0
    modifies f
    ensures f.columns == Refine.CutoffTable(old(f.columns), p, n)
  {
    ghost var t := f.columns;
    var i := 0;
    ghost var j := 0;
    ghost var m := |t| / 3;
    assert |t| == 3 * m;
    assert t[..0] == [];
    while i < |f.columns|
      invariant 0 <= j <= m && i == 3 * j
      invariant Rectangular(t[..i], n) && |t[..i]| % 3 == 0
      invariant f.columns == Refine.CutoffTable(t[..i], p, n) + t[i..]
    {
      Refine.CutoffStep(t, i, p, n);
      assert f.columns[i] == t[i] && f.columns[i + 1] == t[i + 1] && f.columns[i + 2] == t[i + 2];
      var cfd := f.columns[i + 2].cells;
      f.columns := f.columns[i := Refine.Blanked(f.columns[i], cfd, p)][i + 1 := Refine.Blanked(f.columns[i + 1], cfd, p)];
      i := i + 3;
      j := j + 1;
    }
    assert t[..i] == t;
  }

  /** One column of this `median_filter`: `rolling(5, min_periods=1, center=True).median()` with
      nothing put back, so every cell, missing or not, becomes the median of the present cells of
      its window, and stays missing only when the window has none. */
  function Rolled(c: seq<Cell>): (r: seq<Cell>)
    ensures |r| == |c|
  {
    seq(|c|, i requires 0 <= i < |c| => Median(Present(Refine.Window(c, i))))
  }

  /** A cell of the rolled column is missing exactly when every cell within two frames of it is
      missing; so a gap with a present neighbour within two frames is closed. Where the input cell
      is present, the rolled cell is the one the copying filter of Refine computes. */
  lemma RolledCell(c: seq<Cell>, i: nat)
    requires i < |c|
    ensures Rolled(c)[i].None? <==> forall k :: 0 <= k < |c| && i - 2 <= k <= i + 2 ==> c[k].None?
    ensures c[i].Some? ==> Rolled(c)[i] == Refine.Smoothed(c)[i]
  {
    var w := Refine.Window(c, i);
    assert Rolled(c)[i] == Median(Present(w));
    WindowMissing(c, i);
  }

  /** The window around `i` has no present cell exactly when no cell within two frames of `i` is
      present. */
  lemma WindowMissing(c: seq<Cell>, i: nat)
    requires i < |c|
    ensures Present(Refine.Window(c, i)) == [] <==> forall k :: 0 <= k < |c| && i - 2 <= k <= i + 2 ==> c[k].None?
  {
    var lo := if i < 2 then 0 else i - 2;
    var hi := if i + 3 > |c| then |c| else i + 3;
    var w := Refine.Window(c, i);
    assert w == c[lo..hi];
    if exists k :: 0 <= k < |c| && i - 2 <= k <= i + 2 && c[k].Some? {
      var k :| 0 <= k < |c| && i - 2 <= k <= i + 2 && c[k].Some?;
      assert w[k - lo] == c[k];
      PresentMember(w, c[k].value);
    } else {
      forall a | 0 <= a < |w| ensures w[a].None? {
        assert w[a] == c[lo + a];
      }
      PresentNone(w);
    }
  }

  /** A gap-free column that holds one value throughout is unchanged. */
  lemma RolledConstant(c: seq<Cell>, v: real)
    requires forall i :: 0 <= i < |c| ==> c[i] == Some(v)
    ensures Rolled(c) == c
  {
    forall i | 0 <= i < |c| ensures Rolled(c)[i] == c[i] {
      Refine.WindowConstant(c, i, v);
    }
  }

  /** Every column of the table rolled, names and order kept. */
  function RolledTable(t: seq<Column<Cell>>): (r: seq<Column<Cell>>)
    ensures |r| == |t| && Names(r) == Names(t)
    ensures forall k :: 0 <= k < |t| ==> r[k].cells == Rolled(t[k].cells)
  {
    seq(|t|, k requires 0 <= k < |t| => Column(t[k].name, Rolled(t[k].cells)))
  }

  /** Rolling keeps the number of cells of every column. */
  lemma RolledRectangular(t: seq<Column<Cell>>, n: nat)
    requires Rectangular(t, n)
    ensures Rectangular(RolledTable(t), n)
  {
  }

  /** `median_filter(df)`: every column replaced by its rolled column, in the table itself. */
  method MedianFilter(f: PoseFrame)
    modifies f
    ensures f.columns == RolledTable(old(f.columns))
  {
    ghost var t := f.columns;
    var i := 0;
    while i < |f.columns|
      invariant 0 <= i <= |t| && |f.columns| == |t|
      invariant forall k :: 0 <= k < i ==> f.columns[k] == RolledTable(t)[k]
      invariant forall k :: i <= k < |t| ==> f.columns[k] == t[k]
    {
      f.columns := f.columns[i := Column(f.columns[i].name, Rolled(f.columns[i].cells))];
      i := i + 1;
    }
  }
}
