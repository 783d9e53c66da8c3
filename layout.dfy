/** How a DeepLabCut pose table is laid out: 42 columns `p_x`, `p_y`, `p_cfd` per point, in the
    order of HEADERS; and what is left of it once the confidence columns are dropped. */
module Layout {
  import opened Tables
  import opened Config
  import Strings

  /** The x/y names of the points, interleaved: `p_x`, `p_y` for each point. */
  function XYHeadersOf(ps: seq<string>): (r: seq<string>)
    ensures |r| == 2 * |ps|
    ensures forall k :: 0 <= k < |ps| ==> r[2 * k] == ps[k] + "_x" && r[2 * k + 1] == ps[k] + "_y"
  {
    if ps == [] then [] else
      var rest := XYHeadersOf(ps[1..]);
      var r := [ps[0] + "_x", ps[0] + "_y"] + rest;
      assert forall k :: 1 <= k < |ps| ==> r[2 * k] == rest[2 * (k - 1)] && r[2 * k + 1] == rest[2 * (k - 1) + 1];
      r
  }

  /** HEADERS without the confidence columns. */
  const XYHEADERS: seq<string> := XYHeadersOf(POINTS)

  lemma XYHeadersLayout()
    ensures |XYHEADERS| == 28 && |XCOLS| == 14 && |YCOLS| == 14
    ensures forall k :: 0 <= k < 14 ==> XYHEADERS[2 * k] == XCOLS[k] && XYHEADERS[2 * k + 1] == YCOLS[k]
  {
    ColumnLists();
    HeadersLayout();
  }

  /** The first two columns of every triple. */
  function XYColumns<T>(t: seq<Column<T>>): (r: seq<Column<T>>)
    requires |t| % 3 == 0
    ensures |r| == 2 * (|t| / 3)
  {
    if t == [] then [] else [t[0], t[1]] + XYColumns(t[3..])
  }

  lemma NamesSuffix<T>(t: seq<Column<T>>, k: nat)
    requires k <= |t|
    ensures Names(t[k..]) == Names(t)[k..]
  {
  }

  lemma NamesConcat<T>(a: seq<Column<T>>, b: seq<Column<T>>)
    ensures Names(a + b) == Names(a) + Names(b)
  {
  }

  lemma DropTriple<T>(t: seq<Column<T>>, names: seq<string>)
    requires |t| >= 3 && t[0].name !in names && t[1].name !in names && t[2].name in names
    ensures Drop(t, names) == [t[0], t[1]] + Drop(t[3..], names)
  {
    var u, v, d := t[1..], t[2..], Drop(t[3..], names);
    assert u[0] == t[1] && u[1..] == v && v[0] == t[2] && v[1..] == t[3..];
    DropKeep(t, names);
    DropKeep(u, names);
    DropSkip(v, names);
    assert [t[0]] + ([t[1]] + d) == [t[0], t[1]] + d;
  }

  lemma DropKeep<T>(t: seq<Column<T>>, names: seq<string>)
    requires t != [] && t[0].name !in names
    ensures Drop(t, names) == [t[0]] + Drop(t[1..], names)
  {
  }

  lemma DropSkip<T>(t: seq<Column<T>>, names: seq<string>)
    requires t != [] && t[0].name in names
    ensures Drop(t, names) == Drop(t[1..], names)
  {
  }

  /** Dropping, from a table laid out as HeadersOf(ps), names that hit exactly the confidence column
      of every point keeps each point's x and y column, in order. */
  lemma {:induction false} DropHeaders<T>(t: seq<Column<T>>, ps: seq<string>, names: seq<string>)
    requires Names(t) == HeadersOf(ps)
    requires forall p :: p in ps ==> p + "_x" !in names && p + "_y" !in names && p + "_cfd" in names
    ensures |t| == 3 * |ps| && Drop(t, names) == XYColumns(t) && Names(Drop(t, names)) == XYHeadersOf(ps)
  {
    if ps == [] {
      assert |Names(t)| == 0;
    } else {
      var p := ps[0];
      assert Names(t)[0] == p + "_x" && Names(t)[1] == p + "_y" && Names(t)[2] == p + "_cfd";
      NamesSuffix(t, 3);
      assert Names(t)[3..] == HeadersOf(ps[1..]);
      DropHeaders(t[3..], ps[1..], names);
      DropTriple(t, names);
      assert Drop(t, names) == [t[0], t[1]] + XYColumns(t[3..]);
      NamesConcat([t[0], t[1]], XYColumns(t[3..]));
    }
  }

  /** No point's x or y name is a confidence name, and every confidence name is one. */
  lemma ConfidenceNames()
    ensures forall p :: p in POINTS ==> p + "_x" !in CCOLS && p + "_y" !in CCOLS && p + "_cfd" in CCOLS
  {
    ColumnLists();
    PointsUntagged();
    SelectMembers(HEADERS, "_cfd");
    forall p | p in POINTS
      ensures p + "_x" !in CCOLS && p + "_y" !in CCOLS && p + "_cfd" in CCOLS
    {
      var i :| 0 <= i < |POINTS| && POINTS[i] == p;
      assert CCOLS[i] == p + "_cfd";
      TagsOfHeader(p);
      assert !Strings.Contains(p + "_x", "_cfd") && !Strings.Contains(p + "_y", "_cfd");
    }
  }

  /** `data.drop(columns=CCOLS)` on a table with the HEADERS layout keeps the x and y columns in
      order, and their names are XYHEADERS. */
  lemma DropConfidence<T>(t: seq<Column<T>>)
    requires Names(t) == HEADERS
    ensures |t| == 42 && Drop(t, CCOLS) == XYColumns(t)
    ensures Names(Drop(t, CCOLS)) == XYHEADERS
  {
    HeadersLayout();
    ConfidenceNames();
    DropHeaders(t, POINTS, CCOLS);
  }

  /** In the x/y layout, column `2k` is point k's x column and `2k + 1` its y column; no x name is a
      y name. */
  lemma XYNames<T>(t: seq<Column<T>>)
    requires Names(t) == XYHEADERS
    ensures |t| == 28 && |XCOLS| == 14 && |YCOLS| == 14
    ensures forall k :: 0 <= k < 14 ==> t[2 * k].name == XCOLS[k] && t[2 * k + 1].name == YCOLS[k]
    ensures forall j :: 0 <= j < 28 ==> (t[j].name in XCOLS <==> j % 2 == 0) && (t[j].name in YCOLS <==> j % 2 == 1)
  {
    XYHeadersLayout();
    ColumnLists();
    ColumnListsPartition();
    HeadersLayout();
    forall j | 0 <= j < 28
      ensures (t[j].name in XCOLS <==> j % 2 == 0) && (t[j].name in YCOLS <==> j % 2 == 1)
    {
      var k := j / 2;
      assert XCOLS[k] == HEADERS[3 * k] && YCOLS[k] == HEADERS[3 * k + 1];
      if j % 2 == 0 { assert t[j].name == XCOLS[k]; } else { assert t[j].name == YCOLS[k]; }
    }
  }
}
