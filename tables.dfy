/** Named columns of per-frame cells, and the pandas column operations the pipeline leans on:
    lookup and dropping by name, forward and backward fill, and the median. */
module Tables {
  import opened Wrappers

  /** One DataFrame column: its label and its cells, one per frame. */
  datatype Column<T> = Column(name: string, cells: seq<T>)

  /** A keypoint cell: a coordinate or confidence value, or missing (NaN). */
  type Cell = Option<real>

  function Names<T>(t: seq<Column<T>>): (r: seq<string>)
    ensures |r| == |t| && forall i :: 0 <= i < |t| ==> r[i] == t[i].name
  {
    seq(|t|, i requires 0 <= i < |t| => t[i].name)
  }

  /** Every column has `n` cells. */
  predicate Rectangular<T>(t: seq<Column<T>>, n: nat) {
    forall i :: 0 <= i < |t| ==> |t[i].cells| == n
  }

  /** Position of the first occurrence of `x`. */
  function IndexOf<X(==)>(xs: seq<X>, x: X): (r: nat)
    requires x in xs
    ensures r < |xs| && xs[r] == x && forall j :: 0 <= j < r ==> xs[j] != x
  {
    if xs[0] == x then 0 else 1 + IndexOf(xs[1..], x)
  }

  /** `df[name]`: the cells of the column labelled `name` (the first one, should labels repeat). */
  function Get<T>(t: seq<Column<T>>, name: string): (r: seq<T>)
    requires name in Names(t)
    ensures exists i :: 0 <= i < |t| && t[i].name == name && r == t[i].cells
  {
    t[IndexOf(Names(t), name)].cells
  }

  /** When every column labelled `name` holds the same cells, `Get` returns those cells. */
  lemma GetUniform<T>(t: seq<Column<T>>, name: string, i: nat)
    requires i < |t| && t[i].name == name
    requires forall j :: 0 <= j < |t| && t[j].name == name ==> t[j].cells == t[i].cells
    ensures name in Names(t) && Get(t, name) == t[i].cells
  {
    assert Names(t)[i] == name;
  }

  /** `df.drop(columns=names)`: the columns whose label is not in `names`, in their order. pandas
      raises KeyError for a name that is not a column; every drop of the pipeline names columns
      the table has, so that error path is not modelled. */
  function Drop<T>(t: seq<Column<T>>, names: seq<string>): (r: seq<Column<T>>)
    ensures |r| <= |t|
  {
    if t == [] then [] else (if t[0].name in names then [] else [t[0]]) + Drop(t[1..], names)
  }

  /** Exactly the columns not named in `names` are kept. */
  lemma {:induction false} DropKeeps<T>(t: seq<Column<T>>, names: seq<string>)
    ensures forall i :: 0 <= i < |Drop(t, names)| ==> Drop(t, names)[i].name !in names
    ensures forall c :: c in t && c.name !in names ==> c in Drop(t, names)
  {
    if t != [] {
      DropKeeps(t[1..], names);
      forall c | c in t && c.name !in names ensures c in Drop(t, names) {
        if c != t[0] {
          assert c in t[1..];
        }
      }
    }
  }

  lemma {:induction false} DropConcat<T>(a: seq<Column<T>>, b: seq<Column<T>>, names: seq<string>)
    ensures Drop(a + b, names) == Drop(a, names) + Drop(b, names)
  {
    if a != [] {
      assert (a + b)[0] == a[0] && (a + b)[1..] == a[1..] + b;
      DropConcat(a[1..], b, names);
      var h := if a[0].name in names then [] else [a[0]];
      assert a + b != [];
      assert Drop(a + b, names) == h + Drop(a[1..] + b, names);
      assert Drop(a, names) == h + Drop(a[1..], names);
      assert h + (Drop(a[1..], names) + Drop(b, names)) == (h + Drop(a[1..], names)) + Drop(b, names);
    } else {
      assert a + b == b;
    }
  }

  // --- forward and backward fill ---------------------------------------------

  /** The last present value strictly before index `i`, if any. */
  function LastPresent<T>(s: seq<Option<T>>, i: nat): (r: Option<T>)
    requires i <= |s|
    ensures r.Some? <==> exists j :: 0 <= j < i && s[j].Some?
  {
    if i == 0 then None else if s[i - 1].Some? then s[i - 1] else LastPresent(s, i - 1)
  }

  /** The first present value at index `i` or later, if any. */
  function FirstPresent<T>(s: seq<Option<T>>, i: nat): (r: Option<T>)
    requires i <= |s|
    ensures r.Some? <==> exists j :: i <= j < |s| && s[j].Some?
    decreases |s| - i
  {
    if i == |s| then None else if s[i].Some? then s[i] else FirstPresent(s, i + 1)
  }

  /** `fillna(method='ffill')`: a missing cell takes the last present value before it. */
  function FFill<T>(s: seq<Option<T>>): (r: seq<Option<T>>)
    ensures |r| == |s|
    ensures forall i :: 0 <= i < |s| && s[i].Some? ==> r[i] == s[i]
  {
    seq(|s|, i requires 0 <= i < |s| => if s[i].Some? then s[i] else LastPresent(s, i))
  }

  /** `fillna(method='bfill')`: a missing cell takes the first present value after it. */
  function BFill<T>(s: seq<Option<T>>): (r: seq<Option<T>>)
    ensures |r| == |s|
    ensures forall i :: 0 <= i < |s| && s[i].Some? ==> r[i] == s[i]
  {
    seq(|s|, i requires 0 <= i < |s| => if s[i].Some? then s[i] else FirstPresent(s, i + 1))
  }

  /** Forward fill as a left-to-right scan: the first cell stays as it is, and a later missing
      cell takes the filled value of the cell before it. */
  lemma FFillStep<T>(s: seq<Option<T>>, i: nat)
    requires i < |s|
    ensures FFill(s)[i] == if s[i].Some? || i == 0 then s[i] else FFill(s)[i - 1]
  {
  }

  /** After a forward fill, index `i` holds the latest present value at or before `i`: the value at the
      largest such index `j`, and nothing when there is none. */
  lemma {:induction false} FFillLatest<T>(s: seq<Option<T>>, i: nat, j: nat)
    requires j <= i < |s| && s[j].Some?
    requires forall k :: j < k <= i ==> s[k].None?
    ensures FFill(s)[i] == s[j]
    decreases i - j
  {
    if i > j {
      LastPresentSkips(s, j, i);
    }
  }

  lemma {:induction false} LastPresentSkips<T>(s: seq<Option<T>>, j: nat, i: nat)
    requires j < i <= |s| && s[j].Some?
    requires forall k :: j < k < i ==> s[k].None?
    ensures LastPresent(s, i) == s[j]
    decreases i - j
  {
    if i - 1 > j {
      LastPresentSkips(s, j, i - 1);
    }
  }

  lemma {:induction false} FirstPresentSkips<T>(s: seq<Option<T>>, i: nat, j: nat)
    requires i <= j < |s| && s[j].Some?
    requires forall k :: i <= k < j ==> s[k].None?
    ensures FirstPresent(s, i) == s[j]
    decreases j - i
  {
    if i < j {
      FirstPresentSkips(s, i + 1, j);
    }
  }

  /** `bfill` then `ffill` leaves no gap in a column that has a present cell: a cell with nothing
      present after it takes the last value before it. */
  lemma FillsComplete<T>(s: seq<Option<T>>, j: nat)
    requires j < |s| && s[j].Some?
    ensures forall i :: 0 <= i < |s| ==> FFill(BFill(s))[i].Some?
  {
    var b := BFill(s);
    forall i | 0 <= i < |s| ensures FFill(b)[i].Some? {
      if b[i].None? {
        assert s[i].None? && FirstPresent(s, i + 1).None?;
        assert j < i;
        assert b[j].Some?;
      }
    }
  }

  /** Forward fill never invents a value before the first present cell. */
  lemma FFillLeading<T>(s: seq<Option<T>>, i: nat)
    requires i < |s| && forall k :: 0 <= k <= i ==> s[k].None?
    ensures FFill(s)[i].None?
  {
  }

  /** Appending to a list built as a prefix and a tail appends to the tail. */
  lemma AppendStep<T>(acc: seq<T>, front: seq<T>, b: seq<T>, r: seq<T>)
    requires r == acc + front
    ensures r + b == acc + (front + b)
  {
  }

  // --- sorting and the median ----------------------------------------------------

  predicate IsSorted(s: seq<real>) {
    forall i, j :: 0 <= i < j < |s| ==> s[i] <= s[j]
  }

  lemma SortedCons(h: real, t: seq<real>)
    requires IsSorted(t) && forall k :: 0 <= k < |t| ==> h <= t[k]
    ensures IsSorted([h] + t)
  {
    var u := [h] + t;
    forall i, j | 0 <= i < j < |u| ensures u[i] <= u[j] {
      if i > 0 {
        assert u[i] == t[i - 1] && u[j] == t[j - 1];
      } else {
        assert u[j] == t[j - 1];
      }
    }
  }

  function Insert(x: real, s: seq<real>): (r: seq<real>)
    requires IsSorted(s)
    ensures IsSorted(r) && multiset(r) == multiset(s) + multiset{x} && |r| == |s| + 1
  {
    if s == [] || x <= s[0] then
      InsertFront(x, s);
      [x] + s
    else
      assert s == [s[0]] + s[1..];
      var t := Insert(x, s[1..]);
      InsertBehind(x, s, t);
      assert multiset([s[0]] + t) == multiset([s[0]]) + multiset(t);
      [s[0]] + t
  }

  /** A value no larger than the head of a sorted list may go in front of it. */
  lemma InsertFront(x: real, s: seq<real>)
    requires IsSorted(s) && (s == [] || x <= s[0])
    ensures IsSorted([x] + s) && multiset([x] + s) == multiset(s) + multiset{x}
  {
    forall k | 0 <= k < |s| ensures x <= s[k] {
      if k > 0 { assert s[0] <= s[k]; }
    }
    SortedCons(x, s);
  }

  /** The head of a sorted list bounds every value of its tail with a larger value inserted. */
  lemma InsertBehind(x: real, s: seq<real>, t: seq<real>)
    requires IsSorted(s) && s != [] && s[0] < x
    requires IsSorted(t) && multiset(t) == multiset(s[1..]) + multiset{x}
    ensures IsSorted([s[0]] + t)
  {
    forall k | 0 <= k < |t| ensures s[0] <= t[k] {
      assert t[k] in multiset(t);
      if t[k] != x {
        assert t[k] in multiset(s[1..]);
        var j :| 0 <= j < |s[1..]| && s[1..][j] == t[k];
        assert s[0] <= s[j + 1];
      }
    }
    SortedCons(s[0], t);
  }

  /** The values in ascending order. */
  function Sort(s: seq<real>): (r: seq<real>)
    ensures IsSorted(r) && multiset(r) == multiset(s) && |r| == |s|
  {
    if s == [] then [] else
      assert s == [s[0]] + s[1..];
      Insert(s[0], Sort(s[1..]))
  }

  /** The present values of a run of cells, in order (what pandas' NaN-skipping reductions see). */
  function Present(s: seq<Cell>): (r: seq<real>)
    ensures |r| <= |s|
  {
    if s == [] then [] else (if s[0].Some? then [s[0].value] else []) + Present(s[1..])
  }

  lemma {:induction false} PresentMember(s: seq<Cell>, v: real)
    ensures v in Present(s) <==> Some(v) in s
  {
    if s != [] {
      PresentMember(s[1..], v);
      assert s == [s[0]] + s[1..];
    }
  }

  /** `Series.median()` over values: the middle value of the sorted values, or the mean of the two
      middle ones for an even count; missing for no values. */
  function Median(vals: seq<real>): (r: Option<real>)
    ensures r.None? <==> vals == []
  {
    if vals == [] then None else
      var s := Sort(vals);
      var n := |s|;
      Some(if n % 2 == 1 then s[n / 2] else (s[n / 2 - 1] + s[n / 2]) / 2.0)
  }

  /** The median lies between the smallest and the largest value, and is the value itself when all
      values are equal. */
  lemma MedianBounds(vals: seq<real>)
    requires vals != []
    ensures exists i :: 0 <= i < |vals| && vals[i] <= Median(vals).value
    ensures exists j :: 0 <= j < |vals| && Median(vals).value <= vals[j]
    ensures (forall i :: 0 <= i < |vals| ==> vals[i] == vals[0]) ==> Median(vals) == Some(vals[0])
  {
    var s := Sort(vals);
    var n := |s|;
    MedianWitnesses(vals, s, n, Median(vals).value);
  }

  lemma MedianWitnesses(vals: seq<real>, s: seq<real>, n: nat, m: real)
    requires vals != [] && IsSorted(s) && multiset(s) == multiset(vals) && n == |s| > 0
    requires m == if n % 2 == 1 then s[n / 2] else (s[n / 2 - 1] + s[n / 2]) / 2.0
    ensures exists i :: 0 <= i < |vals| && vals[i] <= m
    ensures exists j :: 0 <= j < |vals| && m <= vals[j]
    ensures (forall i :: 0 <= i < |vals| ==> vals[i] == vals[0]) ==> m == vals[0]
  {
    var i, j := SortedEnds(vals, s);
    MiddleBetween(s, n, m);
    assert vals[i] <= m && m <= vals[j];
  }

  /** The ends of the sorted values are values of the input. */
  lemma SortedEnds(vals: seq<real>, s: seq<real>) returns (i: nat, j: nat)
    requires s != [] && multiset(s) == multiset(vals)
    ensures i < |vals| && j < |vals| && vals[i] == s[0] && vals[j] == s[|s| - 1]
  {
    assert s[0] in multiset(vals) && s[|s| - 1] in multiset(vals);
    i :| 0 <= i < |vals| && vals[i] == s[0];
    j :| 0 <= j < |vals| && vals[j] == s[|s| - 1];
  }

  /** The middle value, or the mean of the two middle values, of a sorted list lies between its
      ends. */
  lemma MiddleBetween(s: seq<real>, n: nat, m: real)
    requires IsSorted(s) && n == |s| && n > 0
    requires m == if n % 2 == 1 then s[n / 2] else (s[n / 2 - 1] + s[n / 2]) / 2.0
    ensures s[0] <= m <= s[n - 1]
  {
    var h := n / 2;
    if n % 2 == 1 {
      assert s[0] <= s[h] <= s[n - 1];
    } else {
      assert s[0] <= s[h - 1] <= s[n - 1];
      assert s[0] <= s[h] <= s[n - 1];
    }
  }
}
