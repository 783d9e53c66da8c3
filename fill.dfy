/** The gap filler `fillna` of touchscreen_toolbox/postprocess/standardize.py (the same code as in
    touchscreen_toolbox/extract/postprocess.py), for one column whose index labels are its
    positions 0, 1, ...: the missing positions are split into runs of consecutive positions, every
    run with a present cell on both sides is interpolated in equal steps, and when some run touches
    either end the column is back-filled and then forward-filled. */
module Fill {
  import opened Wrappers
  import opened Tables

  // --- the missing positions ----------------------------------------------------

  predicate StrictlyIncreasing(s: seq<int>) {
    forall i, j :: 0 <= i < j < |s| ==> s[i] < s[j]
  }

  /** The positions from `k` on whose cell is missing, ascending. */
  function MissingFrom(c: seq<Cell>, k: nat): (r: seq<int>)
    requires k <= |c|
    ensures forall x :: x in r <==> k <= x < |c| && c[x].None?
    ensures StrictlyIncreasing(r)
    decreases |c| - k
  {
    if k == |c| then [] else
      var rest := MissingFrom(c, k + 1);
      var r := (if c[k].None? then [k] else []) + rest;
      assert forall j :: 0 <= j < |rest| ==> k < rest[j] by {
        forall j | 0 <= j < |rest| ensures k < rest[j] { assert rest[j] in rest; }
      }
      r
  }

  /** `col[col.isnull()].index`. */
  function MissingIndices(c: seq<Cell>): (r: seq<int>)
    ensures forall x :: x in r <==> 0 <= x < |c| && c[x].None?
    ensures StrictlyIncreasing(r)
  {
    MissingFrom(c, 0)
  }

  /** `idx.any()`: some label is non-zero (the label 0 counts as false). */
  predicate AnyNonzero(idx: seq<int>) {
    exists i :: 0 <= i < |idx| && idx[i] != 0
  }

  // --- runs of consecutive positions ------------------------------------------------

  function Last(g: seq<int>): int
    requires g != []
  {
    g[|g| - 1]
  }

  function Flatten(gs: seq<seq<int>>): seq<int> {
    if gs == [] then [] else Flatten(gs[..|gs| - 1]) + gs[|gs| - 1]
  }

  lemma FlattenSnoc(gs: seq<seq<int>>, g: seq<int>)
    ensures Flatten(gs + [g]) == Flatten(gs) + g
  {
    assert (gs + [g])[..|gs|] == gs;
  }

  /** `g` lists consecutive positions of `c`, all missing, with no missing cell just before or just
      after it: a run that cannot be extended. */
  predicate Run(c: seq<Cell>, g: seq<int>) {
    g != [] && 0 <= g[0] && Last(g) < |c| &&
    (forall j :: 0 <= j < |g| ==> g[j] == g[0] + j) &&
    (forall x :: g[0] <= x <= Last(g) ==> c[x].None?) &&
    (g[0] == 0 || c[g[0] - 1].Some?) &&
    (Last(g) + 1 == |c| || c[Last(g) + 1].Some?)
  }

  /** Every position strictly between `lo` and `hi` holds a present cell, and there is one. */
  predicate Gap(c: seq<Cell>, lo: int, hi: int) {
    0 <= lo && lo + 1 < hi <= |c| && forall x :: lo < x < hi ==> c[x].Some?
  }

  /** `groups` splits the missing positions `idx` of `c`, in order, into runs that cannot be
      extended, with present cells before the first run, between runs and after the last. */
  predicate Runs(c: seq<Cell>, idx: seq<int>, groups: seq<seq<int>>) {
    groups != [] &&
    (forall a :: 0 <= a < |groups| ==> Run(c, groups[a])) &&
    (forall a :: 0 < a < |groups| ==> Gap(c, Last(groups[a - 1]), groups[a][0])) &&
    (forall x :: 0 <= x < groups[0][0] ==> c[x].Some?) &&
    (forall x :: Last(groups[|groups| - 1]) < x < |c| ==> c[x].Some?) &&
    Flatten(groups) == idx
  }

  /** What the positions of the missing cells say about the cells around them. */
  lemma MissingLayout(c: seq<Cell>, idx: seq<int>)
    requires idx == MissingIndices(c) && idx != []
    ensures Layout(c, idx)
  {
    MissingMembers(c, idx);
    MissingBetween(c, idx);
    MissingEnds(c, idx);
  }

  lemma MissingMembers(c: seq<Cell>, idx: seq<int>)
    requires idx == MissingIndices(c)
    ensures forall q :: 0 <= q < |idx| ==> 0 <= idx[q] < |c| && c[idx[q]].None?
    ensures forall q :: 0 < q < |idx| ==> idx[q - 1] < idx[q]
  {
    forall q | 0 <= q < |idx| ensures 0 <= idx[q] < |c| && c[idx[q]].None? {
      assert idx[q] in idx;
    }
  }

  /** A position strictly between two consecutive entries of `idx` is not in it, so its cell is
      present. */
  lemma MissingBetween(c: seq<Cell>, idx: seq<int>)
    requires idx == MissingIndices(c)
    requires forall q :: 0 <= q < |idx| ==> 0 <= idx[q] < |c|
    ensures forall q, x :: 0 < q < |idx| && idx[q - 1] < x < idx[q] ==> c[x].Some?
  {
    forall q, x | 0 < q < |idx| && idx[q - 1] < x < idx[q] ensures c[x].Some? {
      assert idx[q - 1] in idx && idx[q] in idx;
      assert forall k :: 0 <= k < q ==> idx[k] <= idx[q - 1];
      assert forall k :: q <= k < |idx| ==> idx[q] <= idx[k];
      assert x !in idx;
    }
  }

  lemma MissingEnds(c: seq<Cell>, idx: seq<int>)
    requires idx == MissingIndices(c) && idx != []
    requires forall q :: 0 <= q < |idx| ==> 0 <= idx[q] < |c|
    ensures forall x :: 0 <= x < idx[0] ==> c[x].Some?
    ensures forall x :: Last(idx) < x < |c| ==> c[x].Some?
  {
    assert idx[0] in idx && Last(idx) in idx;
    assert forall k :: 0 <= k < |idx| ==> idx[0] <= idx[k] <= Last(idx);
    forall x | 0 <= x < idx[0] ensures c[x].Some? {
      assert x !in idx;
    }
    forall x | Last(idx) < x < |c| ensures c[x].Some? {
      assert x !in idx;
    }
  }

  /** The facts of MissingLayout, as the grouping loop uses them. */
  ghost predicate Layout(c: seq<Cell>, idx: seq<int>) {
    idx != [] &&
    (forall q :: 0 <= q < |idx| ==> 0 <= idx[q] < |c| && c[idx[q]].None?) &&
    (forall q :: 0 < q < |idx| ==> idx[q - 1] < idx[q]) &&
    (forall q, x :: 0 < q < |idx| && idx[q - 1] < x < idx[q] ==> c[x].Some?) &&
    (forall x :: 0 <= x < idx[0] ==> c[x].Some?) &&
    (forall x :: Last(idx) < x < |c| ==> c[x].Some?)
  }

  /** The state of the grouping loop once the first `p` positions are consumed: `groups` are closed
      runs and `temp` is the open one, which ends at position `p - 1` of `idx`. */
  ghost predicate Grouping(c: seq<Cell>, idx: seq<int>, p: nat, groups: seq<seq<int>>, temp: seq<int>) {
    Layout(c, idx) && 1 <= p <= |idx| &&
    temp != [] && Last(temp) == idx[p - 1] && 0 <= temp[0] &&
    (forall j :: 0 <= j < |temp| ==> temp[j] == temp[0] + j) &&
    (forall x :: temp[0] <= x <= Last(temp) ==> c[x].None?) &&
    (temp[0] == 0 || c[temp[0] - 1].Some?) &&
    (forall a :: 0 <= a < |groups| ==> Run(c, groups[a])) &&
    (forall a :: 0 < a < |groups| ==> Gap(c, Last(groups[a - 1]), groups[a][0])) &&
    (groups != [] ==> Gap(c, Last(groups[|groups| - 1]), temp[0])) &&
    (forall x :: 0 <= x < (if groups == [] then temp[0] else groups[0][0]) ==> c[x].Some?) &&
    Flatten(groups) + temp == idx[..p]
  }

  lemma StartMissing(c: seq<Cell>, idx: seq<int>)
    requires idx == MissingIndices(c) && idx != []
    ensures Grouping(c, idx, 1, [], [idx[0]])
  {
    MissingLayout(c, idx);
    StartGroups(c, idx);
  }

  lemma StartGroups(c: seq<Cell>, idx: seq<int>)
    requires Layout(c, idx)
    ensures Grouping(c, idx, 1, [], [idx[0]])
  {
    assert idx[..1] == [idx[0]];
    if idx[0] > 0 { assert c[idx[0] - 1].Some?; }
  }

  lemma ExtendStep(c: seq<Cell>, idx: seq<int>, p: nat, groups: seq<seq<int>>, temp: seq<int>)
    requires Grouping(c, idx, p, groups, temp) && p < |idx| && idx[p] - Last(temp) == 1
    ensures Grouping(c, idx, p + 1, groups, temp + [idx[p]])
  {
    assert idx[..p + 1] == idx[..p] + [idx[p]];
    assert c[idx[p]].None?;
  }

  lemma CloseStep(c: seq<Cell>, idx: seq<int>, p: nat, groups: seq<seq<int>>, temp: seq<int>)
    requires Grouping(c, idx, p, groups, temp) && p < |idx| && idx[p] - Last(temp) != 1
    ensures Grouping(c, idx, p + 1, groups + [temp], [idx[p]])
  {
    var i := idx[p];
    var g := groups + [temp];
    ClosedRun(c, idx, p, groups, temp);
    ClosedGroups(c, groups, temp);
    assert [i][0] == i && Last([i]) == i;
    assert g[|g| - 1] == temp && Gap(c, Last(g[|g| - 1]), [i][0]);
    assert g[0][0] == if groups == [] then temp[0] else groups[0][0];
    ClosedFlatten(idx, p, groups, temp);
  }

  /** Closing the open run and opening a new one at `idx[p]` still lists `idx[..p + 1]`. */
  lemma ClosedFlatten(idx: seq<int>, p: nat, groups: seq<seq<int>>, temp: seq<int>)
    requires p < |idx| && Flatten(groups) + temp == idx[..p]
    ensures Flatten(groups + [temp]) + [idx[p]] == idx[..p + 1]
  {
    FlattenSnoc(groups, temp);
    assert idx[..p + 1] == idx[..p] + [idx[p]];
  }

  /** The open run, once the next missing position is not adjacent, cannot be extended, and
      present cells separate it from that position. */
  lemma ClosedRun(c: seq<Cell>, idx: seq<int>, p: nat, groups: seq<seq<int>>, temp: seq<int>)
    requires Grouping(c, idx, p, groups, temp) && p < |idx| && idx[p] - Last(temp) != 1
    ensures Run(c, temp) && Gap(c, Last(temp), idx[p]) && c[idx[p]].None? && c[idx[p] - 1].Some?
  {
    var i := idx[p];
    assert idx[p - 1] < i;
    assert forall x :: idx[p - 1] < x < i ==> c[x].Some?;
  }

  /** Closing a run that follows the last closed one keeps the closed runs in order. */
  lemma ClosedGroups(c: seq<Cell>, groups: seq<seq<int>>, temp: seq<int>)
    requires Run(c, temp)
    requires forall a :: 0 <= a < |groups| ==> groups[a] != [] && Run(c, groups[a])
    requires forall a :: 0 < a < |groups| ==> Gap(c, Last(groups[a - 1]), groups[a][0])
    requires groups != [] ==> Gap(c, Last(groups[|groups| - 1]), temp[0])
    ensures forall a :: 0 <= a < |groups + [temp]| ==> Run(c, (groups + [temp])[a])
    ensures forall a :: 0 < a < |groups + [temp]| ==> Gap(c, Last((groups + [temp])[a - 1]), (groups + [temp])[a][0])
  {
    var g := groups + [temp];
    forall a | 0 < a < |g| ensures Gap(c, Last(g[a - 1]), g[a][0]) {
      if a < |groups| {
        assert g[a - 1] == groups[a - 1] && g[a] == groups[a];
      }
    }
  }

  lemma FinishGroups(c: seq<Cell>, idx: seq<int>, groups: seq<seq<int>>, temp: seq<int>)
    requires Grouping(c, idx, |idx|, groups, temp)
    ensures Runs(c, idx, groups + [temp])
  {
    var g := groups + [temp];
    assert Last(temp) == Last(idx);
    assert Last(temp) + 1 == |c| || c[Last(temp) + 1].Some?;
    assert Run(c, temp);
    ClosedGroups(c, groups, temp);
    assert g[|g| - 1] == temp;
    assert g[0][0] == if groups == [] then temp[0] else groups[0][0];
    assert idx[..|idx|] == idx;
    FlattenSnoc(groups, temp);
  }

  /** The loop of `fillna` that collects `temp` into `groups`: a new group starts wherever a
      position is not one more than the previous one. */
  method GroupConsecutive(idx: seq<int>, ghost c: seq<Cell>) returns (groups: seq<seq<int>>)
    requires idx == MissingIndices(c) && idx != []
    ensures Runs(c, idx, groups)
  {
    StartMissing(c, idx);
    var temp := [idx[0]];
    groups := [];
    var p := 1;
    while p < |idx|
      invariant Grouping(c, idx, p, groups, temp)
    {
      groups, temp := GroupNext(idx, c, p, groups, temp);
      p := p + 1;
    }
    FinishGroups(c, idx, groups, temp);
    groups := groups + [temp];
  }

  /** One turn of that loop: position `idx[p]` extends the open group or starts a new one. */
  method GroupNext(idx: seq<int>, ghost c: seq<Cell>, p: nat, groups: seq<seq<int>>, temp: seq<int>)
    returns (groups': seq<seq<int>>, temp': seq<int>)
    requires Grouping(c, idx, p, groups, temp) && p < |idx|
    ensures Grouping(c, idx, p + 1, groups', temp')
  {
    var i := idx[p];
    if i - temp[|temp| - 1] == 1 {
      ExtendStep(c, idx, p, groups, temp);
      groups', temp' := groups, temp + [i];
    } else {
      CloseStep(c, idx, p, groups, temp);
      groups', temp' := groups + [temp], [i];
    }
  }

  // --- the specification: neighbours of a missing cell --------------------------------

  /** The position of the last present cell before `i`, or -1 when there is none. */
  function Before(c: seq<Cell>, i: nat): (r: int)
    requires i <= |c|
    ensures -1 <= r < i && (r >= 0 ==> c[r].Some?)
    ensures forall x :: r < x < i ==> c[x].None?
  {
    if i == 0 then -1 else if c[i - 1].Some? then i - 1 else Before(c, i - 1)
  }

  /** The position of the first present cell after `i`, or |c| when there is none. */
  function After(c: seq<Cell>, i: nat): (r: int)
    requires i < |c|
    ensures i < r <= |c| && (r < |c| ==> c[r].Some?)
    ensures forall x :: i < x < r ==> c[x].None?
    decreases |c| - i
  {
    if i + 1 == |c| then |c| else if c[i + 1].Some? then i + 1 else After(c, i + 1)
  }

  lemma {:induction false} BeforeRun(c: seq<Cell>, s: nat, i: nat)
    requires s <= i < |c| && (s == 0 || c[s - 1].Some?)
    requires forall x :: s <= x < i ==> c[x].None?
    ensures Before(c, i) == s - 1
    decreases i - s
  {
    if i > s {
      BeforeRun(c, s, i - 1);
    }
  }

  lemma {:induction false} AfterRun(c: seq<Cell>, i: nat, e: nat)
    requires i < e <= |c| && (e == |c| || c[e].Some?)
    requires forall x :: i < x < e ==> c[x].None?
    ensures After(c, i) == e
    decreases e - i
  {
    if i + 1 < e {
      AfterRun(c, i + 1, e);
    }
  }

  /** The `j`-th of `k` equal steps from `a` to `b`: `pre += step` done `j` times, with
      `step = (b - a) / k`. */
  function Step(a: real, b: real, k: nat, j: nat): (r: real)
    requires k > 0
    ensures j == 0 ==> r == a
    ensures j == k ==> r == b
  {
    assert (k as real) * ((b - a) / (k as real)) == b - a;
    a + (j as real) * ((b - a) / (k as real))
  }

  /** The last step lands on `b`, the next present value. */
  lemma StepLast(a: real, b: real, k: nat)
    requires k > 0
    ensures Step(a, b, k, k) == b
  {
    var d := (b - a) / (k as real);
    assert (k as real) * d == b - a;
  }

  /** The interpolation pass at one cell: a missing cell with a present value `a` at position `p`
      before it and `b` at position `e` after it gets step `i - p` of `e - p - 1` from `a` to `b`;
      every other cell is left as it is. */
  function Interpolated(c: seq<Cell>, i: nat): (r: Cell)
    requires i < |c|
    ensures c[i].Some? ==> r == c[i]
  {
    if c[i].Some? then c[i] else
      var p := Before(c, i);
      var e := After(c, i);
      if p < 0 || e == |c| then None
      else Some(Step(c[p].value, c[e].value, e - p - 1, i - p))
  }

  function InterpolatedAll(c: seq<Cell>): (r: seq<Cell>)
    ensures |r| == |c| && forall i :: 0 <= i < |c| ==> r[i] == Interpolated(c, i)
    ensures forall i :: 0 <= i < |c| && c[i].Some? ==> r[i] == c[i]
  {
    seq(|c|, i requires 0 <= i < |c| => Interpolated(c, i))
  }

  /** What `fillna` leaves in a column, as the code evidently intends: nothing changes when no cell
      is missing; otherwise the interior runs are interpolated and, when a run touches the first or
      the last position, the result is back-filled and then forward-filled. */
  function Filled(c: seq<Cell>): (r: seq<Cell>)
    ensures |r| == |c|
    ensures forall i :: 0 <= i < |c| && c[i].Some? ==> r[i] == c[i]
  {
    var idx := MissingIndices(c);
    if idx == [] then c
    else
      assert idx[0] in idx;
      var m := InterpolatedAll(c);
      if c[0].None? || c[|c| - 1].None? then FFill(BFill(m)) else m
  }

  /** What `fillna` leaves in a column as written: the guard `idx.any()` asks whether some missing
      label is non-zero, not whether a label is missing at all. */
  function FilledAsWritten(c: seq<Cell>): (r: seq<Cell>)
    ensures |r| == |c|
    ensures forall i :: 0 <= i < |c| && c[i].Some? ==> r[i] == c[i]
  {
    if AnyNonzero(MissingIndices(c)) then Filled(c) else c
  }

  /** As written, a column whose only gap is its first cell keeps that gap, although a present cell
      follows it that the back-fill would copy. */
  lemma FirstGapKept(c: seq<Cell>)
    requires |c| >= 2 && c[0].None? && forall i :: 1 <= i < |c| ==> c[i].Some?
    ensures FilledAsWritten(c) == c && FilledAsWritten(c)[0].None?
    ensures Filled(c)[0] == c[1]
  {
    var idx := MissingIndices(c);
    forall q | 0 <= q < |idx| ensures idx[q] == 0 {
      assert idx[q] in idx;
    }
    assert 0 in idx;
    var m := InterpolatedAll(c);
    assert m[1] == c[1];
    FirstPresentSkips(m, 1, 1);
  }

  /** The guard as written changes the outcome only for a column whose one gap is its first cell:
      in every other column it fills exactly as the intended guard does. */
  lemma FilledAsWrittenCases(c: seq<Cell>)
    ensures FilledAsWritten(c) == Filled(c) ||
      (|c| > 0 && c[0].None? && (forall i :: 1 <= i < |c| ==> c[i].Some?) && FilledAsWritten(c) == c)
  {
    var idx := MissingIndices(c);
    if !AnyNonzero(idx) && idx != [] {
      forall q | 0 <= q < |idx| ensures idx[q] == 0 {
        assert !(idx[q] != 0);
      }
      assert idx[0] in idx;
      forall i | 1 <= i < |c| ensures c[i].Some? {
        assert c[i].None? ==> i in idx;
      }
    }
  }

  /** As written, `fillna` closes every gap of a column with a present cell, except a lone gap in
      the first cell, which it keeps. */
  lemma FilledAsWrittenComplete(c: seq<Cell>, j: nat)
    requires j < |c| && c[j].Some?
    ensures (forall i :: 0 <= i < |c| ==> FilledAsWritten(c)[i].Some?) ||
      (c[0].None? && (forall i :: 1 <= i < |c| ==> c[i].Some?) && FilledAsWritten(c) == c)
  {
    FilledAsWrittenCases(c);
    FilledComplete(c, j);
  }

  /** With the intended guard every gap is closed as soon as the column has one present cell. */
  lemma FilledComplete(c: seq<Cell>, j: nat)
    requires j < |c| && c[j].Some?
    ensures forall i :: 0 <= i < |c| ==> Filled(c)[i].Some?
  {
    var idx := MissingIndices(c);
    if idx != [] {
      var m := InterpolatedAll(c);
      if c[0].None? || c[|c| - 1].None? {
        assert m[j] == c[j];
        FillsComplete(m, j);
      } else {
        forall i | 0 <= i < |c| ensures m[i].Some? {
          if c[i].None? {
            assert Interpolated(c, i) == m[i];
            assert c[0].Some? && c[|c| - 1].Some? && 0 < i < |c| - 1;
            assert Before(c, i) >= 0 && After(c, i) < |c|;
          }
        }
      }
    }
  }

  /** A run that starts the column takes the first present value after it: the back-fill reaches
      it, and as written only when some missing label is non-zero. */
  lemma FilledLeadingRun(c: seq<Cell>, i: nat)
    requires i < |c| && c[i].None? && Before(c, i) < 0 && After(c, i) < |c|
    ensures Filled(c)[i] == c[After(c, i)]
    ensures FilledAsWritten(c)[i] == if AnyNonzero(MissingIndices(c)) then c[After(c, i)] else None
  {
    var e := After(c, i);
    assert i in MissingIndices(c);
    assert forall x :: 0 <= x < e ==> c[x].None?;
    FilledEndsForm(c);
    var m := InterpolatedAll(c);
    LeadingUnfilled(c, e);
    BackFillReaches(m, i, e);
  }

  /** A run that ends the column takes the last present value before it: the back-fill finds
      nothing after it and the forward fill carries that value on. The guard as written does not
      matter here, since the run's labels are not 0. */
  lemma FilledTrailingRun(c: seq<Cell>, i: nat)
    requires i < |c| && c[i].None? && Before(c, i) >= 0 && After(c, i) == |c|
    ensures Filled(c)[i] == c[Before(c, i)]
    ensures FilledAsWritten(c)[i] == c[Before(c, i)]
  {
    var p := Before(c, i);
    assert forall x :: p < x < |c| ==> c[x].None?;
    FilledEndsForm(c);
    var m := InterpolatedAll(c);
    TrailingUnfilled(c, p);
    ForwardFillReaches(m, p, i);
    NonzeroMissing(c, i);
  }

  /** A missing cell past the first makes `idx.any()` true. */
  lemma NonzeroMissing(c: seq<Cell>, i: nat)
    requires 0 < i < |c| && c[i].None?
    ensures AnyNonzero(MissingIndices(c))
  {
    var idx := MissingIndices(c);
    assert i in idx;
    var q :| 0 <= q < |idx| && idx[q] == i;
  }

  /** When a gap touches an end of the column, `fillna` is the back-fill and then the forward fill
      of the interpolation pass. */
  lemma FilledEndsForm(c: seq<Cell>)
    requires |c| > 0 && (c[0].None? || c[|c| - 1].None?)
    ensures Filled(c) == FFill(BFill(InterpolatedAll(c)))
  {
    if c[0].None? {
      assert 0 in MissingIndices(c);
    } else {
      assert |c| - 1 in MissingIndices(c);
    }
  }

  /** Before the first present cell the interpolation pass fills nothing. */
  lemma LeadingUnfilled(c: seq<Cell>, e: nat)
    requires e <= |c| && forall x :: 0 <= x < e ==> c[x].None?
    ensures forall x :: 0 <= x < e ==> InterpolatedAll(c)[x].None?
  {
    forall x | 0 <= x < e ensures InterpolatedAll(c)[x].None? {
      BeforeRun(c, 0, x);
      assert InterpolatedAll(c)[x] == Interpolated(c, x);
    }
  }

  /** After the last present cell the interpolation pass fills nothing. */
  lemma TrailingUnfilled(c: seq<Cell>, p: nat)
    requires p < |c| && forall x :: p < x < |c| ==> c[x].None?
    ensures forall x :: p < x < |c| ==> InterpolatedAll(c)[x].None?
  {
    forall x | p < x < |c| ensures InterpolatedAll(c)[x].None? {
      if x + 1 < |c| {
        AfterRun(c, x, |c|);
      }
      assert InterpolatedAll(c)[x] == Interpolated(c, x);
    }
  }

  /** Back-fill then forward fill gives a leading gap the first present value after it. */
  lemma BackFillReaches(m: seq<Cell>, i: nat, e: nat)
    requires i < e < |m| && m[e].Some? && forall x :: i <= x < e ==> m[x].None?
    ensures FFill(BFill(m))[i] == m[e]
  {
    FirstPresentSkips(m, i + 1, e);
    assert BFill(m)[i] == m[e];
  }

  /** Back-fill then forward fill gives a trailing gap the last present value before it. */
  lemma ForwardFillReaches(m: seq<Cell>, p: nat, i: nat)
    requires p < i < |m| && m[p].Some? && forall x :: p < x < |m| ==> m[x].None?
    ensures FFill(BFill(m))[i] == m[p]
  {
    var b := BFill(m);
    forall x | p < x < |m| ensures b[x].None? {
      assert FirstPresent(m, x + 1).None?;
    }
    FFillLatest(b, i, p);
  }

  // --- the loops of `fillna` --------------------------------------------------------

  /** `col` agrees with the interpolation pass below position `bound` and with `c` from there on. */
  ghost predicate FilledBelow(c: seq<Cell>, col: seq<Cell>, bound: int) {
    |col| == |c| && forall i :: 0 <= i < |c| ==> col[i] == if i < bound then Interpolated(c, i) else c[i]
  }

  lemma RaiseOverPresent(c: seq<Cell>, col: seq<Cell>, lo: int, hi: int)
    requires lo <= hi && FilledBelow(c, col, lo)
    requires forall x :: lo <= x < hi && 0 <= x < |c| ==> c[x].Some?
    ensures FilledBelow(c, col, hi)
  {
  }

  /** Inside a run, the neighbours of every cell are the run's neighbours. */
  lemma RunNeighbours(c: seq<Cell>, g: seq<int>, i: nat)
    requires Run(c, g) && g[0] <= i <= Last(g)
    ensures Last(g) == g[0] + |g| - 1
    ensures c[i].None? && Before(c, i) == g[0] - 1 && After(c, i) == Last(g) + 1
  {
    BeforeRun(c, g[0], i);
    AfterRun(c, i, Last(g) + 1);
  }

  /** Cell `j` of an interior run gets step `j + 1` of `|g|` between the run's neighbours. */
  lemma InteriorCell(c: seq<Cell>, g: seq<int>, j: nat)
    requires Run(c, g) && g[0] > 0 && Last(g) + 1 < |c| && j < |g|
    ensures c[g[0] - 1].Some? && c[Last(g) + 1].Some?
    ensures Interpolated(c, g[0] + j) == Some(Step(c[g[0] - 1].value, c[Last(g) + 1].value, |g|, j + 1))
  {
    RunNeighbours(c, g, g[0] + j);
  }

  lemma FilledBelowWrite(c: seq<Cell>, col: seq<Cell>, bound: nat, v: Cell)
    requires FilledBelow(c, col, bound) && bound < |c| && Interpolated(c, bound) == v
    ensures FilledBelow(c, col[bound := v], bound + 1)
  {
  }

  lemma StepNext(a: real, b: real, k: nat, j: nat)
    requires k > 0
    ensures Step(a, b, k, j) + (b - a) / (k as real) == Step(a, b, k, j + 1)
  {
    var d := (b - a) / (k as real);
    assert (j as real) * d + d == ((j + 1) as real) * d;
  }

  /** The value the loop below writes at its turn `j`: cell `g[0] + j` receives step `j + 1`,
      which is what the interpolation pass gives that cell. */
  lemma InteriorValue(c: seq<Cell>, g: seq<int>, j: nat, v: real)
    requires Run(c, g) && g[0] > 0 && Last(g) + 1 < |c| && j < |g|
    requires v == Step(c[g[0] - 1].value, c[Last(g) + 1].value, |g|, j + 1)
    ensures g[j] == g[0] + j && g[0] + j < |c| && Interpolated(c, g[0] + j) == Some(v)
  {
    InteriorCell(c, g, j);
  }

  /** One turn of the loop below: the cell `g[j]` receives its interpolated value. */
  lemma FillGroupStep(c: seq<Cell>, r: seq<Cell>, g: seq<int>, j: nat, v: real)
    requires j < |g| && 0 <= g[0] && g[j] == g[0] + j && g[0] + j < |c|
    requires FilledBelow(c, r, g[0] + j) && Interpolated(c, g[0] + j) == Some(v)
    ensures FilledBelow(c, r[g[j] := Some(v)], g[0] + j + 1)
  {
    FilledBelowWrite(c, r, g[0] + j, Some(v));
  }

  /** `for i in group: pre += step; col[i] = pre` over an interior group. */
  method FillGroup(c: seq<Cell>, col: seq<Cell>, g: seq<int>) returns (r: seq<Cell>)
    requires Run(c, g) && g[0] > 0 && Last(g) + 1 < |c|
    requires FilledBelow(c, col, g[0])
    ensures FilledBelow(c, r, Last(g) + 1)
  {
    InteriorCell(c, g, 0);
    assert col[g[0] - 1] == c[g[0] - 1] && col[Last(g) + 1] == c[Last(g) + 1];
    var a := col[g[0] - 1].value;
    var b := col[g[|g| - 1] + 1].value;
    var k := |g|;
    var step := (b - a) / (k as real);
    var pre := a;
    r := col;
    var j := 0;
    while j < k
      invariant 0 <= j <= k && FilledBelow(c, r, g[0] + j)
      invariant pre == Step(a, b, k, j)
    {
      StepNext(a, b, k, j);
      pre := pre + step;
      InteriorValue(c, g, j, pre);
      FillGroupStep(c, r, g, j, pre);
      r := r[g[j] := Some(pre)];
      j := j + 1;
    }
    RunNeighbours(c, g, g[0]);
  }

  /** A group at either end is left as it is, which is what the interpolation pass does there. */
  lemma BoundaryGroup(c: seq<Cell>, col: seq<Cell>, g: seq<int>)
    requires Run(c, g) && (g[0] == 0 || Last(g) + 1 == |c|)
    requires FilledBelow(c, col, g[0])
    ensures FilledBelow(c, col, Last(g) + 1)
  {
    forall i | g[0] <= i <= Last(g) ensures Interpolated(c, i) == c[i] {
      RunNeighbours(c, g, i);
    }
  }

  /** Some group touches the first or last position exactly when the first or the last cell is
      missing. */
  lemma Boundary(c: seq<Cell>, idx: seq<int>, groups: seq<seq<int>>)
    requires Runs(c, idx, groups)
    ensures (exists q :: 0 <= q < |groups| && (groups[q][0] == 0 || Last(groups[q]) + 1 == |c|))
      <==> c[0].None? || c[|c| - 1].None?
  {
    var z := |groups| - 1;
    assert Run(c, groups[0]) && Run(c, groups[z]);
    if c[0].None? {
      assert groups[0][0] == 0;
    }
    if c[|c| - 1].None? {
      assert Last(groups[z]) + 1 == |c|;
    }
  }

  /** The fills that finish `fillna` for one column, behind its guard `if idx.any():`. */
  method FillColumn(c: seq<Cell>) returns (r: seq<Cell>)
    ensures r == FilledAsWritten(c)
  {
    var col := c;
    var idx := MissingIndices(c);
    if AnyNonzero(idx) {
      var groups := GroupConsecutive(idx, c);
      var outOfBound;
      col, outOfBound := InterpolateGroups(c, idx, groups);
      Boundary(c, idx, groups);
      if outOfBound {
        col := BFill(col);
        col := FFill(col);
      }
    }
    r := col;
  }

  /** The loop over the groups: each interior group interpolated, and a flag raised when some
      group touches either end. */
  method InterpolateGroups(c: seq<Cell>, ghost idx: seq<int>, groups: seq<seq<int>>)
    returns (col: seq<Cell>, outOfBound: bool)
    requires Runs(c, idx, groups)
    ensures col == InterpolatedAll(c)
    ensures outOfBound <==> exists q :: 0 <= q < |groups| && (groups[q][0] == 0 || Last(groups[q]) + 1 == |c|)
  {
    col := c;
    outOfBound := false;
    var a := 0;
    ghost var bound := 0;
    while a < |groups|
      invariant 0 <= a <= |groups|
      invariant bound == if a == 0 then 0 else Last(groups[a - 1]) + 1
      invariant FilledBelow(c, col, bound)
      invariant outOfBound <==> exists q :: 0 <= q < a && (groups[q][0] == 0 || Last(groups[q]) + 1 == |c|)
    {
      var g := groups[a];
      NextGroup(c, idx, groups, a, col, bound);
      if g[0] - 1 < 0 || g[|g| - 1] + 1 >= |c| {
        outOfBound := true;
        BoundaryGroup(c, col, g);
      } else {
        col := FillGroup(c, col, g);
      }
      a := a + 1;
      bound := Last(g) + 1;
    }
    RaiseOverPresent(c, col, bound, |c|);
  }

  /** The cells between one group and the next are present, so nothing there changes. */
  lemma NextGroup(c: seq<Cell>, idx: seq<int>, groups: seq<seq<int>>, a: nat, col: seq<Cell>, bound: int)
    requires Runs(c, idx, groups) && a < |groups|
    requires bound == if a == 0 then 0 else Last(groups[a - 1]) + 1
    requires FilledBelow(c, col, bound)
    ensures Run(c, groups[a]) && FilledBelow(c, col, groups[a][0])
  {
    var g := groups[a];
    assert Run(c, g);
    assert forall x :: bound <= x < g[0] ==> c[x].Some? by {
      if a > 0 { assert Gap(c, Last(groups[a - 1]), g[0]); }
    }
    RaiseOverPresent(c, col, bound, g[0]);
  }
}
