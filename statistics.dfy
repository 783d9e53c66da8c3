/** Quality statistics of a pose table (touchscreen_toolbox/postprocess/statistics.py; the
    `statistics` function of touchscreen_toolbox/extract/postprocess.py is the same code). For every
    confidence column: how many frames have no confidence (missing or zero), that count as a
    fraction of the frames, the longest run of such frames, and two quantiles. */
module Statistics {
  import opened Wrappers
  import opened Tables
  import opened Config
  import Arithmetic
  import VideoInfo

  /** One value of a statistics row. */
  datatype Entry =
    | Count(n: int)
    | Fraction(p: Option<real>)            // None is the NaN of 0 / 0 on an empty table
    | Quantile(q: real, cells: seq<real>)  // `str(round(col.quantile(q), 2))`, not computed
    | Text(s: string)

  /** `col.fillna(0) == 0`: the frames whose confidence is missing or zero. */
  function Zeros(c: seq<Cell>): (r: seq<bool>)
    ensures |r| == |c| && forall i :: 0 <= i < |c| ==> (r[i] <==> Filled(c)[i] == 0.0)
  {
    seq(|c|, i requires 0 <= i < |c| => c[i].None? || c[i].value == 0.0)
  }

  /** `col.fillna(0)`. */
  function Filled(c: seq<Cell>): seq<real> {
    seq(|c|, i requires 0 <= i < |c| => c[i].GetOr(0.0))
  }

  /** `zeros.sum()`. */
  function CountTrue(z: seq<bool>): (n: nat)
    ensures n <= |z|
  {
    if z == [] then 0 else CountTrue(z[..|z| - 1]) + (if z[|z| - 1] then 1 else 0)
  }

  /** Every entry of `z[a..b]` is true. */
  predicate AllTrue(z: seq<bool>, a: nat, b: nat)
    requires a <= b <= |z|
  {
    forall k :: a <= k < b ==> z[k]
  }

  /** The length of the run of trues that ends just before index `i`. */
  function RunBefore(z: seq<bool>, i: nat): (r: nat)
    requires i <= |z|
    ensures r <= i
  {
    if i == 0 || !z[i - 1] then 0 else 1 + RunBefore(z, i - 1)
  }

  /** The longest run of trues in `z[..i]`: the longest of the runs ending at each index. */
  function Longest(z: seq<bool>, i: nat): (r: nat)
    requires i <= |z|
    ensures r <= i
  {
    if i == 0 then 0
    else if Longest(z, i - 1) < RunBefore(z, i) then RunBefore(z, i)
    else Longest(z, i - 1)
  }

  /** `max(len(list(g)) for k, g in groupby(zeros) if k) if nums > 0 else 0`. */
  function Consecutive(z: seq<bool>): (r: nat)
    ensures r <= |z| && (CountTrue(z) == 0 ==> r == 0)
  {
    if CountTrue(z) > 0 then Longest(z, |z|) else 0
  }

  /** The run ending before `i` is all true, and as long as any all-true stretch ending there. */
  lemma {:induction false} RunBeforeMaximal(z: seq<bool>, i: nat, a: nat)
    requires a <= i <= |z|
    ensures AllTrue(z, i - RunBefore(z, i), i)
    ensures AllTrue(z, a, i) ==> i - a <= RunBefore(z, i)
  {
    if i > 0 && z[i - 1] {
      if a < i {
        RunBeforeMaximal(z, i - 1, a);
      } else {
        RunBeforeMaximal(z, i - 1, i - 1);
      }
    }
  }

  /** No all-true stretch of `z[..i]` is longer than Longest, and one is exactly that long. */
  lemma {:induction false} LongestMaximal(z: seq<bool>, i: nat) returns (a: nat)
    requires i <= |z|
    ensures a + Longest(z, i) <= i && AllTrue(z, a, a + Longest(z, i))
    ensures forall b: nat, e: nat :: b <= e <= i && AllTrue(z, b, e) ==> e - b <= Longest(z, i)
  {
    if i == 0 {
      a := 0;
    } else {
      var a' := LongestMaximal(z, i - 1);
      RunBeforeMaximal(z, i, i);
      if Longest(z, i - 1) < RunBefore(z, i) {
        a := i - RunBefore(z, i);
      } else {
        a := a';
      }
      forall b: nat, e: nat | b <= e <= i && AllTrue(z, b, e) ensures e - b <= Longest(z, i) {
        if e == i {
          RunBeforeMaximal(z, i, b);
        } else {
          assert AllTrue(z, b, e);
        }
      }
    }
  }

  /** An all-true stretch is counted in full. */
  lemma {:induction false} CountCovers(z: seq<bool>, a: nat, b: nat)
    requires a <= b <= |z| && AllTrue(z, a, b)
    ensures b - a <= CountTrue(z)
  {
    if z != [] {
      var n := |z| - 1;
      var p := z[..n];
      if b == |z| {
        if a < b {
          assert AllTrue(p, a, n) by {
            forall k | a <= k < n ensures p[k] {
              assert p[k] == z[k];
            }
          }
          CountCovers(p, a, n);
        }
      } else {
        assert AllTrue(p, a, b) by {
          forall k | a <= k < b ensures p[k] {
            assert p[k] == z[k];
          }
        }
        CountCovers(p, a, b);
      }
    }
  }

  /** A positive count has a true entry to show for it. */
  lemma {:induction false} CountWitness(z: seq<bool>) returns (k: nat)
    requires CountTrue(z) > 0
    ensures k < |z| && z[k]
  {
    var n := |z| - 1;
    if z[n] {
      k := n;
    } else {
      k := CountWitness(z[..n]);
    }
  }

  /** The longest run of missing-or-zero frames: at most their number, which is at most the number of
      frames; at least one exactly when there is any such frame; as long as every all-true stretch
      and attained by one. */
  lemma ConsecutiveBounds(z: seq<bool>)
    ensures Consecutive(z) <= CountTrue(z) <= |z|
    ensures Consecutive(z) >= 1 <==> CountTrue(z) >= 1
    ensures forall b: nat, e: nat :: b <= e <= |z| && AllTrue(z, b, e) ==> e - b <= Consecutive(z)
    ensures CountTrue(z) > 0 ==> exists a: nat, e: nat :: a <= e <= |z| && e - a == Consecutive(z) && AllTrue(z, a, e)
  {
    var a := LongestMaximal(z, |z|);
    if CountTrue(z) > 0 {
      CountCovers(z, a, a + Longest(z, |z|));
      var k := CountWitness(z);
      assert AllTrue(z, k, k + 1);
    } else {
      forall b: nat, e: nat | b <= e <= |z| && AllTrue(z, b, e) ensures e - b <= Consecutive(z) {
        CountCovers(z, b, e);
      }
    }
  }

  /** `round(x, 2)`: to the nearest hundredth, ties to the even one. */
  function Round2(x: real): (r: real)
    ensures -0.005 <= r - x <= 0.005
  {
    Arithmetic.RoundHalfEven(x * 100.0) as real / 100.0
  }

  /** A tie at the second decimal goes to the even digit: 0.125 to 0.12, 0.375 to 0.38. */
  lemma Round2Ties()
    ensures Round2(0.125) == 0.12 && Round2(0.375) == 0.38
  {
    assert 0.125 * 100.0 == 12.5 && (12.5).Floor == 12;
    assert 0.375 * 100.0 == 37.5 && (37.5).Floor == 37;
  }

  /** `round(nums / frames, 2)`; None is the NaN of an empty table. */
  function Percent(nums: nat, frames: nat): (r: Option<real>)
    ensures r.None? <==> frames == 0
    ensures r.Some? ==> -0.005 <= r.value - nums as real / frames as real <= 0.005
  {
    if frames == 0 then None else Some(Round2(nums as real / frames as real))
  }

  /** The fraction is a proportion: within [0, 1] and within half a hundredth of the exact ratio. */
  lemma PercentRange(nums: nat, frames: nat)
    requires nums <= frames
    ensures Percent(nums, frames).None? <==> frames == 0
    ensures frames > 0 ==> 0.0 <= Percent(nums, frames).value <= 1.0
    ensures frames > 0 ==> -0.005 <= Percent(nums, frames).value - nums as real / frames as real <= 0.005
  {
    if frames > 0 {
      var x := nums as real / frames as real;
      assert 0.0 <= x <= 1.0 by {
        assert x * frames as real == nums as real;
      }
      Arithmetic.RoundBounds(x * 100.0, 0, 100);
    }
  }

  /** The five entries `get_stats` appends for one confidence column of `frames` frames. */
  function ColumnStats(c: seq<Cell>, frames: nat): (r: seq<Entry>)
    ensures |r| == 5
  {
    var z := Zeros(c);
    [Count(CountTrue(z)), Fraction(Percent(CountTrue(z), frames)), Count(Consecutive(z)),
     Quantile(0.01, Filled(c)), Quantile(0.10, Filled(c))]
  }

  /** The counts of a column: zero count and longest run within the frames and ordered, the
      fraction a proportion of the frames. */
  lemma ColumnStatsBounds(c: seq<Cell>)
    ensures var r := ColumnStats(c, |c|);
      r[0].Count? && r[2].Count? && 0 <= r[2].n <= r[0].n <= |c| && (r[2].n >= 1 <==> r[0].n >= 1) &&
      r[1].Fraction? && (r[1].p.None? <==> c == []) && (c != [] ==> 0.0 <= r[1].p.value <= 1.0)
  {
    ConsecutiveBounds(Zeros(c));
    PercentRange(CountTrue(Zeros(c)), |c|);
  }

  /** The entries for the columns `cols`, in order. */
  function StatsOf(t: seq<Column<Cell>>, frames: nat, cols: seq<string>): (r: seq<Entry>)
    requires forall k :: 0 <= k < |cols| ==> cols[k] in Names(t)
    ensures |r| == 5 * |cols|
  {
    if cols == [] then []
    else StatsOf(t, frames, cols[..|cols| - 1]) + ColumnStats(Get(t, cols[|cols| - 1]), frames)
  }

  /** Entries `5k .. 5k + 5` are those of column `k`. */
  lemma {:induction false} StatsOfAt(t: seq<Column<Cell>>, frames: nat, cols: seq<string>, k: nat)
    requires forall j :: 0 <= j < |cols| ==> cols[j] in Names(t)
    requires k < |cols|
    ensures StatsOf(t, frames, cols)[5 * k..5 * k + 5] == ColumnStats(Get(t, cols[k]), frames)
  {
    var n := |cols| - 1;
    var p := cols[..n];
    var front, b := StatsOf(t, frames, p), ColumnStats(Get(t, cols[n]), frames);
    assert StatsOf(t, frames, cols) == front + b;
    if k < n {
      assert p[k] == cols[k];
      StatsOfAt(t, frames, p, k);
      SliceFront(front, b, 5 * k, 5 * k + 5);
      assert front[5 * k..5 * k + 5] == ColumnStats(Get(t, cols[k]), frames);
    } else {
      SliceBack(front, b);
      assert 5 * k == |front| && 5 * k + 5 == |front| + |b|;
    }
  }

  lemma SliceFront<T>(a: seq<T>, b: seq<T>, lo: nat, hi: nat)
    requires lo <= hi <= |a|
    ensures (a + b)[lo..hi] == a[lo..hi]
  {
  }

  lemma SliceBack<T>(a: seq<T>, b: seq<T>)
    ensures (a + b)[|a|..|a| + |b|] == b
  {
  }

  /** `get_stats(data)` for a table of `frames` rows: the frame count, then the five entries of
      each CCOLS column in CCOLS order. */
  method GetStats(t: seq<Column<Cell>>, frames: nat) returns (value: seq<Entry>)
    requires Rectangular(t, frames)
    requires forall k :: 0 <= k < |CCOLS| ==> CCOLS[k] in Names(t)
    ensures value == [Count(frames)] + StatsOf(t, frames, CCOLS)
    ensures |value| == 71
  {
    CcolsCount();
    var cols := CCOLS;
    value := [Count(frames)];
    var i := 0;
    while i < |cols|
      invariant 0 <= i <= |cols|
      invariant value == [Count(frames)] + StatsOf(t, frames, cols[..i])
    {
      StatsOfStep(t, frames, cols, i);
      var b := ColumnStats(Get(t, cols[i]), frames);
      AppendStep([Count(frames)], StatsOf(t, frames, cols[..i]), b, value);
      value := value + b;
      i := i + 1;
    }
    assert cols[..i] == cols;
  }

  /** StatsOf grows by one column's entries at a time. */
  lemma StatsOfStep(t: seq<Column<Cell>>, frames: nat, cols: seq<string>, i: nat)
    requires forall k :: 0 <= k < |cols| ==> cols[k] in Names(t)
    requires i < |cols|
    ensures StatsOf(t, frames, cols[..i + 1]) == StatsOf(t, frames, cols[..i]) + ColumnStats(Get(t, cols[i]), frames)
  {
    assert cols[..i + 1][..i] == cols[..i];
  }

  lemma CcolsCount()
    ensures |CCOLS| == 14
  {
    ColumnLists();
  }

  /** One row of the statistics file: the exported video information, then the statistics. */
  function Row(info: seq<string>, stats: seq<Entry>): (r: seq<Entry>)
    ensures |r| == |info| + |stats|
  {
    seq(|info|, i requires 0 <= i < |info| => Text(info[i])) + stats
  }

  /** A `record_stats` row lines up with the header templates: the information under INFO_LS,
      the frame count under `"frame"`, and each statistic under the point and label it belongs to. */
  lemma RowMatchesHeaders(m: VideoInfo.Info, show: VideoInfo.Value -> string, t: seq<Column<Cell>>, frames: nat)
    requires forall k :: 0 <= k < |CCOLS| ==> CCOLS[k] in Names(t)
    ensures var row := Row(VideoInfo.ExportInfo(m, show), [Count(frames)] + StatsOf(t, frames, CCOLS));
      |row| == |HEAD1| == |HEAD2| == 78 && |POINTS| == |CCOLS| == 14 &&
      (forall i :: 0 <= i < |INFO_LS| ==> row[i] == Text(VideoInfo.ExportInfo(m, show)[i])) &&
      HEAD1[7] == "frame" && row[7] == Count(frames) &&
      forall i :: 8 <= i < |HEAD1| ==>
        HEAD1[i] == POINTS[(i - 8) / 5] && CCOLS[(i - 8) / 5] == POINTS[(i - 8) / 5] + "_cfd" &&
        HEAD2[i] == STAT_LABELS[(i - 8) % 5] &&
        row[i] == ColumnStats(Get(t, CCOLS[(i - 8) / 5]), frames)[(i - 8) % 5]
  {
    StatisticsHeaders();
    ColumnLists();
    var info := VideoInfo.ExportInfo(m, show);
    var row := Row(info, [Count(frames)] + StatsOf(t, frames, CCOLS));
    forall i | 8 <= i < |HEAD1|
      ensures row[i] == ColumnStats(Get(t, CCOLS[(i - 8) / 5]), frames)[(i - 8) % 5]
    {
      var k := (i - 8) / 5;
      StatsOfAt(t, frames, CCOLS, k);
      assert row[i] == StatsOf(t, frames, CCOLS)[i - 8];
      assert StatsOf(t, frames, CCOLS)[i - 8] == StatsOf(t, frames, CCOLS)[5 * k..5 * k + 5][(i - 8) % 5];
    }
  }
}
