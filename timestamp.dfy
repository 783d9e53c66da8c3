/** Event alignment (touchscreen_toolbox/postprocess/timestamp.py): the state events of the
    touchscreen log are moved onto the video's frame timeline, colliding frames are bumped, the
    state is forward-filled over the frames and re-coded, trials are numbered from their start
    events, and the trial parameters and the subject's attributes are joined on. */
module Timestamp {
  import opened Wrappers
  import opened Tables
  import Config

  // --- state codes ------------------------------------------------------------------

  /** `state_mapping`, applied with `Series.replace`: the listed codes are re-coded into task
      phases, any other code is kept as it is. */
  function StateMapping(s: int): (r: int)
    ensures (0 <= s <= 10 || s == 99) ==> 0 <= r <= 6
    ensures !(0 <= s <= 10 || s == 99) ==> r == s
  {
    match s
    case 1 => 1
    case 2 => 1
    case 3 => 2
    case 4 => 2
    case 5 => 2
    case 6 => 3
    case 7 => 4
    case 8 => 5
    case 9 => 6
    case 0 => 0
    case 10 => 0
    case 99 => 0
    case _ => s
  }

  /** The listed codes collapse onto the phases 0..6 without reordering the codes 1..9; the trial
      start stays 1, and a code the mapping does not list passes through. */
  lemma StateMappingCodes()
    ensures forall s :: (0 <= s <= 10 || s == 99) ==> 0 <= StateMapping(s) <= 6
    ensures forall s :: 1 <= s < 9 ==> StateMapping(s) <= StateMapping(s + 1) <= StateMapping(s) + 1
    ensures StateMapping(1) == 1 && StateMapping(0) == 0
    ensures forall s :: !(0 <= s <= 10 || s == 99) ==> StateMapping(s) == s
  {
  }

  // --- time to frames -------------------------------------------------------------------

  /** `astype(int)` on a float: truncation toward zero. */
  function Trunc(x: real): (r: int)
    ensures 0.0 <= x ==> r as real <= x < r as real + 1.0
    ensures x < 0.0 ==> r as real - 1.0 < x <= r as real
  {
    if 0.0 <= x then x.Floor else -((-x).Floor)
  }

  /** What is added to every event time: the start of the video's window less the leading buffer,
      which is 0 s, so the log's times are shifted by the start itself. */
  function Offset(start: real): (r: real)
    ensures r == start
  {
    start - Config.TIME_BUFFER.0
  }

  /** The frame of each (already shifted) event time at `fps` frames per second. */
  function Quantized(time: seq<real>, fps: real): (r: seq<int>)
    ensures |r| == |time|
  {
    seq(|time|, k requires 0 <= k < |time| => Trunc(time[k] * fps))
  }

  // --- increment_duplicates ---------------------------------------------------------------

  /** The frame column after `increment_duplicates`: scanning left to right, a frame that is not
      above the (already processed) frame before it becomes its own value plus one. */
  function Incremented(s: seq<int>): (r: seq<int>)
    ensures |r| == |s|
    decreases |s|
  {
    if |s| <= 1 then s
    else
      var p := Incremented(s[..|s| - 1]);
      var x := s[|s| - 1];
      p + [if x <= p[|p| - 1] then x + 1 else x]
  }

  /** Processing a prefix gives the prefix of the result. */
  lemma {:induction false} IncrementedPrefix(s: seq<int>, k: nat)
    requires k <= |s|
    ensures Incremented(s[..k]) == Incremented(s)[..k]
    decreases |s|
  {
    if k < |s| && |s| > 1 {
      var t := s[..|s| - 1];
      assert t[..k] == s[..k];
      IncrementedPrefix(t, k);
      assert Incremented(s)[..|s| - 1] == Incremented(t);
    } else if k == |s| {
      assert s[..k] == s;
    }
  }

  /** The first frame is kept, and frame `i` is bumped to its value plus one exactly when that
      value is not above the processed frame `i - 1`. */
  lemma {:induction false} IncrementedAt(s: seq<int>, i: nat)
    requires i < |s|
    ensures Incremented(s)[0] == s[0]
    ensures i > 0 ==> Incremented(s)[i] == if s[i] <= Incremented(s)[i - 1] then s[i] + 1 else s[i]
  {
    IncrementedPrefix(s, 1);
    assert s[..1] == [s[0]];
    if i > 0 {
      IncrementedPrefix(s, i + 1);
      var t := s[..i + 1];
      assert t[..i] == s[..i] && t[i] == s[i];
      IncrementedPrefix(s, i);
      assert Incremented(t)[..i] == Incremented(s[..i]);
    }
  }

  /** Every frame ends up as its input value or that value plus one. */
  lemma IncrementedBump(s: seq<int>)
    ensures forall i :: 0 <= i < |s| ==> Incremented(s)[i] == s[i] || Incremented(s)[i] == s[i] + 1
  {
    forall i | 0 <= i < |s| ensures Incremented(s)[i] == s[i] || Incremented(s)[i] == s[i] + 1 {
      IncrementedAt(s, i);
    }
  }

  predicate StrictlyIncreasing(s: seq<int>) {
    forall i :: 0 < i < |s| ==> s[i - 1] < s[i]
  }

  predicate NonDecreasing(s: seq<int>) {
    forall i :: 0 < i < |s| ==> s[i - 1] <= s[i]
  }

  /** A frame column that already increases strictly is left unchanged. */
  lemma {:induction false} IncrementedIncreasing(s: seq<int>)
    requires StrictlyIncreasing(s)
    ensures Incremented(s) == s
  {
    var r := Incremented(s);
    forall i | 0 <= i < |s| ensures r[i] == s[i] {
      IncreasingKept(s, i);
    }
  }

  lemma {:induction false} IncreasingKept(s: seq<int>, i: nat)
    requires StrictlyIncreasing(s) && i < |s|
    ensures Incremented(s)[i] == s[i]
  {
    IncrementedAt(s, i);
    if i > 0 {
      IncreasingKept(s, i - 1);
    }
  }

  /** A non-decreasing frame column stays non-decreasing. */
  lemma IncrementedNonDecreasing(s: seq<int>)
    requires NonDecreasing(s)
    ensures NonDecreasing(Incremented(s))
  {
    var r := Incremented(s);
    forall i | 0 < i < |s| ensures r[i - 1] <= r[i] {
      IncrementedAt(s, i);
      IncrementedAt(s, i - 1);
      IncrementedBump(s);
    }
  }

  /** Three events on one frame are not made distinct: the bump adds one to the event's own frame,
      not to the frame before it. */
  lemma IncrementedTriple()
    ensures Incremented([5, 5, 5]) == [5, 6, 6]
  {
    assert [5, 5, 5][..2] == [5, 5];
    assert [5, 5][..1] == [5];
  }

  lemma IncrementedStep(s: seq<int>, i: nat)
    requires 1 <= i < |s|
    ensures Incremented(s[..i + 1])
         == Incremented(s[..i]) + [if s[i] <= Incremented(s[..i])[i - 1] then s[i] + 1 else s[i]]
  {
    assert s[..i + 1][..i] == s[..i];
  }

  /** `increment_duplicates`: the loop over the frame column, rewriting it in place. */
  method IncrementDuplicates(a: array<int>)
    modifies a
    ensures a[..] == Incremented(old(a[..]))
  {
    ghost var s := a[..];
    if a.Length > 0 {
      assert a[..1] == s[..1] == [s[0]];
      var i := 1;
      while i < a.Length
        invariant 1 <= i <= a.Length
        invariant a[..i] == Incremented(s[..i])
        invariant forall k :: i <= k < a.Length ==> a[k] == s[k]
      {
        var prev, curr := a[i - 1], a[i];
        assert curr == s[i] && prev == a[..i][i - 1];
        IncrementedStep(s, i);
        if curr <= prev {
          a[i] := curr + 1;
        }
        assert a[..i + 1] == a[..i] + [a[i]];
        i := i + 1;
      }
      assert a[..] == a[..i] && s == s[..i];
    }
  }

  // --- subject attributes ---------------------------------------------------------------

  /** A subject attribute stored with the event log (a genotype flag, the sex, ...). */
  datatype Value = Int(i: int) | Num(x: real) | Text(s: string)

  type Attrs = seq<(string, Value)>

  /** A row of the `task` columns keyed by its frame, with the subject's attributes. */
  datatype Framed = Framed(frame: int, info: Attrs)

  /** `merge_info`: one row per frame, each carrying every attribute as a constant column. */
  function MergeInfo(frames: seq<int>, attrs: Attrs): (r: seq<Framed>)
    ensures |r| == |frames|
    ensures forall i :: 0 <= i < |r| ==> r[i].frame == frames[i] && r[i].info == attrs
  {
    seq(|frames|, i requires 0 <= i < |frames| => Framed(frames[i], attrs))
  }

  // --- the left join of states onto frames ------------------------------------------------

  /** A state event placed on a frame. */
  datatype Event = Event(frame: int, state: int)

  function Events(frames: seq<int>, states: seq<int>): (r: seq<Event>)
    requires |frames| == |states|
    ensures |r| == |frames| && forall k :: 0 <= k < |r| ==> r[k] == Event(frames[k], states[k])
  {
    seq(|frames|, k requires 0 <= k < |frames| => Event(frames[k], states[k]))
  }

  /** The states of the events on frame `f`, in log order. */
  function StatesAt(events: seq<Event>, f: int): (r: seq<int>)
    ensures |r| <= |events|
    ensures forall s :: s in r ==> exists e :: e in events && e.frame == f && e.state == s
  {
    if events == [] then [] else (if events[0].frame == f then [events[0].state] else []) + StatesAt(events[1..], f)
  }

  /** The state of the first event on frame `f`, if there is one. */
  function EventState(events: seq<Event>, f: int): (r: Option<int>)
    ensures r.Some? <==> exists k :: 0 <= k < |events| && events[k].frame == f
    ensures r.Some? ==> exists k :: 0 <= k < |events| && events[k] == Event(f, r.value)
  {
    if events == [] then None
    else if events[0].frame == f then Some(events[0].state)
    else
      var r := EventState(events[1..], f);
      assert forall k :: 1 <= k < |events| ==> events[k] == events[1..][k - 1];
      r
  }

  predicate DistinctFrames(events: seq<Event>) {
    forall i, j :: 0 <= i < j < |events| ==> events[i].frame != events[j].frame
  }

  /** When no two events share a frame, a frame has at most one state: the one of its event. */
  lemma {:induction false} StatesAtUnique(events: seq<Event>, f: int)
    requires DistinctFrames(events)
    ensures StatesAt(events, f) == match EventState(events, f) case None => [] case Some(s) => [s]
  {
    if events != [] {
      StatesAtUnique(events[1..], f);
      if events[0].frame == f {
        assert forall k :: 0 <= k < |events[1..]| ==> events[1..][k].frame != f by {
          forall k | 0 <= k < |events[1..]| ensures events[1..][k].frame != f {
            assert events[1..][k] == events[k + 1];
          }
        }
        assert EventState(events[1..], f).None?;
      }
    }
  }

  /** One row of `data.merge(states, how='left', on='frame')`. */
  datatype Joined = Joined(base: Framed, state: Option<int>)

  /** The left join on `frame`: every frame row in order, once per event on its frame in log order,
      or once without a state when no event is on it. */
  function JoinStates(rows: seq<Framed>, events: seq<Event>): (r: seq<Joined>)
    ensures |r| >= |rows|
  {
    if rows == [] then [] else
      var m := StatesAt(events, rows[0].frame);
      (if m == [] then [Joined(rows[0], None)] else seq(|m|, k requires 0 <= k < |m| => Joined(rows[0], Some(m[k]))))
      + JoinStates(rows[1..], events)
  }

  lemma JoinStatesHead(rows: seq<Framed>, events: seq<Event>)
    requires DistinctFrames(events) && rows != []
    ensures JoinStates(rows, events) == [Joined(rows[0], EventState(events, rows[0].frame))] + JoinStates(rows[1..], events)
  {
    StatesAtUnique(events, rows[0].frame);
  }

  /** With no two events on one frame the join keeps exactly the frame rows, each with the state
      of the event on its frame, or none. */
  lemma {:induction false} JoinStatesUnique(rows: seq<Framed>, events: seq<Event>)
    requires DistinctFrames(events)
    ensures |JoinStates(rows, events)| == |rows|
    ensures forall i :: 0 <= i < |rows| ==>
      JoinStates(rows, events)[i] == Joined(rows[i], EventState(events, rows[i].frame))
  {
    if rows != [] {
      JoinStatesUnique(rows[1..], events);
      JoinStatesHead(rows, events);
      var r := JoinStates(rows, events);
      forall i | 1 <= i < |rows|
        ensures r[i] == Joined(rows[i], EventState(events, rows[i].frame))
      {
        assert r[i] == JoinStates(rows[1..], events)[i - 1] && rows[1..][i - 1] == rows[i];
      }
    }
  }

  // --- state_ ------------------------------------------------------------------------------

  /** The re-coded state of a row: the forward-filled raw state through `state_mapping`, and 0
      (the `fillna(0)`) where no event has happened yet. */
  function Recoded(o: Option<int>): (r: int)
    ensures o.None? ==> r == 0
    ensures o.Some? && (0 <= o.value <= 10 || o.value == 99) ==> 0 <= r <= 6
    ensures (0 <= r <= 6) || (o.Some? && r == o.value)
  {
    if o.None? then 0 else StateMapping(o.value)
  }

  /** A row after `merge_states`: its raw `state` (missing between events) and `state_`. */
  datatype StateRow = StateRow(base: Framed, state: Option<int>, code: int)

  function RawStates(joined: seq<Joined>): (r: seq<Option<int>>)
    ensures |r| == |joined| && forall i :: 0 <= i < |r| ==> r[i] == joined[i].state
  {
    seq(|joined|, i requires 0 <= i < |joined| => joined[i].state)
  }

  /** `state_ = state.ffill().replace(state_mapping).fillna(0)` over the joined rows. */
  function Coded(joined: seq<Joined>): (r: seq<StateRow>)
    ensures |r| == |joined|
    ensures forall i :: 0 <= i < |r| ==> r[i].base == joined[i].base && r[i].state == joined[i].state
  {
    var filled := FFill(RawStates(joined));
    seq(|joined|, i requires 0 <= i < |joined| => StateRow(joined[i].base, joined[i].state, Recoded(filled[i])))
  }

  /** `state_` of a row is the re-coded state of the latest row at or before it that has an event. */
  lemma StateCodeLatest(joined: seq<Joined>, i: nat, j: nat)
    requires j <= i < |joined| && joined[j].state.Some?
    requires forall k :: j < k <= i ==> joined[k].state.None?
    ensures Coded(joined)[i].code == StateMapping(joined[j].state.value)
  {
    FFillLatest(RawStates(joined), i, j);
  }

  /** Rows before the first event have `state_` 0; nothing is back-filled. */
  lemma StateCodeBeforeFirst(joined: seq<Joined>, i: nat)
    requires i < |joined| && forall k :: 0 <= k <= i ==> joined[k].state.None?
    ensures Coded(joined)[i].code == 0
  {
    FFillLeading(RawStates(joined), i);
  }

  // --- count_trials ---------------------------------------------------------------------------

  /** A row after `count_trials`: its trial number, or none before the first trial. */
  datatype TrialRow = TrialRow(row: StateRow, trial: Option<int>)

  /** `state.fillna(0) == 1`: the row holds a trial-start event. */
  predicate IsStart(r: StateRow) {
    r.state == Some(1)
  }

  /** The number of start rows among the first `n` rows. */
  function StartsBefore(rows: seq<StateRow>, n: nat): (r: nat)
    requires n <= |rows|
    ensures r <= n
  {
    if n == 0 then 0 else StartsBefore(rows, n - 1) + (if IsStart(rows[n - 1]) then 1 else 0)
  }

  /** The positions of the start rows among the first `n` rows, ascending. */
  function StartPositions(rows: seq<StateRow>, n: nat): (r: seq<nat>)
    requires n <= |rows|
    ensures |r| <= n
    ensures forall m :: 0 <= m < |r| ==> r[m] < n && IsStart(rows[r[m]])
    ensures forall a, b :: 0 <= a < b < |r| ==> r[a] < r[b]
  {
    if n == 0 then [] else StartPositions(rows, n - 1) + (if IsStart(rows[n - 1]) then [n - 1] else [])
  }

  /** `idxs = data.index[data['state'].fillna(0) == 1]`: the frame labels of the start rows. */
  function StartLabels(rows: seq<StateRow>): (r: seq<int>) {
    var p := StartPositions(rows, |rows|);
    seq(|p|, m requires 0 <= m < |p| => if p[m] < |rows| then rows[p[m]].base.frame else 0)
  }

  /** The `trial` column after the first `k` assignments `data.loc[idxs[m], 'trial'] = m + 1`:
      `.loc` writes every row labelled `idxs[m]`, and a later assignment overwrites an earlier one. */
  function Marks(rows: seq<StateRow>, idxs: seq<int>, k: nat): (r: seq<Option<int>>)
    requires k <= |idxs|
    ensures |r| == |rows|
  {
    if k == 0 then seq(|rows|, _ => None) else Mark(rows, Marks(rows, idxs, k - 1), idxs[k - 1], k)
  }

  /** `trial[data.index == at] = k`: the rows on frame `at` marked `k`, the others kept. */
  function Mark(rows: seq<StateRow>, prev: seq<Option<int>>, at: int, k: int): (r: seq<Option<int>>)
    requires |prev| == |rows|
    ensures |r| == |rows|
    ensures forall j :: 0 <= j < |rows| && rows[j].base.frame == at ==> r[j] == Some(k)
    ensures forall j :: 0 <= j < |rows| && rows[j].base.frame != at ==> r[j] == prev[j]
  {
    seq(|rows|, j requires 0 <= j < |rows| => if rows[j].base.frame == at then Some(k) else prev[j])
  }

  /** The rows paired with their trial numbers. */
  function Numbered(rows: seq<StateRow>, t: seq<Option<int>>): (r: seq<TrialRow>)
    requires |t| == |rows|
    ensures |r| == |rows|
  {
    seq(|rows|, i requires 0 <= i < |rows| => TrialRow(rows[i], t[i]))
  }

  /** What `count_trials` returns: the marks, forward-filled. */
  function Trials(rows: seq<StateRow>): (r: seq<TrialRow>)
    ensures |r| == |rows| && forall i :: 0 <= i < |rows| ==> r[i].row == rows[i]
  {
    var idxs := StartLabels(rows);
    Numbered(rows, FFill(Marks(rows, idxs, |idxs|)))
  }

  /** No two rows share a frame label (the pose table's own index has this). */
  predicate DistinctLabels(rows: seq<StateRow>) {
    forall i, j :: 0 <= i < j < |rows| ==> rows[i].base.frame != rows[j].base.frame
  }

  /** The trial number a row should carry: the number of start rows at or before it, and none
      before the first start. */
  function TrialNumber(rows: seq<StateRow>, i: nat): (r: Option<int>)
    requires i < |rows|
    ensures r.None? <==> StartsBefore(rows, i + 1) == 0
    ensures r.Some? ==> 1 <= r.value <= i + 1
  {
    var k := StartsBefore(rows, i + 1);
    if k == 0 then None else Some(k)
  }

  /** There is one start position per start row. */
  lemma {:induction false} StartPositionsCount(rows: seq<StateRow>, n: nat)
    requires n <= |rows|
    ensures |StartPositions(rows, n)| == StartsBefore(rows, n)
  {
    if n > 0 {
      StartPositionsCount(rows, n - 1);
    }
  }

  /** The `m`-th start position (from 0) is a start row with `m` start rows before it. */
  lemma {:induction false} StartPositionsAt(rows: seq<StateRow>, n: nat, m: nat)
    requires n <= |rows| && m < |StartPositions(rows, n)|
    ensures var q := StartPositions(rows, n)[m]; q < n && IsStart(rows[q]) && StartsBefore(rows, q) == m
  {
    StartPositionsCount(rows, n - 1);
    if m < |StartPositions(rows, n - 1)| {
      StartPositionsAt(rows, n - 1, m);
    }
  }

  /** Every start row is listed, at the index given by the number of start rows before it. */
  lemma {:induction false} StartPositionsOf(rows: seq<StateRow>, n: nat, j: nat)
    requires j < n <= |rows| && IsStart(rows[j])
    ensures StartsBefore(rows, j) < |StartPositions(rows, n)|
    ensures StartPositions(rows, n)[StartsBefore(rows, j)] == j
  {
    StartPositionsCount(rows, n - 1);
    StartPositionsCount(rows, j);
    if j < n - 1 {
      StartPositionsOf(rows, n - 1, j);
    }
  }

  /** The `m`-th start label is the frame of the `m`-th start row. */
  lemma StartLabelsAt(rows: seq<StateRow>, m: nat)
    requires m < |StartLabels(rows)|
    ensures var q := StartPositions(rows, |rows|)[m];
      q < |rows| && IsStart(rows[q]) && StartsBefore(rows, q) == m && StartLabels(rows)[m] == rows[q].base.frame
  {
    StartPositionsAt(rows, |rows|, m);
  }

  /** With distinct labels, after `k` assignments exactly the first `k` start rows are marked, the
      `m`-th with `m + 1`. */
  lemma {:induction false} MarkAt(rows: seq<StateRow>, k: nat, j: nat)
    requires DistinctLabels(rows) && k <= |StartLabels(rows)| && j < |rows|
    ensures Marks(rows, StartLabels(rows), k)[j] ==
      if IsStart(rows[j]) && StartsBefore(rows, j) < k then Some(StartsBefore(rows, j) + 1) else None
  {
    if k > 0 {
      MarkAt(rows, k - 1, j);
      MarkStep(rows, k, j);
    }
  }

  /** The `k`-th assignment marks the `k`-th start row and leaves every other row as it was. */
  lemma MarkStep(rows: seq<StateRow>, k: nat, j: nat)
    requires DistinctLabels(rows) && 0 < k <= |StartLabels(rows)| && j < |rows|
    requires Marks(rows, StartLabels(rows), k - 1)[j] ==
      if IsStart(rows[j]) && StartsBefore(rows, j) < k - 1 then Some(StartsBefore(rows, j) + 1) else None
    ensures Marks(rows, StartLabels(rows), k)[j] ==
      if IsStart(rows[j]) && StartsBefore(rows, j) < k then Some(StartsBefore(rows, j) + 1) else None
  {
    var idxs := StartLabels(rows);
    StartLabelsAt(rows, k - 1);
    var q := StartPositions(rows, |rows|)[k - 1];
    if j == q {
      assert Marks(rows, idxs, k)[j] == Some(k);
    } else {
      assert rows[j].base.frame != idxs[k - 1];
      assert Marks(rows, idxs, k)[j] == Marks(rows, idxs, k - 1)[j];
      if IsStart(rows[j]) {
        StartPositionsOf(rows, |rows|, j);
      }
    }
  }

  /** Forward filling the marks of distinct labels gives every row its trial number. */
  lemma TrialsFilled(rows: seq<StateRow>, i: nat)
    requires DistinctLabels(rows) && i < |rows|
    ensures Trials(rows)[i].trial == TrialNumber(rows, i)
  {
    var idxs := StartLabels(rows);
    assert Trials(rows)[i].trial == FFill(Marks(rows, idxs, |idxs|))[i];
    MarksFilled(rows, i);
  }

  lemma {:induction false} MarksFilled(rows: seq<StateRow>, i: nat)
    requires DistinctLabels(rows) && i < |rows|
    ensures FFill(Marks(rows, StartLabels(rows), |StartLabels(rows)|))[i] == TrialNumber(rows, i)
  {
    var idxs := StartLabels(rows);
    var m := Marks(rows, idxs, |idxs|);
    StartPositionsCount(rows, |rows|);
    StartsMonotone(rows, i + 1, |rows|);
    MarkAt(rows, |idxs|, i);
    FFillStep(m, i);
    var k := StartsBefore(rows, i);
    assert StartsBefore(rows, i + 1) == k + (if IsStart(rows[i]) then 1 else 0);
    if IsStart(rows[i]) {
      assert m[i] == Some(k + 1);
    } else if i == 0 {
      assert m[i] == None;
    } else {
      assert FFill(m)[i] == FFill(m)[i - 1];
      MarksFilled(rows, i - 1);
    }
  }

  /** With distinct frame labels every row gets the number of start rows at or before it. */
  lemma TrialsDistinct(rows: seq<StateRow>)
    requires DistinctLabels(rows)
    ensures forall i :: 0 <= i < |rows| ==> Trials(rows)[i].trial == TrialNumber(rows, i)
  {
    forall i | 0 <= i < |rows| ensures Trials(rows)[i].trial == TrialNumber(rows, i) {
      TrialsFilled(rows, i);
    }
  }

  /** `count_trials`: the loop of label assignments on a copy, then the forward fill. */
  method CountTrials(rows: seq<StateRow>) returns (r: seq<TrialRow>)
    ensures r == Trials(rows)
    ensures DistinctLabels(rows) ==> forall i :: 0 <= i < |rows| ==> r[i].trial == TrialNumber(rows, i)
  {
    var trial: seq<Option<int>> := seq(|rows|, _ => None);
    var idxs := StartLabels(rows);
    var k := 0;
    while k < |idxs|
      invariant 0 <= k <= |idxs| && trial == Marks(rows, idxs, k)
    {
      trial := Mark(rows, trial, idxs[k], k + 1);
      k := k + 1;
    }
    trial := FFill(trial);
    r := Numbered(rows, trial);
    if DistinctLabels(rows) {
      TrialsDistinct(rows);
    }
  }

  lemma {:induction false} StartsMonotone(rows: seq<StateRow>, i: nat, j: nat)
    requires i <= j <= |rows|
    ensures StartsBefore(rows, i) <= StartsBefore(rows, j)
    decreases j - i
  {
    if i < j {
      StartsMonotone(rows, i, j - 1);
    }
  }

  /** Trial numbers never decrease from frame to frame, and once a trial has started every later
      row has one. */
  lemma TrialNumbersMonotone(rows: seq<StateRow>, i: nat, j: nat)
    requires i <= j < |rows| && TrialNumber(rows, i).Some?
    ensures TrialNumber(rows, j).Some? && TrialNumber(rows, i).value <= TrialNumber(rows, j).value
  {
    StartsMonotone(rows, i + 1, j + 1);
  }

  /** The trial numbers in use are exactly 1, 2, ..., N for N start rows; the `k`-th start row
      carries trial `k`, and rows before the first start carry none. */
  lemma TrialNumbersConsecutive(rows: seq<StateRow>)
    ensures var n := StartsBefore(rows, |rows|);
      (set i | 0 <= i < |rows| && TrialNumber(rows, i).Some? :: TrialNumber(rows, i).value) == OneTo(n)
    ensures var p := StartPositions(rows, |rows|);
      forall m :: 0 <= m < |p| ==> p[m] < |rows| && TrialNumber(rows, p[m]) == Some(m + 1)
    ensures forall i :: 0 <= i < |rows| && StartsBefore(rows, i + 1) == 0 ==> TrialNumber(rows, i).None?
  {
    var n := StartsBefore(rows, |rows|);
    var p := StartPositions(rows, |rows|);
    StartPositionsCount(rows, |rows|);
    forall m | 0 <= m < |p| ensures p[m] < |rows| && TrialNumber(rows, p[m]) == Some(m + 1) {
      StartPositionsAt(rows, |rows|, m);
    }
    var used := set i | 0 <= i < |rows| && TrialNumber(rows, i).Some? :: TrialNumber(rows, i).value;
    forall v | v in used ensures 1 <= v <= n {
      var i :| 0 <= i < |rows| && TrialNumber(rows, i).Some? && TrialNumber(rows, i).value == v;
      StartsMonotone(rows, i + 1, |rows|);
    }
    forall k | k in OneTo(n) ensures k in used {
      StartPositionsAt(rows, |rows|, k - 1);
      assert TrialNumber(rows, p[k - 1]) == Some(k);
    }
  }

  /** The trial numbers 1, 2, ..., n. */
  function OneTo(n: nat): (r: set<int>)
    ensures forall k :: k in r <==> 1 <= k <= n
    ensures |r| == n
  {
    if n == 0 then {} else OneTo(n - 1) + {n}
  }

  /** There are as many distinct trial numbers as start rows. */
  lemma TrialCount(rows: seq<StateRow>)
    ensures |set i | 0 <= i < |rows| && TrialNumber(rows, i).Some? :: TrialNumber(rows, i).value| == StartsBefore(rows, |rows|)
  {
    TrialNumbersConsecutive(rows);
  }

  // --- merge_states -------------------------------------------------------------------------

  /** The `states` table of one session, as read from the event log: event times in seconds and
      state codes, row by row, and the `frame` column once `merge_states` has added it (None
      before). `merge_states` shifts the times and adds that column in place. */
  class StateLog {
    var time: seq<real>
    var state: seq<int>
    var frame: Option<seq<int>>

    constructor (time: seq<real>, state: seq<int>)
      requires |time| == |state|
      ensures this.time == time && this.state == state && frame == None
    {
      this.time := time;
      this.state := state;
      frame := None;
    }
  }

  /** What `merge_states` computes from the frame rows and the shifted log: the events placed on
      their bumped frames, joined onto the rows, re-coded and counted into trials. */
  function StatesMerged(data: seq<Framed>, time: seq<real>, state: seq<int>, fps: real): (r: seq<TrialRow>)
    requires |time| == |state|
    ensures |r| >= |data|
  {
    var events := Events(Incremented(Quantized(time, fps)), state);
    Trials(Coded(JoinStates(data, events)))
  }

  /** `merge_states`: shifts the caller's event times by the video's start, puts each event on
      frame `int(time * fps)` (the caller's table keeps these frames, before any bump, as its new
      `frame` column; the bump works on the copy `drop` returns), bumps colliding frames, joins the states onto the frames, fills and
      re-codes them, and counts the trials. */
  method MergeStates(data: seq<Framed>, log: StateLog, start: real, fps: real) returns (r: seq<TrialRow>)
    requires |log.time| == |log.state|
    modifies log
    ensures log.state == old(log.state) && |log.time| == |old(log.time)|
    ensures forall k :: 0 <= k < |log.time| ==> log.time[k] == old(log.time)[k] + Offset(start)
    ensures log.frame == Some(Quantized(log.time, fps))
    ensures r == StatesMerged(data, log.time, log.state, fps)
  {
    log.time := seq(|log.time|, k requires 0 <= k < |log.time| reads log => log.time[k] + Offset(start));
    var time := log.time;
    var frame := new int[|time|](k requires 0 <= k < |time| => Trunc(time[k] * fps));
    assert frame[..] == Quantized(time, fps);
    log.frame := Some(frame[..]);
    IncrementDuplicates(frame);
    var events := Events(frame[..], log.state);
    var merged := Coded(JoinStates(data, events));
    r := CountTrials(merged);
  }

  /** When the bumped event frames are distinct and the frame rows' labels are, the merge keeps
      one row per frame; a row's `state_` is the re-coded state of the latest event at or before
      it, and its trial the number of start events at or before it. */
  lemma MergedStatesRows(data: seq<Framed>, events: seq<Event>)
    requires DistinctFrames(events)
    requires forall i, j :: 0 <= i < j < |data| ==> data[i].frame != data[j].frame
    ensures var rows := Coded(JoinStates(data, events));
      |rows| == |data| && DistinctLabels(rows) &&
      (forall i :: 0 <= i < |data| ==> rows[i].base == data[i] && rows[i].state == EventState(events, data[i].frame)) &&
      (forall i :: 0 <= i < |data| ==> Trials(rows)[i].trial == TrialNumber(rows, i))
  {
    JoinStatesUnique(data, events);
    var rows := Coded(JoinStates(data, events));
    forall i | 0 <= i < |data| ensures Trials(rows)[i].trial == TrialNumber(rows, i) {
      TrialsFilled(rows, i);
    }
  }

  // --- merge_trials ---------------------------------------------------------------------------

  /** One row of the trial-parameter table: its trial and the parameter values (choice, reward,
      reward probabilities ...) in the table's column order; `time` is dropped. */
  datatype Params = Params(trial: int, values: seq<Option<real>>)

  /** The parameter rows of trial `t`, in table order; none for a row without a trial. */
  function ParamsOf(params: seq<Params>, t: Option<int>): (r: seq<Params>)
    ensures |r| <= |params| && forall k :: 0 <= k < |r| ==> r[k] in params
  {
    if params == [] || t.None? then []
    else (if params[0].trial == t.value then [params[0]] else []) + ParamsOf(params[1..], t)
  }

  datatype Matched = Matched(row: TrialRow, params: Option<Params>)

  /** `data.merge(trials, how='left', on='trial')`. */
  function JoinTrials(rows: seq<TrialRow>, params: seq<Params>): (r: seq<Matched>)
    ensures |r| >= |rows|
    ensures forall i :: 0 <= i < |r| && r[i].params.Some? ==> r[i].params.value in params
  {
    if rows == [] then [] else
      var m := ParamsOf(params, rows[0].trial);
      (if m == [] then [Matched(rows[0], None)] else seq(|m|, k requires 0 <= k < |m| => Matched(rows[0], Some(m[k]))))
      + JoinTrials(rows[1..], params)
  }

  /** A row of the `task` columns: the counted row and the parameter columns. */
  datatype TaskRow = TaskRow(row: TrialRow, values: seq<Option<real>>)

  /** Parameter column `c` of the joined rows, before filling. */
  function ParamColumn(j: seq<Matched>, c: nat): (r: seq<Option<real>>)
    requires forall i :: 0 <= i < |j| && j[i].params.Some? ==> c < |j[i].params.value.values|
    ensures |r| == |j|
  {
    seq(|j|, i requires 0 <= i < |j| => if j[i].params.Some? then j[i].params.value.values[c] else None)
  }

  predicate ParamsWidth(params: seq<Params>, w: nat) {
    forall k :: 0 <= k < |params| ==> |params[k].values| == w
  }

  /** `merge_trials`: the left join on `trial`, then every parameter column forward-filled. */
  function MergeTrials(rows: seq<TrialRow>, params: seq<Params>, w: nat): (r: seq<TaskRow>)
    requires ParamsWidth(params, w)
    ensures |r| == |JoinTrials(rows, params)|
    ensures forall i :: 0 <= i < |r| ==> r[i].row == JoinTrials(rows, params)[i].row && |r[i].values| == w
  {
    var j := JoinTrials(rows, params);
    var cols := seq(w, c requires 0 <= c < w => FFill(ParamColumn(j, c)));
    seq(|j|, i requires 0 <= i < |j| => TaskRow(j[i].row, seq(w, c requires 0 <= c < w => cols[c][i])))
  }

  /** Each parameter column is a forward fill: a row takes its trial's value when it has one, and
      otherwise the value of the row before it (none on the first row). */
  lemma MergeTrialsFill(rows: seq<TrialRow>, params: seq<Params>, w: nat, i: nat, c: nat)
    requires ParamsWidth(params, w) && c < w
    requires i < |JoinTrials(rows, params)|
    ensures var j := JoinTrials(rows, params); var r := MergeTrials(rows, params, w);
      r[i].values[c] ==
        if j[i].params.Some? && j[i].params.value.values[c].Some? then j[i].params.value.values[c]
        else if i == 0 then None
        else r[i - 1].values[c]
  {
    var j := JoinTrials(rows, params);
    FFillStep(ParamColumn(j, c), i);
  }

  predicate DistinctTrials(params: seq<Params>) {
    forall a, b :: 0 <= a < b < |params| ==> params[a].trial != params[b].trial
  }

  /** The parameter row of trial `t`, if the table has one. */
  function ParamsFor(params: seq<Params>, t: Option<int>): (r: Option<Params>)
    ensures r.Some? ==> r.value in params && t == Some(r.value.trial)
    ensures r.None? ==> t.None? || forall k :: 0 <= k < |params| ==> params[k].trial != t.value
  {
    if params == [] || t.None? then None
    else if params[0].trial == t.value then Some(params[0])
    else
      var r := ParamsFor(params[1..], t);
      assert forall k :: 1 <= k < |params| ==> params[k] == params[1..][k - 1];
      r
  }

  lemma {:induction false} ParamsOfUnique(params: seq<Params>, t: Option<int>)
    requires DistinctTrials(params)
    ensures ParamsOf(params, t) == match ParamsFor(params, t) case None => [] case Some(p) => [p]
  {
    if params != [] && t.Some? {
      ParamsOfUnique(params[1..], t);
      if params[0].trial == t.value {
        assert forall k :: 0 <= k < |params[1..]| ==> params[1..][k].trial != t.value by {
          forall k | 0 <= k < |params[1..]| ensures params[1..][k].trial != t.value {
            assert params[1..][k] == params[k + 1];
          }
        }
      }
    }
  }

  /** When every trial has at most one parameter row the join keeps exactly the rows, each matched
      with its trial's parameters. */
  lemma {:induction false} JoinTrialsUnique(rows: seq<TrialRow>, params: seq<Params>)
    requires DistinctTrials(params)
    ensures |JoinTrials(rows, params)| == |rows|
    ensures forall i :: 0 <= i < |rows| ==> JoinTrials(rows, params)[i] == Matched(rows[i], ParamsFor(params, rows[i].trial))
  {
    if rows != [] {
      JoinTrialsUnique(rows[1..], params);
      JoinTrialsHead(rows, params);
      var r := JoinTrials(rows, params);
      forall i | 1 <= i < |rows|
        ensures r[i] == Matched(rows[i], ParamsFor(params, rows[i].trial))
      {
        assert r[i] == JoinTrials(rows[1..], params)[i - 1] && rows[1..][i - 1] == rows[i];
      }
    }
  }

  lemma JoinTrialsHead(rows: seq<TrialRow>, params: seq<Params>)
    requires DistinctTrials(params) && rows != []
    ensures JoinTrials(rows, params) == [Matched(rows[0], ParamsFor(params, rows[0].trial))] + JoinTrials(rows[1..], params)
  {
    ParamsOfUnique(params, rows[0].trial);
  }
}
