/** Configuration constants and the column-name schemes built from them (touchscreen_toolbox/config.py). */
module Config {
  import opened Strings

  // --- magic numbers ---------------------------------------------------------

  const FPS: int := 25
  /** Length of the tray in cm; the physical distance from `ll_corner` to `lr_corner`. */
  const TRAY_LENGTH: real := 26.8
  const TRAY_WIDTH: int := 18
  /** Confidence threshold below which a keypoint sample is discarded. */
  const P_CUTOFF: real := 0.1
  const DECIMALS: nat := 2
  const RESOLUTION_HEIGHT: int := 480
  const RESOLUTION_WIDTH: int := 640
  const B_THRESHOLD: int := 45
  /** Seconds added before and after the recorded video window. */
  const TIME_BUFFER: (real, real) := (0.0, 10.0)

  // --- keypoints -------------------------------------------------------------

  const MICE: seq<string> := ["snout", "lEar", "rEar", "spine1", "spine2", "tail1", "tail2", "tail3"]
  const REFE: seq<string> := ["food_port", "ll_corner", "lr_corner", "l_screen", "m_screen", "r_screen"]
  /** Body points first, then the fixed reference points. */
  const POINTS: seq<string> := MICE + REFE

  // --- video names and exported information ----------------------------------

  const PATTERN: string := @"^(\d+) - (\S+) - (\d{2}-\d{2}-\d{2}) (\d{2}-\d{2})\s?(\S*)"
  const ELEMENTS: seq<string> := ["mouse_id", "chamber", "exp_date", "exp_time", "suffix"]
  const INFO_LS: seq<string> := ["file_name", "mouse_id", "chamber", "exp_date", "time", "fps", "prep"]
  /** The five statistics recorded per confidence column. */
  const STAT_LABELS: seq<string> := ["#of0", "%of0", "cons", "1stQ", "10thQ"]

  // --- generated column names ------------------------------------------------

  /** `[p + "_x", p + "_y", p + "_cfd"]` for every point, in order. */
  function HeadersOf(ps: seq<string>): seq<string> {
    if ps == [] then [] else [ps[0] + "_x", ps[0] + "_y", ps[0] + "_cfd"] + HeadersOf(ps[1..])
  }

  /** The order-preserving sub-list of the names that contain `tag`. */
  function Select(hs: seq<string>, tag: string): (r: seq<string>)
    ensures |r| <= |hs|
  {
    if hs == [] then [] else (if Contains(hs[0], tag) then [hs[0]] else []) + Select(hs[1..], tag)
  }

  /** `Select` keeps exactly the names that contain the tag. */
  lemma {:induction false} SelectMembers(hs: seq<string>, tag: string)
    ensures forall h :: h in Select(hs, tag) <==> h in hs && Contains(h, tag)
  {
    if hs != [] {
      SelectMembers(hs[1..], tag);
      assert hs == [hs[0]] + hs[1..];
    }
  }

  /** Every name with `suffix` appended. */
  function Suffixed(ps: seq<string>, suffix: string): (r: seq<string>)
    ensures |r| == |ps| && forall i :: 0 <= i < |ps| ==> r[i] == ps[i] + suffix
  {
    if ps == [] then [] else [ps[0] + suffix] + Suffixed(ps[1..], suffix)
  }

  const HEADERS: seq<string> := HeadersOf(POINTS)
  const XCOLS: seq<string> := Select(HEADERS, "_x")
  const YCOLS: seq<string> := Select(HEADERS, "_y")
  const CCOLS: seq<string> := Select(HEADERS, "_cfd")

  /** `[i[:-4] for i in cs for j in "12345"]`: each point name, five times. */
  function Repeated(cs: seq<string>): seq<string> {
    if cs == [] then [] else seq(5, _ => DropLast(cs[0], 4)) + Repeated(cs[1..])
  }

  /** `[j for i in cs for j in STAT_LABELS]`: the statistic labels, once per column. */
  function Cycled(cs: seq<string>): seq<string> {
    if cs == [] then [] else STAT_LABELS + Cycled(cs[1..])
  }

  /** The two header rows of the statistics summary. */
  const HEAD1: seq<string> := INFO_LS + ["frame"] + Repeated(CCOLS)
  const HEAD2: seq<string> := seq(|INFO_LS| + 1, _ => "-") + Cycled(CCOLS)

  // --- facts about the schemes ----------------------------------------------

  /** A point name in which none of the three column tags occurs. */
  predicate Untagged(p: string) {
    !Contains(p, "_x") && !Contains(p, "_y") && !Contains(p, "_cfd")
  }

  /** A name without `'_'` contains none of the tags, since each tag begins with `'_'`. */
  lemma UntaggedWithoutUnderscore(p: string)
    requires '_' !in p
    ensures Untagged(p)
  {
    forall t | t in ["_x", "_y", "_cfd"]
      ensures !Contains(p, t)
    {
      InfixFromSlice(t, p, 0);
      if Contains(p, t) {
        var j: nat :| OccursAt(t, p, j);
        OccursAtIndex(t, p, j, j);
        assert false;
      }
    }
  }

  lemma FoodPortUntagged()
    ensures Untagged("food_port") && Untagged("ll_corner")
  {
  }

  lemma CornersUntagged()
    ensures Untagged("lr_corner") && Untagged("l_screen")
  {
  }

  lemma ScreensUntagged()
    ensures Untagged("m_screen") && Untagged("r_screen")
  {
  }

  lemma PointsUntagged()
    ensures forall p :: p in POINTS ==> Untagged(p)
  {
    MiceUntagged();
    RefeUntagged();
    assert forall p :: p in POINTS ==> p in MICE || p in REFE;
  }

  lemma MiceUntagged()
    ensures forall p :: p in MICE ==> Untagged(p)
  {
    MiceWithoutUnderscore();
    forall p | p in MICE
      ensures Untagged(p)
    {
      UntaggedWithoutUnderscore(p);
    }
  }

  /** No body point name has an underscore. */
  lemma MiceWithoutUnderscore()
    ensures forall p :: p in MICE ==> '_' !in p
  {
  }

  lemma RefeUntagged()
    ensures forall p :: p in REFE ==> Untagged(p)
  {
    FoodPortUntagged();
    CornersUntagged();
    ScreensUntagged();
  }

  /** Which tags occur in `p + suffix`, for an untagged point and one of the three suffixes. */
  lemma TagsOfHeader(p: string)
    requires Untagged(p)
    ensures Contains(p + "_x", "_x") && !Contains(p + "_x", "_y") && !Contains(p + "_x", "_cfd")
    ensures !Contains(p + "_y", "_x") && Contains(p + "_y", "_y") && !Contains(p + "_y", "_cfd")
    ensures !Contains(p + "_cfd", "_x") && !Contains(p + "_cfd", "_y") && Contains(p + "_cfd", "_cfd")
  {
    assert IsTag("_x") && IsTag("_y") && IsTag("_cfd");
    assert Contains("_x", "_x") && !Contains("_x", "_y") && !Contains("_x", "_cfd");
    assert !Contains("_y", "_x") && Contains("_y", "_y") && !Contains("_y", "_cfd");
    assert !Contains("_cfd", "_x") && !Contains("_cfd", "_y") && Contains("_cfd", "_cfd");
    ContainsAcross(p, "_x", "_x");
    ContainsAcross(p, "_x", "_y");
    ContainsAcross(p, "_x", "_cfd");
    ContainsAcross(p, "_y", "_x");
    ContainsAcross(p, "_y", "_y");
    ContainsAcross(p, "_y", "_cfd");
    ContainsAcross(p, "_cfd", "_x");
    ContainsAcross(p, "_cfd", "_y");
    ContainsAcross(p, "_cfd", "_cfd");
  }

  lemma {:induction false} HeadersOfShape(ps: seq<string>)
    ensures |HeadersOf(ps)| == 3 * |ps|
    ensures forall k :: 0 <= k < |ps| ==>
      HeadersOf(ps)[3 * k] == ps[k] + "_x" &&
      HeadersOf(ps)[3 * k + 1] == ps[k] + "_y" &&
      HeadersOf(ps)[3 * k + 2] == ps[k] + "_cfd"
  {
    if ps != [] {
      HeadersOfShape(ps[1..]);
      forall k | 1 <= k < |ps|
        ensures HeadersOf(ps)[3 * k] == ps[k] + "_x"
        ensures HeadersOf(ps)[3 * k + 1] == ps[k] + "_y"
        ensures HeadersOf(ps)[3 * k + 2] == ps[k] + "_cfd"
      {
        assert HeadersOf(ps)[3 * k] == HeadersOf(ps[1..])[3 * (k - 1)];
        assert HeadersOf(ps)[3 * k + 1] == HeadersOf(ps[1..])[3 * (k - 1) + 1];
        assert HeadersOf(ps)[3 * k + 2] == HeadersOf(ps[1..])[3 * (k - 1) + 2];
      }
    }
  }

  lemma SelectCons(h: string, hs: seq<string>, tag: string)
    ensures Select([h] + hs, tag) == (if Contains(h, tag) then [h] else []) + Select(hs, tag)
  {
    assert ([h] + hs)[1..] == hs;
  }

  /** Selecting by one of the tags keeps exactly the matching name of a point's three headers. */
  lemma SelectTriple(p: string, rest: seq<string>, tag: string)
    requires Untagged(p) && tag in ["_x", "_y", "_cfd"]
    ensures Select([p + "_x", p + "_y", p + "_cfd"] + rest, tag) == [p + tag] + Select(rest, tag)
  {
    TagsOfHeader(p);
    var hs := [p + "_x", p + "_y", p + "_cfd"] + rest;
    assert hs == [p + "_x"] + ([p + "_y"] + ([p + "_cfd"] + rest));
    SelectCons(p + "_x", [p + "_y"] + ([p + "_cfd"] + rest), tag);
    SelectCons(p + "_y", [p + "_cfd"] + rest, tag);
    SelectCons(p + "_cfd", rest, tag);
  }

  lemma {:induction false} SelectHeaders(ps: seq<string>, tag: string)
    requires forall p :: p in ps ==> Untagged(p)
    requires tag in ["_x", "_y", "_cfd"]
    ensures Select(HeadersOf(ps), tag) == Suffixed(ps, tag)
  {
    if ps != [] {
      SelectHeaders(ps[1..], tag);
      SelectTriple(ps[0], HeadersOf(ps[1..]), tag);
      assert Suffixed(ps, tag) == [ps[0] + tag] + Suffixed(ps[1..], tag);
    }
  }

  /** HEADERS lists `p_x`, `p_y`, `p_cfd` for each of the 14 points, in order: 42 names. */
  lemma HeadersLayout()
    ensures |POINTS| == 14 && |HEADERS| == 42
    ensures forall k :: 0 <= k < 14 ==>
      HEADERS[3 * k] == POINTS[k] + "_x" &&
      HEADERS[3 * k + 1] == POINTS[k] + "_y" &&
      HEADERS[3 * k + 2] == POINTS[k] + "_cfd"
  {
    HeadersOfShape(POINTS);
  }

  lemma HeadersCount()
    ensures |POINTS| == 14 && |HEADERS| == 42
  {
    HeadersOfShape(POINTS);
  }

  /** XCOLS, YCOLS and CCOLS have 14 names each, and entry `i` of each belongs to point `i`. */
  lemma ColumnLists()
    ensures |XCOLS| == 14 && |YCOLS| == 14 && |CCOLS| == 14
    ensures forall i :: 0 <= i < 14 ==>
      XCOLS[i] == POINTS[i] + "_x" && YCOLS[i] == POINTS[i] + "_y" && CCOLS[i] == POINTS[i] + "_cfd"
  {
    PointsUntagged();
    SelectHeaders(POINTS, "_x");
    SelectHeaders(POINTS, "_y");
    SelectHeaders(POINTS, "_cfd");
  }

  /** Every header is in exactly one of XCOLS, YCOLS and CCOLS. */
  lemma ColumnListsPartition()
    ensures forall h :: h in HEADERS ==>
      (h in XCOLS && h !in YCOLS && h !in CCOLS) ||
      (h !in XCOLS && h in YCOLS && h !in CCOLS) ||
      (h !in XCOLS && h !in YCOLS && h in CCOLS)
    ensures forall h :: h in XCOLS || h in YCOLS || h in CCOLS ==> h in HEADERS
    ensures |XCOLS| + |YCOLS| + |CCOLS| == |HEADERS|
  {
    HeadersCount();
    ColumnLists();
    PointsUntagged();
    SelectMembers(HEADERS, "_x");
    SelectMembers(HEADERS, "_y");
    SelectMembers(HEADERS, "_cfd");
    forall h | h in HEADERS
      ensures (h in XCOLS && h !in YCOLS && h !in CCOLS) ||
              (h !in XCOLS && h in YCOLS && h !in CCOLS) ||
              (h !in XCOLS && h !in YCOLS && h in CCOLS)
    {
      var p := HeaderPoint(POINTS, h);
      TagsOfHeader(p);
    }
  }

  /** Every generated name is some point's name with one of the three tags appended. */
  lemma {:induction false} HeaderPoint(ps: seq<string>, h: string) returns (p: string)
    requires h in HeadersOf(ps)
    ensures p in ps && (h == p + "_x" || h == p + "_y" || h == p + "_cfd")
  {
    if h == ps[0] + "_x" || h == ps[0] + "_y" || h == ps[0] + "_cfd" {
      p := ps[0];
    } else {
      p := HeaderPoint(ps[1..], h);
    }
  }

  lemma {:induction false} RepeatedShape(cs: seq<string>)
    ensures |Repeated(cs)| == 5 * |cs|
    ensures forall i :: 0 <= i < 5 * |cs| ==> Repeated(cs)[i] == DropLast(cs[i / 5], 4)
  {
    if cs != [] {
      RepeatedShape(cs[1..]);
      forall i | 5 <= i < 5 * |cs|
        ensures Repeated(cs)[i] == DropLast(cs[i / 5], 4)
      {
        assert Repeated(cs)[i] == Repeated(cs[1..])[i - 5];
        assert (i - 5) / 5 == i / 5 - 1;
      }
    }
  }

  lemma {:induction false} CycledShape(cs: seq<string>)
    ensures |Cycled(cs)| == 5 * |cs|
    ensures forall i :: 0 <= i < 5 * |cs| ==> Cycled(cs)[i] == STAT_LABELS[i % 5]
  {
    if cs != [] {
      CycledShape(cs[1..]);
      forall i | 5 <= i < 5 * |cs|
        ensures Cycled(cs)[i] == STAT_LABELS[i % 5]
      {
        assert Cycled(cs)[i] == Cycled(cs[1..])[i - 5];
        assert (i - 5) % 5 == i % 5;
      }
    }
  }

  /** HEAD1 and HEAD2 both have |INFO_LS| + 1 + 5 * 14 = 78 entries; after the information columns
      HEAD1 repeats each point name five times and HEAD2 cycles the five statistic labels. */
  lemma StatisticsHeaders()
    ensures |HEAD1| == |HEAD2| == |INFO_LS| + 1 + 5 * |CCOLS| == 78
    ensures HEAD1[..|INFO_LS|] == INFO_LS && HEAD1[|INFO_LS|] == "frame"
    ensures forall i :: 0 <= i <= |INFO_LS| ==> HEAD2[i] == "-"
    ensures forall i :: 8 <= i < 78 ==> HEAD1[i] == POINTS[(i - 8) / 5] && HEAD2[i] == STAT_LABELS[(i - 8) % 5]
  {
    ColumnLists();
    RepeatedShape(CCOLS);
    CycledShape(CCOLS);
    forall i | 8 <= i < 78
      ensures HEAD1[i] == POINTS[(i - 8) / 5] && HEAD2[i] == STAT_LABELS[(i - 8) % 5]
    {
      assert HEAD1[i] == Repeated(CCOLS)[i - 8];
      assert HEAD2[i] == Cycled(CCOLS)[i - 8];
      var c := POINTS[(i - 8) / 5] + "_cfd";
      assert c[..|c| - 4] == POINTS[(i - 8) / 5];
    }
  }
}
