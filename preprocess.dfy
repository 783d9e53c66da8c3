/** The path bookkeeping of video preprocessing (touchscreen_toolbox/pose_estimation/preprocess.py):
    each step that rewrites the video records itself in `vid_info["prep"]` and moves
    `vid_info["target_path"]` to a name with its suffix (`_r` rescaled, `_b` brightened, `_c` cut)
    put in front of the extension. The video work itself (ffprobe, rescaling, gamma correction,
    cutting) is not modelled: what it measures comes in as parameters. */
module Preprocess {
  import opened Wrappers
  import opened Strings
  import opened Config
  import VideoInfo

  /** The endings of a video that preprocessing has already produced. */
  const P_SUFFIX: seq<string> := ["_b.mp4", "_c.mp4"]

  /** `is_preprocess(name)`: the name ends with one of P_SUFFIX. */
  predicate IsPreprocess(name: string)
    ensures IsPreprocess(name) ==> EndsWith(name, ".mp4")
  {
    exists k :: 0 <= k < |P_SUFFIX| && EndsWith(name, P_SUFFIX[k])
  }

  /** Exactly the names ending in `_b.mp4` or `_c.mp4` are recognised. */
  lemma IsPreprocessSuffixes(name: string)
    ensures IsPreprocess(name) <==> EndsWith(name, "_b.mp4") || EndsWith(name, "_c.mp4")
  {
    if EndsWith(name, "_b.mp4") {
      assert EndsWith(name, P_SUFFIX[0]);
    }
    if EndsWith(name, "_c.mp4") {
      assert EndsWith(name, P_SUFFIX[1]);
    }
  }

  /** A video that was only rescaled (ending `_r.mp4`) is not recognised as preprocessed. */
  lemma RescaledNotRecognised(name: string)
    requires EndsWith(name, "_r.mp4")
    ensures !IsPreprocess(name)
  {
    IsPreprocessSuffixes(name);
    var n := |name|;
    var tail := name[n - 6..];
    assert tail == "_r.mp4";
    assert tail != "_b.mp4" by {
      assert tail[1] != "_b.mp4"[1];
    }
    assert tail != "_c.mp4" by {
      assert tail[1] != "_c.mp4"[1];
    }
  }

  /** `add_suffix`, on the two strings it reads: the path without its last `|fmt|` characters, then
      the suffix, then the format. Python's `s[:-0]` is empty, so an empty format leaves only the
      suffix. */
  function AddSuffix(target: string, fmt: string, suffix: string): (r: string)
    ensures EndsWith(r, suffix + fmt)
  {
    DropLast(target, |fmt|) + suffix + fmt
  }

  /** When the format really ends the path, the suffix goes just before it: the stem is kept, the
      result ends with suffix and format, and it is longer by the suffix. */
  lemma AddSuffixBeforeFormat(target: string, fmt: string, suffix: string)
    requires fmt != [] && EndsWith(target, fmt)
    ensures var r := AddSuffix(target, fmt, suffix); var stem := |target| - |fmt|;
      |r| == |target| + |suffix| && EndsWith(r, suffix + fmt) &&
      r[..stem] == target[..stem] && r == target[..stem] + suffix + fmt
  {
    var r := AddSuffix(target, fmt, suffix);
    var stem := |target| - |fmt|;
    assert DropLast(target, |fmt|) == target[..stem];
    assert r[|r| - |suffix + fmt|..] == suffix + fmt;
  }

  /** With an empty format the whole path is lost and only the suffix is returned. */
  lemma AddSuffixEmptyFormat(target: string, suffix: string)
    ensures AddSuffix(target, "", suffix) == suffix
  {
    assert DropLast(target, 0) == "";
  }

  /** Taking the suffix and format back off, and putting the format back, gives the path again. */
  lemma AddSuffixUndone(target: string, fmt: string, suffix: string)
    requires fmt != [] && EndsWith(target, fmt)
    ensures DropLast(AddSuffix(target, fmt, suffix), |suffix| + |fmt|) + fmt == target
  {
    var stem := |target| - |fmt|;
    AddSuffixBeforeFormat(target, fmt, suffix);
    var r := AddSuffix(target, fmt, suffix);
    assert DropLast(r, |suffix| + |fmt|) == r[..stem];
    assert target == target[..stem] + target[stem..];
  }

  /** Adding two suffixes one after the other puts them in that order before the format. */
  lemma AddSuffixTwice(target: string, fmt: string, s1: string, s2: string)
    requires fmt != [] && EndsWith(target, fmt)
    ensures AddSuffix(AddSuffix(target, fmt, s1), fmt, s2) == target[..|target| - |fmt|] + s1 + s2 + fmt
  {
    AddSuffixBeforeFormat(target, fmt, s1);
    var r := AddSuffix(target, fmt, s1);
    AddSuffixBeforeFormat(r, fmt, s2);
    assert r[..|r| - |fmt|] == target[..|target| - |fmt|] + s1;
  }

  /** A brightened or cut `.mp4` video gets a name that `is_preprocess` recognises. */
  lemma SuffixedRecognised(target: string, suffix: string)
    requires suffix == "_b" || suffix == "_c"
    ensures IsPreprocess(AddSuffix(target, ".mp4", suffix))
  {
    var r := AddSuffix(target, ".mp4", suffix);
    assert r == DropLast(target, 4) + (suffix + ".mp4");
    assert r[|r| - 6..] == suffix + ".mp4";
    IsPreprocessSuffixes(r);
  }

  // --- the steps on `vid_info` ---------------------------------------------------------

  /** How a step ends: it returns (None), or raises the named exception. */
  datatype Outcome = Returned | Raised(error: string)

  /** `add_suffix(vid_info, suffix)` on the dictionary: the new path, or the exception the lookups
      raise. Both keys are looked up before the strings are used, so a missing key wins over a value
      of the wrong kind. */
  function SuffixedTarget(m: VideoInfo.Info, suffix: string): (r: Result)
    ensures r.Ok? <==> "target_path" in m && "format" in m && m["target_path"].Text? && m["format"].Text?
    ensures r.Ok? ==> r.path == AddSuffix(m["target_path"].s, m["format"].s, suffix)
    ensures r.Failed? ==> r.error == (if "target_path" !in m || "format" !in m then "KeyError" else "TypeError")
  {
    if "target_path" !in m || "format" !in m then Failed("KeyError")
    else if !m["target_path"].Text? || !m["format"].Text? then Failed("TypeError")
    else Ok(AddSuffix(m["target_path"].s, m["format"].s, suffix))
  }

  datatype Result = Ok(path: string) | Failed(error: string)

  /** `vid_info["prep"].append(step)`: a missing key raises KeyError, a value that is not a list
      raises AttributeError. */
  function Appended(m: VideoInfo.Info, step: string): (r: (Outcome, VideoInfo.Info))
    ensures r.0 == Returned <==> "prep" in m && m["prep"].Steps?
    ensures r.0 == Returned ==> r.1 == m["prep" := VideoInfo.Steps(m["prep"].items + [step])]
    ensures r.0.Raised? ==> r.1 == m
  {
    if "prep" !in m then (Raised("KeyError"), m)
    else if !m["prep"].Steps? then (Raised("AttributeError"), m)
    else (Returned, m["prep" := VideoInfo.Steps(m["prep"].items + [step])])
  }

  /** `resolution(vid_info)`, with `probed` the (height, width) ffprobe reports for the target
      video, None when it has no video stream. A video not at RESOLUTION gets the `_r` name and the
      step `"r"`; the path is rewritten before `prep` is looked up. */
  function ResolutionUpdate(m: VideoInfo.Info, probed: Option<(int, int)>): (r: (Outcome, VideoInfo.Info))
    ensures forall k :: k in r.1 <==> k in m
    ensures forall k :: k in m && k != "prep" && k != "target_path" ==> r.1[k] == m[k]
  {
    if "target_path" !in m then (Raised("KeyError"), m)
    else if probed.None? then (Raised("TypeError"), m)
    else if probed.value.0 == RESOLUTION_HEIGHT && probed.value.1 == RESOLUTION_WIDTH then (Returned, m)
    else
      match SuffixedTarget(m, "_r")
      case Failed(e) => (Raised(e), m)
      case Ok(p) => Appended(m["target_path" := VideoInfo.Text(p)], "r")
  }

  /** `brightness(vid_info)`, with `level` the median brightness of the first frames. A video no
      brighter than B_THRESHOLD gets the `_b` name and the step `"b"`. */
  function BrightnessUpdate(m: VideoInfo.Info, level: real): (r: (Outcome, VideoInfo.Info))
    ensures forall k :: k in r.1 <==> k in m
    ensures forall k :: k in m && k != "prep" && k != "target_path" ==> r.1[k] == m[k]
  {
    if "target_path" !in m then (Raised("KeyError"), m)
    else if !(level <= B_THRESHOLD as real) then (Returned, m)
    else
      match SuffixedTarget(m, "_b")
      case Failed(e) => (Raised(e), m)
      case Ok(p) => Appended(m["target_path" := VideoInfo.Text(p)], "b")
  }

  /** `preprocess_video(vid_info)`: `prep` starts empty, then the resolution step, then the
      brightness step. */
  function PreprocessUpdate(m: VideoInfo.Info, probed: Option<(int, int)>, level: real): (r: (Outcome, VideoInfo.Info))
    ensures forall k :: k in r.1 <==> k in m || k == "prep"
    ensures forall k :: k in m && k != "prep" && k != "target_path" ==> r.1[k] == m[k]
  {
    var (o, m1) := ResolutionUpdate(m["prep" := VideoInfo.Steps([])], probed);
    if o.Raised? then (o, m1) else BrightnessUpdate(m1, level)
  }

  /** After the `except KeyError` of `cut_video`: the warning looks up `path`, which raises again
      when it is missing. */
  function Caught(m: VideoInfo.Info): (r: (Outcome, VideoInfo.Info))
    ensures r.1 == m && (r.0 == Returned <==> "path" in m)
  {
    if "path" in m then (Returned, m) else (Raised("KeyError"), m)
  }

  /** `start, end = vid_info["time"]`: Python unpacks any value of exactly two items, whatever
      they are. A string or list of another length is a ValueError; a number is not iterable, a
      TypeError. */
  function Unpack(v: VideoInfo.Value): (r: Outcome)
    ensures r == Returned <==>
      v.Window? || v.FrameSpan? || (v.Text? && |v.s| == 2) || (v.Steps? && |v.items| == 2)
    ensures r.Raised? ==> r.error == (if v.Number? then "TypeError" else "ValueError")
  {
    match v
    case Window(_, _) => Returned
    case FrameSpan(_, _) => Returned
    case Text(s) => if |s| == 2 then Returned else Raised("ValueError")
    case Steps(items) => if |items| == 2 then Returned else Raised("ValueError")
    case Number(_) => Raised("TypeError")
  }

  /** `cut_video(vid_info)`. Any KeyError inside the `try` (no `time`, no `format`, no `path`, no
      `prep`) is caught and changes nothing; `"c"` is appended before the path is moved. */
  function CutUpdate(m: VideoInfo.Info): (r: (Outcome, VideoInfo.Info))
    ensures forall k :: k in r.1 <==> k in m
    ensures forall k :: k in m && k != "prep" && k != "target_path" ==> r.1[k] == m[k]
    ensures "target_path" in m && "time" in m && Unpack(m["time"]).Raised? ==> r == (Unpack(m["time"]), m)
  {
    if "target_path" !in m then (Raised("KeyError"), m)
    else if "time" !in m then Caught(m)
    else if Unpack(m["time"]).Raised? then (Unpack(m["time"]), m)
    else
      match SuffixedTarget(m, "_c")
      case Failed(e) => if e == "KeyError" then Caught(m) else (Raised(e), m)
      case Ok(p) =>
        if "path" !in m then Caught(m)
        else
          var (o, m1) := Appended(m, "c");
          if o == Returned then (Returned, m1["target_path" := VideoInfo.Text(p)])
          else if o.error == "KeyError" then Caught(m)
          else (o, m)
  }

  // --- the steps as they run on a VidInfo ----------------------------------------------

  method Resolution(v: VideoInfo.VidInfo, probed: Option<(int, int)>) returns (r: Outcome)
    modifies v
    ensures (r, v.entries) == ResolutionUpdate(old(v.entries), probed)
  {
    if "target_path" !in v.entries {
      return Raised("KeyError");
    }
    if probed.None? {
      return Raised("TypeError");
    }
    var (height, width) := probed.value;
    if height != RESOLUTION_HEIGHT || width != RESOLUTION_WIDTH {
      var t := SuffixedTarget(v.entries, "_r");
      if t.Failed? {
        return Raised(t.error);
      }
      v.entries := v.entries["target_path" := VideoInfo.Text(t.path)];
      r := Append(v, "r");
      return;
    }
    return Returned;
  }

  method Brightness(v: VideoInfo.VidInfo, level: real) returns (r: Outcome)
    modifies v
    ensures (r, v.entries) == BrightnessUpdate(old(v.entries), level)
  {
    if "target_path" !in v.entries {
      return Raised("KeyError");
    }
    if level <= B_THRESHOLD as real {
      var t := SuffixedTarget(v.entries, "_b");
      if t.Failed? {
        return Raised(t.error);
      }
      v.entries := v.entries["target_path" := VideoInfo.Text(t.path)];
      r := Append(v, "b");
      return;
    }
    return Returned;
  }

  /** `vid_info["prep"].append(step)` in place. */
  method Append(v: VideoInfo.VidInfo, step: string) returns (r: Outcome)
    modifies v
    ensures (r, v.entries) == Appended(old(v.entries), step)
  {
    if "prep" !in v.entries {
      return Raised("KeyError");
    }
    if !v.entries["prep"].Steps? {
      return Raised("AttributeError");
    }
    v.entries := v.entries["prep" := VideoInfo.Steps(v.entries["prep"].items + [step])];
    return Returned;
  }

  method PreprocessVideo(v: VideoInfo.VidInfo, probed: Option<(int, int)>, level: real) returns (r: Outcome)
    modifies v
    ensures (r, v.entries) == PreprocessUpdate(old(v.entries), probed, level)
  {
    v.entries := v.entries["prep" := VideoInfo.Steps([])];
    r := Resolution(v, probed);
    if r.Raised? {
      return;
    }
    r := Brightness(v, level);
  }

  method CutVideo(v: VideoInfo.VidInfo) returns (r: Outcome)
    modifies v
    ensures (r, v.entries) == CutUpdate(old(v.entries))
  {
    if "target_path" !in v.entries {
      return Raised("KeyError");
    }
    if "time" in v.entries && Unpack(v.entries["time"]).Raised? {
      return Unpack(v.entries["time"]);
    }
    var target: Result := Failed("KeyError");
    if "time" in v.entries {
      target := SuffixedTarget(v.entries, "_c");
      if target.Failed? && target.error != "KeyError" {
        return Raised(target.error);
      }
    }
    if target.Ok? && "path" in v.entries {
      ghost var m := v.entries;
      r := Append(v, "c");
      if r == Returned {
        v.entries := v.entries["target_path" := VideoInfo.Text(target.path)];
        return;
      }
      if r.error != "KeyError" {
        return;
      }
      assert v.entries == m;
    }
    if "path" in v.entries {
      return Returned;
    }
    return Raised("KeyError");
  }

  // --- what the steps promise -----------------------------------------------------------

  /** The dictionary keys the steps touch are five different strings. */
  lemma KeysDistinct()
    ensures "prep" != "target_path" && "prep" != "format" && "prep" != "time" && "prep" != "path"
    ensures "target_path" != "format" && "target_path" != "time" && "target_path" != "path"
  {
    assert "prep"[0] != "time"[0] && "prep"[1] != "path"[1];
    assert |"prep"| != |"target_path"| && |"prep"| != |"format"| && |"target_path"| != |"format"|;
    assert |"target_path"| != |"time"| && |"target_path"| != |"path"|;
  }

  /** The resolution check fails: the video is not at RESOLUTION. */
  predicate Rescale(probed: (int, int)) {
    probed.0 != RESOLUTION_HEIGHT || probed.1 != RESOLUTION_WIDTH
  }

  /** The brightness check passes: the video is no brighter than B_THRESHOLD. */
  predicate Dark(level: real) {
    level <= B_THRESHOLD as real
  }

  /** The dictionary has both strings `add_suffix` reads and a list of steps. */
  predicate Ready(m: VideoInfo.Info) {
    "target_path" in m && "format" in m && "prep" in m &&
    m["target_path"].Text? && m["format"].Text? && m["prep"].Steps?
  }

  /** What a step that applies leaves: the suffixed path and the step recorded. */
  function Applied(m: VideoInfo.Info, suffix: string, step: string): (r: VideoInfo.Info)
    requires Ready(m)
    ensures Ready(r) && r["format"] == m["format"]
    ensures r["prep"] == VideoInfo.Steps(m["prep"].items + [step])
    ensures r["target_path"] == VideoInfo.Text(AddSuffix(m["target_path"].s, m["format"].s, suffix))
    ensures forall k :: k != "prep" && k != "target_path" ==> (k in r <==> k in m) && (k in m ==> r[k] == m[k])
  {
    KeysDistinct();
    m["target_path" := VideoInfo.Text(AddSuffix(m["target_path"].s, m["format"].s, suffix))]
     ["prep" := VideoInfo.Steps(m["prep"].items + [step])]
  }

  /** A resolution step that returns either applied (the video was not at RESOLUTION) or left the
      dictionary alone. */
  lemma ResolutionReturned(m: VideoInfo.Info, probed: Option<(int, int)>)
    requires ResolutionUpdate(m, probed).0 == Returned
    ensures probed.Some? && "target_path" in m
    ensures Rescale(probed.value) ==> Ready(m) && ResolutionUpdate(m, probed).1 == Applied(m, "_r", "r")
    ensures !Rescale(probed.value) ==> ResolutionUpdate(m, probed).1 == m
  {
    KeysDistinct();
  }

  /** A brightness step that returns either applied (the video was dark) or left the dictionary
      alone. */
  lemma BrightnessReturned(m: VideoInfo.Info, level: real)
    requires BrightnessUpdate(m, level).0 == Returned
    ensures "target_path" in m
    ensures Dark(level) ==> Ready(m) && BrightnessUpdate(m, level).1 == Applied(m, "_b", "b")
    ensures !Dark(level) ==> BrightnessUpdate(m, level).1 == m
  {
    KeysDistinct();
  }

  /** A `preprocess_video` that returns has recorded the steps it applied in order, a subsequence of
      `["r", "b"]`. */
  lemma PreprocessRecorded(m: VideoInfo.Info, probed: Option<(int, int)>, level: real)
    requires PreprocessUpdate(m, probed, level).0 == Returned
    ensures probed.Some? && "target_path" in m
    ensures var m' := PreprocessUpdate(m, probed, level).1;
      "prep" in m' &&
      m'["prep"] == VideoInfo.Steps((if Rescale(probed.value) then ["r"] else []) + (if Dark(level) then ["b"] else []))
  {
    KeysDistinct();
    var m0 := m["prep" := VideoInfo.Steps([])];
    ResolutionReturned(m0, probed);
    var m1 := ResolutionUpdate(m0, probed).1;
    assert m1["prep"] == VideoInfo.Steps(if Rescale(probed.value) then ["r"] else []);
    BrightnessReturned(m1, level);
  }

  /** The path is a string that the format really ends. */
  predicate FormatEnds(m: VideoInfo.Info) {
    "target_path" in m && "format" in m && m["target_path"].Text? && m["format"].Text? &&
    m["format"].s != [] && EndsWith(m["target_path"].s, m["format"].s)
  }

  /** ... and has put their suffixes in the same order before the format, when the format ends the
      path. */
  lemma PreprocessPath(m: VideoInfo.Info, probed: Option<(int, int)>, level: real)
    requires PreprocessUpdate(m, probed, level).0 == Returned && FormatEnds(m)
    ensures probed.Some?
    ensures var t, f := m["target_path"].s, m["format"].s;
      PreprocessUpdate(m, probed, level).1["target_path"] == VideoInfo.Text(t[..|t| - |f|] +
        (if Rescale(probed.value) then "_r" else "") + (if Dark(level) then "_b" else "") + f)
  {
    PreprocessTarget(m, probed, level);
    var t, f := m["target_path"].s, m["format"].s;
    var rescale, dark := Rescale(probed.value), Dark(level);
    ChainBeforeFormat(t, f, rescale, dark);
    if !rescale && !dark {
      assert t == t[..|t| - |f|] + f;
    }
  }

  /** The path after the resolution step (when `rescale`) and the brightness step (when `dark`). */
  function Chain(t: string, f: string, rescale: bool, dark: bool): (r: string)
    ensures !rescale && !dark ==> r == t
    ensures dark ==> EndsWith(r, "_b" + f)
    ensures rescale && !dark ==> EndsWith(r, "_r" + f)
  {
    var t1 := if rescale then AddSuffix(t, f, "_r") else t;
    if dark then AddSuffix(t1, f, "_b") else t1
  }

  lemma ChainBeforeFormat(t: string, f: string, rescale: bool, dark: bool)
    requires f != [] && EndsWith(t, f)
    ensures Chain(t, f, rescale, dark) ==
      t[..|t| - |f|] + (if rescale then "_r" else "") + (if dark then "_b" else "") + f
  {
    var stem := t[..|t| - |f|];
    assert t == stem + f by {
      assert t == t[..|t| - |f|] + t[|t| - |f|..];
    }
    if rescale && dark {
      AddSuffixTwice(t, f, "_r", "_b");
    } else if rescale {
      AddSuffixBeforeFormat(t, f, "_r");
    } else if dark {
      AddSuffixBeforeFormat(t, f, "_b");
    }
  }

  /** The path a returning `preprocess_video` leaves is the chained one. */
  lemma PreprocessTarget(m: VideoInfo.Info, probed: Option<(int, int)>, level: real)
    requires PreprocessUpdate(m, probed, level).0 == Returned
    ensures probed.Some? && "target_path" in m
    ensures var rescale, dark := Rescale(probed.value), Dark(level);
      var m' := PreprocessUpdate(m, probed, level).1;
      "target_path" in m' &&
      ((rescale || dark) ==>
        ("format" in m && m["format"].Text? && m["target_path"].Text? &&
         m'["target_path"] == VideoInfo.Text(Chain(m["target_path"].s, m["format"].s, rescale, dark)))) &&
      (!rescale && !dark ==> m'["target_path"] == m["target_path"])
  {
    KeysDistinct();
    var m0 := m["prep" := VideoInfo.Steps([])];
    ResolutionReturned(m0, probed);
    var m1 := ResolutionUpdate(m0, probed).1;
    BrightnessReturned(m1, level);
    if Rescale(probed.value) {
      assert m1["format"] == m["format"];
    }
  }

  /** ... and has changed no key but `prep` and `target_path`. */
  lemma PreprocessKeeps(m: VideoInfo.Info, probed: Option<(int, int)>, level: real)
    requires PreprocessUpdate(m, probed, level).0 == Returned
    ensures var m' := PreprocessUpdate(m, probed, level).1;
      forall k :: k != "prep" && k != "target_path" ==> (k in m' <==> k in m) && (k in m ==> m'[k] == m[k])
  {
    var m0 := m["prep" := VideoInfo.Steps([])];
    ResolutionReturned(m0, probed);
    var m1 := ResolutionUpdate(m0, probed).1;
    BrightnessReturned(m1, level);
  }

  /** Without a `time` entry `cut_video` leaves the dictionary as it was (it only warns). */
  lemma CutWithoutTime(m: VideoInfo.Info)
    requires "target_path" in m && "path" in m && "time" !in m
    ensures CutUpdate(m) == (Returned, m)
  {
  }

  /** With a two-item time, both strings and a list of steps, `cut_video` appends `"c"` and moves the path
      to its `_c` name, which `is_preprocess` recognises for an `.mp4` video; nothing else changes.
      */
  lemma CutApplied(m: VideoInfo.Info)
    requires "target_path" in m && "path" in m && "time" in m && Unpack(m["time"]) == Returned
    requires "format" in m && m["target_path"].Text? && m["format"].Text?
    requires "prep" in m && m["prep"].Steps?
    ensures var (o, m') := CutUpdate(m);
      o == Returned && m'["prep"] == VideoInfo.Steps(m["prep"].items + ["c"]) &&
      m'["target_path"] == VideoInfo.Text(AddSuffix(m["target_path"].s, m["format"].s, "_c")) &&
      (m["format"].s == ".mp4" ==> IsPreprocess(m'["target_path"].s)) &&
      forall k :: k != "prep" && k != "target_path" ==> (k in m' <==> k in m) && (k in m ==> m'[k] == m[k])
  {
    KeysDistinct();
    SuffixedRecognised(m["target_path"].s, "_c");
  }

  /** A KeyError inside the `try` of `cut_video` leaves the dictionary as it was: a `cut_video`
      that does not append `"c"` does not move the path either. */
  lemma CutAtomic(m: VideoInfo.Info)
    ensures var (o, m') := CutUpdate(m);
      m' == m || (o == Returned && "prep" in m && m["prep"].Steps? && m'["prep"] == VideoInfo.Steps(m["prep"].items + ["c"]))
  {
    KeysDistinct();
  }
}
