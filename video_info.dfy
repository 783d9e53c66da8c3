/** The per-video information of touchscreen_toolbox/video_info.py: the fields decoded from a
    video's name, the cut window looked up in a time table, the merge of saved information with
    the current one, and the row of information the statistics file starts with. */
module VideoInfo {
  import opened Wrappers
  import opened Strings
  import opened Config
  import Arithmetic

  /** The values a `vid_info` dictionary holds. */
  datatype Value =
    | Text(s: string)                  // paths, names and the decoded name fields
    | Number(x: real)                  // `length` (seconds) and `fps`
    | Window(start: real, end: real)   // `time`: the cut window in seconds
    | FrameSpan(first: int, last: int) // `frames`: the cut window in frames
    | Steps(items: seq<string>)        // `prep`: the preprocessing steps applied

  type Info = map<string, Value>

  // --- the name pattern ---------------------------------------------------------

  /** `\d`, for the ASCII digits only. */
  predicate IsDigit(c: char) { '0' <= c <= '9' }

  /** `\s` of a `str` pattern: the characters `str.isspace()` accepts, which besides the ASCII
      whitespace are the information separators U+001C..U+001F, NEL, the no-break spaces and the
      Unicode space separators. */
  predicate IsSpace(c: char) {
    ('\U{0009}' <= c <= '\U{000D}') || ('\U{001C}' <= c <= '\U{0020}') ||
    c == '\U{0085}' || c == '\U{00A0}' || c == '\U{1680}' || ('\U{2000}' <= c <= '\U{200A}') ||
    c == '\U{2028}' || c == '\U{2029}' || c == '\U{202F}' || c == '\U{205F}' || c == '\U{3000}'
  }

  /** `\S`. */
  predicate IsNonSpace(c: char) { !IsSpace(c) }

  predicate AllOf(s: string, p: char -> bool) {
    forall k :: 0 <= k < |s| ==> p(s[k])
  }

  /** The length of the longest prefix of `s` whose characters satisfy `p`: a greedy `p*` of a
      regular expression. The run cannot be cut short, because the character after it fails `p`. */
  function Run(s: string, p: char -> bool): (j: nat)
    ensures j <= |s|
    ensures forall k :: 0 <= k < j ==> p(s[k])
    ensures j == |s| || !p(s[j])
  {
    if s != [] && p(s[0]) then 1 + Run(s[1..], p) else 0
  }

  /** A run of `p`-characters followed by text that does not start with one is exactly the run. */
  lemma RunOf(x: string, y: string, p: char -> bool)
    requires AllOf(x, p) && (y == [] || !p(y[0]))
    ensures Run(x + y, p) == |x|
  {
    var s := x + y;
    assert forall k :: 0 <= k < |x| ==> s[k] == x[k];
    assert y != [] ==> s[|x|] == y[0];
  }

  /** `\d\d-\d\d` at position `i` of `s`. */
  predicate ClockAt(s: string, i: nat) {
    i + 5 <= |s| && IsDigit(s[i]) && IsDigit(s[i + 1]) && s[i + 2] == '-' && IsDigit(s[i + 3]) && IsDigit(s[i + 4])
  }

  /** `\d\d-\d\d-\d\d` at position `i` of `s`. */
  predicate DateAt(s: string, i: nat) {
    i + 8 <= |s| && ClockAt(s, i) && s[i + 5] == '-' && IsDigit(s[i + 6]) && IsDigit(s[i + 7])
  }

  /** ` - ` at position `i` of `s`. */
  predicate DashAt(s: string, i: nat) {
    i + 3 <= |s| && s[i] == ' ' && s[i + 1] == '-' && s[i + 2] == ' '
  }

  /** The fixed part of PATTERN between the chamber group and the optional whitespace,
      ` - \d\d-\d\d-\d\d \d\d-\d\d`, at the start of `s`. */
  predicate DateClockAhead(s: string) {
    DashAt(s, 0) && DateAt(s, 3) && 11 < |s| && s[11] == ' ' && ClockAt(s, 12)
  }

  /** `re.match(PATTERN, s).groups()`, or None when the name does not match. Each greedy group
      ends at the first character its class refuses, so no backtracking is needed: `(\d+) - `
      and `(\S+) - ` can only be followed by their separators at the end of their run, and
      `\s?` takes one whitespace character whenever there is one. */
  function MatchName(s: string): (r: Option<seq<string>>)
    ensures r.Some? ==> |r.value| == 5
  {
    var a := Run(s, IsDigit);
    if a == 0 || !DashAt(s, a) then None else MatchChamber(s[..a], s[a + 3..])
  }

  /** The rest of the match once the id group and its separator are read. */
  function MatchChamber(id: string, s: string): (r: Option<seq<string>>)
    ensures r.Some? ==> |r.value| == 5 && r.value[0] == id
  {
    var b := Run(s, IsNonSpace);
    if b == 0 || !DateClockAhead(s[b..]) then None else Some([id, s[..b]] + DateClock(s[b..]))
  }

  /** The date, clock and suffix groups, from the separator after the chamber on. */
  function DateClock(s: string): (r: seq<string>)
    requires |s| >= 17
    ensures |r| == 3
  {
    [s[3..11], s[12..17], Suffix(s[17..])]
  }

  /** `\s?(\S*)`: one optional whitespace character, then the suffix group. */
  function Suffix(s: string): string {
    var t := if s != [] && IsSpace(s[0]) then s[1..] else s;
    t[..Run(t, IsNonSpace)]
  }

  /** Five strings the five groups of PATTERN can capture. */
  predicate Groups(g: seq<string>) {
    |g| == 5 &&
    g[0] != [] && AllOf(g[0], IsDigit) &&
    g[1] != [] && AllOf(g[1], IsNonSpace) &&
    |g[2]| == 8 && DateAt(g[2], 0) &&
    |g[3]| == 5 && ClockAt(g[3], 0) &&
    AllOf(g[4], IsNonSpace)
  }

  /** A name written the way PATTERN reads it: id, chamber, date and clock, `ws` (nothing or one
      whitespace character), suffix, and whatever text follows. */
  function Layout(g: seq<string>, ws: string, rest: string): string
    requires |g| == 5
  {
    g[0] + (" - " + (g[1] + DateClockLayout(g, ws, rest)))
  }

  function DateClockLayout(g: seq<string>, ws: string, rest: string): string
    requires |g| == 5
  {
    " - " + (g[2] + (" " + (g[3] + (ws + (g[4] + rest)))))
  }

  /** The conditions under which the text following a laid-out name leaves the groups as they are:
      it starts with whitespace, and an empty suffix with no whitespace before it ends the name. */
  predicate Ends(g: seq<string>, ws: string, rest: string)
    requires |g| == 5
  {
    |ws| <= 1 && AllOf(ws, IsSpace) && (rest == [] || IsSpace(rest[0])) &&
    (ws == [] && g[4] == [] ==> rest == [])
  }

  lemma SuffixLayout(g: seq<string>, ws: string, rest: string)
    requires Groups(g) && Ends(g, ws, rest)
    ensures Suffix(ws + (g[4] + rest)) == g[4]
  {
    var t := g[4] + rest;
    var s := ws + t;
    if ws != [] {
      assert IsSpace(ws[0]);
      assert s[0] == ws[0] && s[1..] == t;
    } else {
      assert s == t;
      if t != [] {
        assert g[4] != [] && t[0] == g[4][0] && IsNonSpace(g[4][0]);
      }
    }
    assert (if s != [] && IsSpace(s[0]) then s[1..] else s) == t;
    RunOf(g[4], rest, IsNonSpace);
    assert t[..|g[4]|] == g[4];
  }

  lemma DateClockMatch(g: seq<string>, ws: string, rest: string)
    requires Groups(g) && Ends(g, ws, rest)
    ensures DateClockAhead(DateClockLayout(g, ws, rest))
    ensures DateClock(DateClockLayout(g, ws, rest)) == g[2..]
  {
    DateClockShape(g, ws, rest);
    var t := DateClockLayout(g, ws, rest);
    var tail := ws + (g[4] + rest);
    assert t == " - " + (g[2] + (" " + (g[3] + tail)));
    assert t[3..11] == g[2];
    assert t[12..17] == g[3];
    assert |t| == 17 + |tail|;
    forall k | 0 <= k < |tail| ensures t[17 + k] == tail[k] {
    }
    assert t[17..] == tail;
    SuffixLayout(g, ws, rest);
  }

  lemma DateClockShape(g: seq<string>, ws: string, rest: string)
    requires Groups(g)
    ensures DateClockAhead(DateClockLayout(g, ws, rest))
  {
    var t := DateClockLayout(g, ws, rest);
    var d, c := g[2], g[3];
    assert t == " - " + (d + (" " + (c + (ws + (g[4] + rest)))));
    assert t[0] == ' ' && t[1] == '-' && t[2] == ' ';
    assert t[3] == d[0] && t[4] == d[1] && t[5] == d[2] && t[6] == d[3];
    assert t[7] == d[4] && t[8] == d[5] && t[9] == d[6] && t[10] == d[7];
    assert t[11] == ' ';
    assert t[12] == c[0] && t[13] == c[1] && t[14] == c[2] && t[15] == c[3] && t[16] == c[4];
  }

  /** Every name laid out from well-formed groups matches, and gives back exactly those groups. */
  lemma MatchLayout(g: seq<string>, ws: string, rest: string)
    requires Groups(g) && Ends(g, ws, rest)
    ensures MatchName(Layout(g, ws, rest)) == Some(g)
  {
    var s1 := g[1] + DateClockLayout(g, ws, rest);
    var s := g[0] + (" - " + s1);
    ChamberLayout(g, ws, rest);
    RunOf(g[0], " - " + s1, IsDigit);
    DashJoin(g[0], s1);
    MatchNameAt(s, |g[0]|);
  }

  /** Text joined around a separator ` - ` splits back into its two sides. */
  lemma DashJoin(x: string, y: string)
    ensures DashAt(x + (" - " + y), |x|)
    ensures (x + (" - " + y))[..|x|] == x && (x + (" - " + y))[|x| + 3..] == y
  {
    var s := x + (" - " + y);
    assert s[|x|] == ' ' && s[|x| + 1] == '-' && s[|x| + 2] == ' ';
    forall k | 0 <= k < |y| ensures s[|x| + 3..][k] == y[k] {
    }
  }

  lemma ChamberLayout(g: seq<string>, ws: string, rest: string)
    requires Groups(g) && Ends(g, ws, rest)
    ensures MatchChamber(g[0], g[1] + DateClockLayout(g, ws, rest)) == Some(g)
  {
    var t := DateClockLayout(g, ws, rest);
    var s1 := g[1] + t;
    DateClockMatch(g, ws, rest);
    RunOf(g[1], t, IsNonSpace);
    assert s1[..|g[1]|] == g[1] && s1[|g[1]|..] == t;
    assert [g[0], g[1]] + g[2..] == g;
  }

  /** Conversely, a name that matches is laid out from its groups: the match takes nothing away
      but the text after the suffix. Together with MatchLayout this characterises MatchName. */
  lemma MatchParts(s: string) returns (ws: string, rest: string)
    requires MatchName(s).Some?
    ensures Groups(MatchName(s).value) && Ends(MatchName(s).value, ws, rest)
    ensures s == Layout(MatchName(s).value, ws, rest)
  {
    var a := IdParts(s);
    ws, rest := ChamberParts(s[..a], s[a + 3..]);
  }

  /** The id group of a name that matches, and the separator after it. */
  lemma IdParts(s: string) returns (a: nat)
    requires MatchName(s).Some?
    ensures 0 < a && a + 3 <= |s| && AllOf(s[..a], IsDigit)
    ensures MatchName(s) == MatchChamber(s[..a], s[a + 3..])
    ensures s == s[..a] + (" - " + s[a + 3..])
  {
    a := Run(s, IsDigit);
    MatchNameAt(s, a);
    DashSplit(s, a);
  }

  /** A separator ` - ` at `a` splits the text around it. */
  lemma DashSplit(s: string, a: nat)
    requires DashAt(s, a)
    ensures s == s[..a] + (" - " + s[a + 3..])
  {
    var x := s[..a] + (" - " + s[a + 3..]);
    forall k | 0 <= k < |s| ensures x[k] == s[k] {
      if a <= k < a + 3 {
        assert x[k] == " - "[k - a];
      }
    }
  }

  /** MatchName, once the length of the id group is known. */
  lemma MatchNameAt(s: string, a: nat)
    requires a == Run(s, IsDigit)
    ensures MatchName(s) == if a == 0 || !DashAt(s, a) then None else MatchChamber(s[..a], s[a + 3..])
  {
  }

  lemma Split(s: string, a: nat, k: nat)
    requires a + k <= |s|
    ensures s == s[..a] + (s[a..a + k] + s[a + k..])
  {
  }

  lemma ChamberParts(id: string, s1: string) returns (ws: string, rest: string)
    requires MatchChamber(id, s1).Some?
    ensures var g := MatchChamber(id, s1).value;
      g[1] != [] && AllOf(g[1], IsNonSpace) &&
      |g[2]| == 8 && DateAt(g[2], 0) && |g[3]| == 5 && ClockAt(g[3], 0) && AllOf(g[4], IsNonSpace) &&
      Ends(g, ws, rest) && s1 == g[1] + DateClockLayout(g, ws, rest)
  {
    var g := MatchChamber(id, s1).value;
    var b := Run(s1, IsNonSpace);
    var s2 := s1[b..];
    DateClockShapes(s2);
    ws, rest := DateClockParts(s2);
    var d := DateClock(s2);
    assert g == [id, s1[..b]] + d;
    assert g[2] == d[0] && g[3] == d[1] && g[4] == d[2];
    assert s2 == DateClockLayout(g, ws, rest);
    assert s1 == s1[..b] + s2;
  }

  /** The date and clock groups have their fixed shapes. */
  lemma DateClockShapes(s: string)
    requires DateClockAhead(s)
    ensures var d := DateClock(s);
      |d[0]| == 8 && DateAt(d[0], 0) && |d[1]| == 5 && ClockAt(d[1], 0)
  {
    var d := DateClock(s);
    assert d[0][0] == s[3] && d[0][1] == s[4] && d[0][2] == s[5] && d[0][3] == s[6];
    assert d[0][4] == s[7] && d[0][5] == s[8] && d[0][6] == s[9] && d[0][7] == s[10];
    assert d[1][0] == s[12] && d[1][1] == s[13] && d[1][2] == s[14] && d[1][3] == s[15] && d[1][4] == s[16];
  }

  /** The text from the separator after the chamber on is laid out from its groups. */
  lemma DateClockParts(s: string) returns (ws: string, rest: string)
    requires DateClockAhead(s)
    ensures var d := DateClock(s);
      |ws| <= 1 && AllOf(ws, IsSpace) && (rest == [] || IsSpace(rest[0])) && (ws == [] && d[2] == [] ==> rest == [])
    ensures var d := DateClock(s);
      s == " - " + (d[0] + (" " + (d[1] + (ws + (d[2] + rest)))))
  {
    var d := DateClock(s);
    var s3 := s[17..];
    ws, rest := SuffixParts(s3);
    assert s[..3] == " - ";
    DateClockFront(s);
    assert d == [s[3..11], s[12..17], Suffix(s3)];
    assert s == " - " + (d[0] + (" " + (d[1] + s3)));
  }

  /** The separator, date, space and clock in front of the suffix text `s[17..]`. */
  lemma DateClockFront(s: string)
    requires |s| >= 17 && s[..3] == " - " && s[11] == ' '
    ensures s == " - " + (s[3..11] + (" " + (s[12..17] + s[17..])))
  {
    assert s[12..] == s[12..17] + s[17..];
    assert s[11..] == [s[11]] + s[12..];
    assert s[3..] == s[3..11] + s[11..];
    assert s == s[..3] + s[3..];
  }

  lemma SuffixParts(s: string) returns (ws: string, rest: string)
    ensures |ws| <= 1 && AllOf(ws, IsSpace) && (rest == [] || IsSpace(rest[0]))
    ensures ws == [] && Suffix(s) == [] ==> rest == []
    ensures s == ws + (Suffix(s) + rest)
  {
    var t := if s != [] && IsSpace(s[0]) then s[1..] else s;
    ws := if s != [] && IsSpace(s[0]) then s[..1] else [];
    var f := Run(t, IsNonSpace);
    rest := t[f..];
    assert t == t[..f] + rest;
  }

  /** `dict(zip(keys, vals))`, the values as strings; a later key wins over an earlier one. */
  function Zip(keys: seq<string>, vals: seq<string>): (m: Info)
    requires |keys| == |vals|
    ensures forall k :: k in m <==> k in keys
  {
    if keys == [] then map[]
    else Zip(keys[..|keys| - 1], vals[..|vals| - 1])[keys[|keys| - 1] := Text(vals[|vals| - 1])]
  }

  /** With distinct keys, each key is mapped to the value in its own position. */
  lemma {:induction false} ZipAt(keys: seq<string>, vals: seq<string>, i: nat)
    requires |keys| == |vals| && i < |keys|
    requires forall j, k :: 0 <= j < k < |keys| ==> keys[j] != keys[k]
    ensures Zip(keys, vals)[keys[i]] == Text(vals[i])
  {
    var n := |keys| - 1;
    if i < n {
      assert keys[..n][i] == keys[i] && vals[..n][i] == vals[i];
      ZipAt(keys[..n], vals[..n], i);
    }
  }

  /** `decode_name(video_name)`: on a match, `(True, d)` with `d` mapping ELEMENTS to the groups
      with every `'-'` removed; otherwise `(False, {})`. */
  function DecodeName(name: string): (r: (bool, Info))
    ensures r.0 <==> MatchName(name).Some?
    ensures !r.0 ==> r.1 == map[]
    ensures r.0 ==> forall k :: k in r.1 <==> k in ELEMENTS
  {
    match MatchName(name)
    case None => (false, map[])
    case Some(g) => (true, Zip(ELEMENTS, Dashless(g)))
  }

  /** Each group with every `'-'` removed. */
  function Dashless(g: seq<string>): (r: seq<string>)
    ensures |r| == |g| && forall i :: 0 <= i < |g| ==> r[i] == Without(g[i], '-')
  {
    seq(|g|, i requires 0 <= i < |g| => Without(g[i], '-'))
  }

  /** The five ELEMENTS are different keys. */
  lemma ElementsDistinct()
    ensures forall j, k :: 0 <= j < k < |ELEMENTS| ==> ELEMENTS[j] != ELEMENTS[k]
  {
    assert ELEMENTS[0][0] == 'm' && ELEMENTS[1][0] == 'c' && ELEMENTS[2][0] == 'e' && ELEMENTS[4][0] == 's';
    assert ELEMENTS[3][0] == 'e' && ELEMENTS[2][4] == 'd' && ELEMENTS[3][4] == 't';
  }

  /** A name that matches is decoded into exactly the five ELEMENTS, each the dash-free group in its
      own position; one that does not match gives nothing. */
  lemma DecodeFields(name: string)
    ensures DecodeName(name).0 <==> MatchName(name).Some?
    ensures !DecodeName(name).0 ==> DecodeName(name).1 == map[]
    ensures DecodeName(name).0 ==>
      (forall k :: k in DecodeName(name).1 <==> k in ELEMENTS) &&
      forall i :: 0 <= i < 5 ==> DecodeName(name).1[ELEMENTS[i]] == Text(Without(MatchName(name).value[i], '-'))
  {
    if MatchName(name).Some? {
      var g := MatchName(name).value;
      assert DecodeName(name).1 == Zip(ELEMENTS, Dashless(g));
      ElementsDistinct();
      forall i | 0 <= i < 5 ensures DecodeName(name).1[ELEMENTS[i]] == Text(Without(g[i], '-')) {
        ZipAt(ELEMENTS, Dashless(g), i);
      }
    }
  }

  /** The groups of `"123 - B1 - 21-03-05 10-30"`. */
  lemma MatchExample()
    ensures MatchName("123 - B1 - 21-03-05 10-30") == Some(["123", "B1", "21-03-05", "10-30", ""])
  {
    var g := ["123", "B1", "21-03-05", "10-30", ""];
    assert DateAt(g[2], 0) && ClockAt(g[3], 0);
    assert Layout(g, "", "") == "123 - B1 - 21-03-05 10-30";
    MatchLayout(g, "", "");
  }

  /** A date group without its dashes is its six digits. */
  lemma DateWithout(s: string)
    requires |s| == 8 && DateAt(s, 0)
    ensures Without(s, '-') == [s[0], s[1], s[3], s[4], s[6], s[7]]
  {
    var c, d := s[..5], s[5..];
    assert s == c + d && ClockAt(c, 0);
    WithoutConcat(c, d, '-');
    ClockWithout(c);
    assert d[3..] == [] && d[0..] == d;
    WithoutAt(d, '-', 2);
    WithoutAt(d, '-', 1);
    WithoutAt(d, '-', 0);
    assert Without(d, '-') == [s[6], s[7]];
  }

  /** A clock group without its dash is its four digits. */
  lemma ClockWithout(s: string)
    requires |s| == 5 && ClockAt(s, 0)
    ensures Without(s, '-') == [s[0], s[1], s[3], s[4]]
  {
    assert s[5..] == [] && s[0..] == s;
    WithoutAt(s, '-', 4);
    WithoutAt(s, '-', 3);
    WithoutAt(s, '-', 2);
    WithoutAt(s, '-', 1);
    WithoutAt(s, '-', 0);
    assert Without(s[3..], '-') == [s[3], s[4]];
  }

  /** The groups of the example without their dashes. */
  lemma DashlessExample()
    ensures Dashless(["123", "B1", "21-03-05", "10-30", ""]) == ["123", "B1", "210305", "1030", ""]
  {
    var g, v := ["123", "B1", "21-03-05", "10-30", ""], ["123", "B1", "210305", "1030", ""];
    DateExample();
    ClockExample();
    NamesExample();
    assert Dashless(g)[0] == v[0] && Dashless(g)[1] == v[1] && Dashless(g)[2] == v[2];
    assert Dashless(g)[3] == v[3] && Dashless(g)[4] == v[4];
  }

  lemma DateExample()
    ensures Without("21-03-05", '-') == "210305"
  {
    assert DateAt("21-03-05", 0);
    DateWithout("21-03-05");
  }

  lemma ClockExample()
    ensures Without("10-30", '-') == "1030"
  {
    assert ClockAt("10-30", 0);
    ClockWithout("10-30");
  }

  lemma NamesExample()
    ensures Without("123", '-') == "123" && Without("B1", '-') == "B1" && Without("", '-') == ""
  {
    WithoutIdentity("123", '-');
    WithoutIdentity("B1", '-');
    WithoutIdentity("", '-');
  }

  /** Five values zipped with ELEMENTS, key by key. */
  lemma ElementsZip(v: seq<string>)
    requires |v| == 5
    ensures forall k :: k in Zip(ELEMENTS, v) <==> k in ELEMENTS
    ensures "mouse_id" in Zip(ELEMENTS, v) && Zip(ELEMENTS, v)["mouse_id"] == Text(v[0])
    ensures "chamber" in Zip(ELEMENTS, v) && Zip(ELEMENTS, v)["chamber"] == Text(v[1])
    ensures "exp_date" in Zip(ELEMENTS, v) && Zip(ELEMENTS, v)["exp_date"] == Text(v[2])
    ensures "exp_time" in Zip(ELEMENTS, v) && Zip(ELEMENTS, v)["exp_time"] == Text(v[3])
    ensures "suffix" in Zip(ELEMENTS, v) && Zip(ELEMENTS, v)["suffix"] == Text(v[4])
  {
    ElementsDistinct();
    ZipAt(ELEMENTS, v, 0);
    ZipAt(ELEMENTS, v, 1);
    ZipAt(ELEMENTS, v, 2);
    ZipAt(ELEMENTS, v, 3);
    ZipAt(ELEMENTS, v, 4);
  }

  /** `"123 - B1 - 21-03-05 10-30"` decodes to id 123, chamber B1, date 210305, time 1030 and an
      empty suffix. */
  lemma DecodeExample(name: string)
    requires name == "123 - B1 - 21-03-05 10-30"
    ensures var (ok, d) := DecodeName(name);
      ok && (forall k :: k in d <==> k in ELEMENTS) &&
      "mouse_id" in d && d["mouse_id"] == Text("123") && "chamber" in d && d["chamber"] == Text("B1") &&
      "exp_date" in d && d["exp_date"] == Text("210305") && "exp_time" in d && d["exp_time"] == Text("1030") &&
      "suffix" in d && d["suffix"] == Text("")
  {
    var v := ["123", "B1", "210305", "1030", ""];
    MatchExample();
    DashlessExample();
    assert DecodeName(name) == (true, Zip(ELEMENTS, v));
    ElementsZip(v);
  }

  // --- the cut window -------------------------------------------------------------

  /** Outcome of `get_time`: True, False (a `KeyError`, which it catches), or an exception it lets
      through, by name. */
  datatype TimeOutcome = Found | NotFound | Raised(error: string)

  /** The value of a run of decimal digits. */
  function DigitsValue(s: string): nat
    requires AllOf(s, IsDigit)
  {
    if s == [] then 0 else 10 * DigitsValue(s[..|s| - 1]) + (s[|s| - 1] as int - '0' as int)
  }

  /** What `int(v)` gives for a value: a string is read as a decimal integer literal (see
      ParseText), a number is truncated toward zero; anything else is the name of the exception it
      raises. */
  datatype Parsed = Int(n: int) | Failed(error: string)

  function ParseInt(v: Value): (r: Parsed)
    ensures v.Text? ==> r == ParseText(v.s)
    ensures v.Number? ==> (r.Int? &&
      (v.x >= 0.0 ==> 0.0 <= r.n as real <= v.x < r.n as real + 1.0) &&
      (v.x < 0.0 ==> r.n as real - 1.0 < v.x <= r.n as real <= 0.0))
    ensures !v.Text? && !v.Number? ==> r == Failed("TypeError")
  {
    match v
    case Text(s) => ParseText(s)
    case Number(x) => Int(if x >= 0.0 then x.Floor else -((-x).Floor))
    case _ => Failed("TypeError")
  }

  /** `s` without its trailing whitespace. */
  function TrimEnd(s: string): (r: string)
    ensures |r| <= |s| && r == s[..|r|] && (r == [] || !IsSpace(r[|r| - 1]))
    ensures forall k :: |r| <= k < |s| ==> IsSpace(s[k])
  {
    if s != [] && IsSpace(s[|s| - 1]) then TrimEnd(s[..|s| - 1]) else s
  }

  /** `s.strip()`: leading and trailing whitespace dropped. */
  function Strip(s: string): (r: string)
    ensures |r| <= |s|
    ensures r == [] || (!IsSpace(r[0]) && !IsSpace(r[|r| - 1]))
  {
    var t := s[Run(s, IsSpace)..];
    TrimEnd(t)
  }

  /** The digits of an integer literal: decimal digits, where one `_` may stand between two of
      them. */
  predicate Numeral(s: string) {
    s != [] && IsDigit(s[0]) && IsDigit(s[|s| - 1]) &&
    forall k :: 0 <= k < |s| - 1 ==> Joined(s, k)
  }

  /** Position `k` of a numeral holds a digit, or a `_` that a digit follows. */
  predicate Joined(s: string, k: int) {
    0 <= k < |s| - 1 && (IsDigit(s[k]) || (s[k] == '_' && IsDigit(s[k + 1])))
  }

  /** The underscores of a numeral dropped leave its digits. */
  lemma NumeralDigits(s: string)
    requires Numeral(s)
    ensures AllOf(Without(s, '_'), IsDigit)
  {
    WithoutMembers(s, '_');
    var r := Without(s, '_');
    forall k | 0 <= k < |r| ensures IsDigit(r[k]) {
      assert r[k] in r;
      var i :| 0 <= i < |s| && s[i] == r[k];
      assert i < |s| - 1 ==> Joined(s, i);
    }
  }

  /** `int(s)` on a string: surrounding whitespace is ignored, an optional `+` or `-` comes first,
      and the rest must be a numeral; anything else raises ValueError. */
  function ParseText(s: string): (r: Parsed)
    ensures r.Failed? ==> r.error == "ValueError"
  {
    var t := Strip(s);
    var body := if t != [] && (t[0] == '+' || t[0] == '-') then t[1..] else t;
    if !Numeral(body) then Failed("ValueError")
    else
      NumeralDigits(body);
      var n: int := DigitsValue(Without(body, '_'));
      Int(if t[0] == '-' then -n else n)
  }

  /** A plain digit string is read as its decimal value. */
  lemma ParseDigits(s: string)
    requires s != [] && AllOf(s, IsDigit)
    ensures ParseText(s) == Int(DigitsValue(s))
  {
    assert !IsSpace(s[0]) && !IsSpace(s[|s| - 1]);
    RunOf([], s, IsSpace);
    assert s[0..] == s;
    WithoutIdentity(s, '_');
  }

  /** Whitespace around a literal, a sign before it and underscores between its digits are
      accepted, as `int` accepts them: `int(" +1_2 ") == 12`. */
  lemma ParsePadded()
    ensures ParseText(" +1_2 ") == Int(12)
  {
    StripPadded();
    assert "+1_2"[1..] == "1_2";
    assert Without("1_2", '_') == "12" by {
      assert "1_2"[1..] == "_2" && "_2"[1..] == "2" && "2"[1..] == [];
    }
    assert DigitsValue("12") == 12 by {
      assert "12"[..1] == "1" && "1"[..0] == [];
    }
  }

  /** The whitespace around ` +1_2 ` is stripped. */
  lemma StripPadded()
    ensures Strip(" +1_2 ") == "+1_2"
  {
    assert Run(" +1_2 ", IsSpace) == 1;
    assert " +1_2 "[1..] == "+1_2 ";
    assert "+1_2 "[..4] == "+1_2";
  }

  /** `int("-3") == -3`. */
  lemma ParseNegative()
    ensures ParseText("-3") == Int(-3)
  {
    assert Run("-3", IsSpace) == 0 && "-3"[0..] == "-3" && TrimEnd("-3") == "-3";
    assert "-3"[1..] == "3" && Without("3", '_') == "3" by { assert "3"[1..] == []; }
    assert DigitsValue("3") == 3 by { assert "3"[..0] == []; }
  }

  /** A sign with nothing after it, a doubled underscore and a trailing one are refused. */
  lemma ParseRefused()
    ensures ParseText(" - ") == Failed("ValueError")
    ensures ParseText("1__2") == Failed("ValueError") && ParseText("12_") == Failed("ValueError")
  {
    assert Run(" - ", IsSpace) == 1 && " - "[1..] == "- ";
    assert TrimEnd("- ") == "-" by { assert "- "[..1] == "-"; }
    assert "-"[1..] == [];
    assert Run("1__2", IsSpace) == 0 && "1__2"[0..] == "1__2" && TrimEnd("1__2") == "1__2";
    assert !Joined("1__2", 1);
    assert Run("12_", IsSpace) == 0 && "12_"[0..] == "12_" && TrimEnd("12_") == "12_";
  }

  /** The `(id, date)` row key `get_time` looks up, evaluated left to right: a missing field is a
      `KeyError`, one `int` refuses raises. */
  datatype Key = RowKey(id: int, date: int) | Absent | Malformed(error: string)

  function KeyOf(m: Info): (r: Key)
    ensures r.RowKey? ==> ("mouse_id" in m && "exp_date" in m &&
      ParseInt(m["mouse_id"]) == Int(r.id) && ParseInt(m["exp_date"]) == Int(r.date))
    ensures r.Absent? ==> "mouse_id" !in m || "exp_date" !in m
    ensures r.Malformed? ==> r.error == "ValueError" || r.error == "TypeError"
  {
    if "mouse_id" !in m then Absent
    else if ParseInt(m["mouse_id"]).Failed? then Malformed(ParseInt(m["mouse_id"]).error)
    else if "exp_date" !in m then Absent
    else if ParseInt(m["exp_date"]).Failed? then Malformed(ParseInt(m["exp_date"]).error)
    else RowKey(ParseInt(m["mouse_id"]).n, ParseInt(m["exp_date"]).n)
  }

  /** The cut window: the time table's window widened by `buffer`, clamped to the video. */
  function CutStart(vidStart: real, buffer: (real, real)): (r: real)
    ensures 0.0 <= r && vidStart + buffer.0 <= r && (r == 0.0 || r == vidStart + buffer.0)
  {
    if vidStart + buffer.0 > 0.0 then vidStart + buffer.0 else 0.0
  }

  function CutEnd(length: real, vidEnd: real, buffer: (real, real)): (r: real)
    ensures r <= length && r <= vidEnd + buffer.1 && (r == length || r == vidEnd + buffer.1)
  {
    if length <= vidEnd + buffer.1 then length else vidEnd + buffer.1
  }

  /** The cut window in frames: each end rounded to the nearest frame, ties to the even one. */
  function FrameWindow(start: real, end: real, fps: real): (r: Value)
    ensures r.FrameSpan?
    ensures -0.5 <= r.first as real - start * fps <= 0.5 && -0.5 <= r.last as real - end * fps <= 0.5
  {
    FrameSpan(Arithmetic.RoundHalfEven(start * fps), Arithmetic.RoundHalfEven(end * fps))
  }

  /** What `get_time` returns and leaves in the dictionary, step by step as it runs: note that
      `time` is written before `fps` is read. */
  function TimeUpdate(m: Info, times: map<(int, int), (real, real)>, buffer: (real, real)): (r: (TimeOutcome, Info))
    ensures forall k :: k in m ==> k in r.1
    ensures forall k :: k in r.1 && k != "time" && k != "frames" ==> k in m && r.1[k] == m[k]
    ensures r.0 == Found ==> "time" in r.1 && "frames" in r.1
  {
    match KeyOf(m)
    case Absent => (NotFound, m)
    case Malformed(err) => (Raised(err), m)
    case RowKey(id, date) =>
      if (id, date) !in times then (NotFound, m)
      else if "length" !in m then (NotFound, m)
      else if !m["length"].Number? then (Raised("TypeError"), m)
      else
        var start := CutStart(times[(id, date)].0, buffer);
        var end := CutEnd(m["length"].x, times[(id, date)].1, buffer);
        if !(start < end) then (Raised("AssertionError"), m)
        else
          var m' := m["time" := Window(start, end)];
          if "fps" !in m then (NotFound, m')
          else if !m["fps"].Number? then (Raised("TypeError"), m')
          else
            var fps := m["fps"].x;
            (Found, m'["frames" := FrameWindow(start, end, fps)])
  }

  /** `get_time` succeeds exactly when the key is in the table, `length` and `fps` are numbers and
      the clamped window is not empty. It then writes the window, which lies inside the video and
      starts at or after 0, and its frames, and changes nothing else. */
  lemma TimeFound(m: Info, times: map<(int, int), (real, real)>, buffer: (real, real))
    ensures TimeUpdate(m, times, buffer).0 == Found <==>
      KeyOf(m).RowKey? && (KeyOf(m).id, KeyOf(m).date) in times &&
      "length" in m && m["length"].Number? && "fps" in m && m["fps"].Number? &&
      CutStart(times[(KeyOf(m).id, KeyOf(m).date)].0, buffer) < CutEnd(m["length"].x, times[(KeyOf(m).id, KeyOf(m).date)].1, buffer)
    ensures TimeUpdate(m, times, buffer).0 == Found ==>
      var r := TimeUpdate(m, times, buffer).1;
      var w := r["time"];
      w.Window? && 0.0 <= w.start < w.end <= m["length"].x &&
      r == m["time" := w]["frames" := FrameWindow(w.start, w.end, m["fps"].x)]
  {
    if TimeUpdate(m, times, buffer).0 == Found {
      var k := KeyOf(m);
      var start := CutStart(times[(k.id, k.date)].0, buffer);
      var end := CutEnd(m["length"].x, times[(k.id, k.date)].1, buffer);
      assert "frames" != "time" by {
        assert |"frames"| != |"time"|;
      }
      assert TimeUpdate(m, times, buffer).1["time"] == Window(start, end);
    }
  }

  /** With a non-negative frame rate the frame window is ordered and starts at or after frame 0. */
  lemma TimeFrames(m: Info, times: map<(int, int), (real, real)>, buffer: (real, real))
    requires TimeUpdate(m, times, buffer).0 == Found && m["fps"].x >= 0.0
    ensures var f := TimeUpdate(m, times, buffer).1["frames"];
      f.FrameSpan? && 0 <= f.first <= f.last
  {
    TimeFound(m, times, buffer);
    var r := TimeUpdate(m, times, buffer).1;
    var w := r["time"];
    assert r["frames"] == FrameWindow(w.start, w.end, m["fps"].x);
    FrameWindowOrdered(w.start, w.end, m["fps"].x);
  }

  lemma FrameWindowOrdered(start: real, end: real, fps: real)
    requires 0.0 <= start <= end && fps >= 0.0
    ensures 0 <= FrameWindow(start, end, fps).first <= FrameWindow(start, end, fps).last
  {
    assert 0.0 <= start * fps <= end * fps by {
      assert start * fps >= 0.0 * fps;
      assert (end - start) * fps >= 0.0 * fps;
    }
    Arithmetic.RoundInteger(0);
    Arithmetic.RoundMonotone(0.0, start * fps);
    Arithmetic.RoundMonotone(start * fps, end * fps);
  }

  /** A video whose id or date is missing, or whose key the table lacks, gives False and leaves the
      dictionary as it was. */
  lemma TimeNotFound(m: Info, times: map<(int, int), (real, real)>, buffer: (real, real))
    requires KeyOf(m).Absent? || (KeyOf(m).RowKey? && (KeyOf(m).id, KeyOf(m).date) !in times)
    ensures TimeUpdate(m, times, buffer) == (NotFound, m)
  {
  }

  /** A dictionary without `fps` also gives False, but only after `time` has been written. */
  lemma TimeWithoutFps(m: Info, times: map<(int, int), (real, real)>, buffer: (real, real))
    requires KeyOf(m).RowKey? && (KeyOf(m).id, KeyOf(m).date) in times
    requires "length" in m && m["length"].Number? && "fps" !in m
    requires CutStart(times[(KeyOf(m).id, KeyOf(m).date)].0, buffer) < CutEnd(m["length"].x, times[(KeyOf(m).id, KeyOf(m).date)].1, buffer)
    ensures TimeUpdate(m, times, buffer) == (NotFound, m["time" := Window(
      CutStart(times[(KeyOf(m).id, KeyOf(m).date)].0, buffer),
      CutEnd(m["length"].x, times[(KeyOf(m).id, KeyOf(m).date)].1, buffer))])
  {
  }

  /** One row of the time file: its `id`, `date`, `vid_start` and `vid_end` columns. */
  datatype TimeRow = TimeRow(id: int, date: int, vidStart: real, vidEnd: real)

  /** The rows `times.loc[(id, date)]` selects, in file order. */
  function RowsAt(rows: seq<TimeRow>, id: int, date: int): (r: seq<TimeRow>)
    ensures |r| <= |rows|
    ensures forall x :: x in r <==> x in rows && x.id == id && x.date == date
  {
    if rows == [] then []
    else (if rows[0].id == id && rows[0].date == date then [rows[0]] else []) + RowsAt(rows[1..], id, date)
  }

  /** The keys of the time file. */
  function Keys(rows: seq<TimeRow>): set<(int, int)> {
    set x | x in rows :: (x.id, x.date)
  }

  /** Whether no two rows of the time file share an (id, date) key: `is_unique` of the index
      `set_index(["id", "date"])` builds. */
  predicate KeysUnique(rows: seq<TimeRow>) {
    forall i, j :: 0 <= i < j < |rows| ==> (rows[i].id, rows[i].date) != (rows[j].id, rows[j].date)
  }

  /** With unique keys, `.loc` of a key finds at most one row. */
  lemma {:induction false} UniqueRowsAt(rows: seq<TimeRow>, id: int, date: int)
    requires KeysUnique(rows)
    ensures |RowsAt(rows, id, date)| <= 1
  {
    if rows != [] {
      var tail := rows[1..];
      assert KeysUnique(tail) by {
        forall i, j | 0 <= i < j < |tail| ensures (tail[i].id, tail[i].date) != (tail[j].id, tail[j].date) {
          assert tail[i] == rows[i + 1] && tail[j] == rows[j + 1];
        }
      }
      UniqueRowsAt(tail, id, date);
      if rows[0].id == id && rows[0].date == date {
        forall x | x in tail ensures !(x.id == id && x.date == date) {
          var j :| 0 <= j < |tail| && tail[j] == x;
          assert rows[j + 1] == x;
        }
        var r := RowsAt(tail, id, date);
        assert r != [] ==> r[0] in r;
      }
    }
  }

  /** The time file as a table from the keys that have exactly one row to that row's window. */
  function TimeTable(rows: seq<TimeRow>): (r: map<(int, int), (real, real)>)
    ensures forall k :: k in r ==> exists x :: x in rows && (x.id, x.date) == k && r[k] == (x.vidStart, x.vidEnd)
    ensures KeysUnique(rows) ==> forall x :: x in rows ==> (x.id, x.date) in r
  {
    var r := map k | k in Keys(rows) && |RowsAt(rows, k.0, k.1)| == 1 ::
      (RowsAt(rows, k.0, k.1)[0].vidStart, RowsAt(rows, k.0, k.1)[0].vidEnd);
    TableEntries(rows, r);
    TableKeys(rows, r);
    r
  }

  /** Every window of a table of single-row keys comes from a row with that key. */
  lemma TableEntries(rows: seq<TimeRow>, r: map<(int, int), (real, real)>)
    requires forall k :: k in r ==>
      |RowsAt(rows, k.0, k.1)| == 1 && r[k] == (RowsAt(rows, k.0, k.1)[0].vidStart, RowsAt(rows, k.0, k.1)[0].vidEnd)
    ensures forall k :: k in r ==> exists x :: x in rows && (x.id, x.date) == k && r[k] == (x.vidStart, x.vidEnd)
  {
    forall k | k in r ensures exists x :: x in rows && (x.id, x.date) == k && r[k] == (x.vidStart, x.vidEnd) {
      var x := RowsAt(rows, k.0, k.1)[0];
      assert x in RowsAt(rows, k.0, k.1);
    }
  }

  /** With unique keys, a table holding every single-row key holds the key of every row. */
  lemma TableKeys(rows: seq<TimeRow>, r: map<(int, int), (real, real)>)
    requires forall k :: k in Keys(rows) && |RowsAt(rows, k.0, k.1)| == 1 ==> k in r
    ensures KeysUnique(rows) ==> forall x :: x in rows ==> (x.id, x.date) in r
  {
    if KeysUnique(rows) {
      forall x | x in rows ensures (x.id, x.date) in r {
        UniqueRowsAt(rows, x.id, x.date);
        assert x in RowsAt(rows, x.id, x.date);
      }
    }
  }

  /** `get_time` on the rows of the time file. `.loc` of a key that is present gives a single row
      only when the whole index is unique; when any key of the file repeats it gives a table, even
      for a key with one row, and `max(0, ...)` then asks for the truth value of a Series, a
      ValueError. A key without rows is a KeyError either way, and otherwise this is the lookup in
      TimeTable. */
  function TimeLookup(m: Info, rows: seq<TimeRow>, buffer: (real, real)): (r: (TimeOutcome, Info))
    ensures forall k :: k in m ==> k in r.1
    ensures forall k :: k in r.1 && k != "time" && k != "frames" ==> k in m && r.1[k] == m[k]
    ensures r.0 == Found ==> "time" in r.1 && "frames" in r.1
    ensures r.0 == Raised("ValueError") && KeyOf(m).RowKey? ==> r.1 == m
  {
    if KeyOf(m).RowKey? && RowsAt(rows, KeyOf(m).id, KeyOf(m).date) != [] && !KeysUnique(rows) then
      (Raised("ValueError"), m)
    else TimeUpdate(m, TimeTable(rows), buffer)
  }

  /** A key is in TimeTable exactly when the file has one row for it, and then maps to that row. */
  lemma TimeTableAt(rows: seq<TimeRow>, id: int, date: int)
    ensures (id, date) in TimeTable(rows) <==> |RowsAt(rows, id, date)| == 1
    ensures |RowsAt(rows, id, date)| == 1 ==>
      TimeTable(rows)[(id, date)] == (RowsAt(rows, id, date)[0].vidStart, RowsAt(rows, id, date)[0].vidEnd)
  {
    if |RowsAt(rows, id, date)| == 1 {
      var x := RowsAt(rows, id, date)[0];
      assert x in RowsAt(rows, id, date);
      assert (id, date) in Keys(rows);
    }
  }

  /** No row for the video's key gives what an empty file gives. A key with rows in a file whose
      keys are all distinct has one row, and gives what a file of that row alone gives. A key with
      rows in a file where some key repeats raises ValueError with the dictionary unchanged. */
  lemma TimeLookupRows(m: Info, rows: seq<TimeRow>, buffer: (real, real))
    requires KeyOf(m).RowKey?
    ensures var found := RowsAt(rows, KeyOf(m).id, KeyOf(m).date);
      (found == [] ==> TimeLookup(m, rows, buffer) == TimeUpdate(m, map[], buffer) == (NotFound, m)) &&
      (found != [] && KeysUnique(rows) ==>
        |found| == 1 && TimeLookup(m, rows, buffer) == TimeUpdate(m, TimeTable(found), buffer)) &&
      (found != [] && !KeysUnique(rows) ==> TimeLookup(m, rows, buffer) == (Raised("ValueError"), m))
  {
    var k := KeyOf(m);
    var found := RowsAt(rows, k.id, k.date);
    TimeTableAt(rows, k.id, k.date);
    if found == [] {
      TimeUpdateKey(m, TimeTable(rows), map[], buffer);
    } else if KeysUnique(rows) {
      UniqueRowsAt(rows, k.id, k.date);
      var x := found[0];
      assert RowsAt(found, k.id, k.date) == found by {
        assert found == [x];
        assert x in found;
        assert found[1..] == [];
      }
      TimeTableAt(found, k.id, k.date);
      TimeUpdateKey(m, TimeTable(rows), TimeTable(found), buffer);
    }
  }

  /** A repeated key elsewhere in the file makes the lookup of a key with a single row raise
      ValueError: with rows (1, 210305), (2, 210305), (2, 210305), video 1 of 210305 is not cut. */
  lemma TimeLookupRepeatElsewhere(m: Info, buffer: (real, real))
    requires KeyOf(m) == RowKey(1, 210305)
    ensures var rows := [TimeRow(1, 210305, 0.0, 100.0), TimeRow(2, 210305, 0.0, 50.0), TimeRow(2, 210305, 5.0, 60.0)];
      RowsAt(rows, 1, 210305) == [rows[0]] && TimeLookup(m, rows, buffer) == (Raised("ValueError"), m)
  {
    var rows := [TimeRow(1, 210305, 0.0, 100.0), TimeRow(2, 210305, 0.0, 50.0), TimeRow(2, 210305, 5.0, 60.0)];
    assert rows[1..] == [rows[1], rows[2]] && rows[1..][1..] == [rows[2]] && rows[1..][1..][1..] == [];
    assert !((rows[1].id, rows[1].date) != (rows[2].id, rows[2].date));
  }

  /** `get_time` reads the time table only at the video's key. */
  lemma TimeUpdateKey(m: Info, t: map<(int, int), (real, real)>, u: map<(int, int), (real, real)>, buffer: (real, real))
    requires KeyOf(m).RowKey?
    requires (KeyOf(m).id, KeyOf(m).date) in t <==> (KeyOf(m).id, KeyOf(m).date) in u
    requires (KeyOf(m).id, KeyOf(m).date) in t ==> t[(KeyOf(m).id, KeyOf(m).date)] == u[(KeyOf(m).id, KeyOf(m).date)]
    ensures TimeUpdate(m, t, buffer) == TimeUpdate(m, u, buffer)
  {
  }

  /** A `vid_info` dictionary, which `get_time` and the preprocessing steps update in place. */
  class VidInfo {
    var entries: Info

    constructor (m: Info)
      ensures entries == m
    {
      entries := m;
    }

    /** `get_time(vid_info, time_file, buffer)`, the time file given as its `rows`. */
    method GetTime(rows: seq<TimeRow>, buffer: (real, real)) returns (r: TimeOutcome)
      modifies this
      ensures (r, entries) == TimeLookup(old(entries), rows, buffer)
    {
      var key := KeyOf(entries);
      if key.Absent? {
        return NotFound;
      }
      if key.Malformed? {
        return Raised(key.error);
      }
      var found := RowsAt(rows, key.id, key.date);
      TimeTableAt(rows, key.id, key.date);
      if found == [] {
        return NotFound;
      }
      if !KeysUnique(rows) {
        return Raised("ValueError");
      }
      UniqueRowsAt(rows, key.id, key.date);
      var row := (found[0].vidStart, found[0].vidEnd);
      var start := CutStart(row.0, buffer);
      if "length" !in entries {
        return NotFound;
      }
      if !entries["length"].Number? {
        return Raised("TypeError");
      }
      var end := CutEnd(entries["length"].x, row.1, buffer);
      if !(start < end) {
        return Raised("AssertionError");
      }
      entries := entries["time" := Window(start, end)];
      if "fps" !in entries {
        return NotFound;
      }
      if !entries["fps"].Number? {
        return Raised("TypeError");
      }
      assert "fps" != "time" by {
        assert |"fps"| != |"time"|;
      }
      var fps := entries["fps"].x;
      entries := entries["frames" := FrameWindow(start, end, fps)];
      return Found;
    }
  }

  // --- saved information ------------------------------------------------------------

  /** `os.path.join(a, b)` on POSIX: an absolute `b` replaces `a`, otherwise one `/` separates them. */
  function Join(a: string, b: string): (r: string)
    ensures EndsWith(r, b)
    ensures (b == [] || b[0] != '/') ==> |a| <= |r| && r[..|a|] == a
  {
    if b != [] && b[0] == '/' then b
    else if a == [] || a[|a| - 1] == '/' then a + b
    else a + "/" + b
  }

  /** Where the information of a video is saved: `<dir>/info/<vid_name>.json`. */
  function InfoPath(dir: string, name: string): (p: string)
    ensures EndsWith(p, name + ".json")
  {
    Join(Join(dir, "info"), name + ".json")
  }

  /** `load_info`'s argument: a `vid_info` dictionary, or the path of a saved one. */
  datatype Source = FromInfo(info: Info) | FromPath(path: string)

  /** `load_info(src)`, with `read` the JSON files' contents. A dictionary is looked up at its
      InfoPath and then overrides what was saved; a path gives what was saved there. None is a
      raised exception: a dictionary without a string `dir` or `vid_name`. */
  function LoadInfo(src: Source, read: string -> Info): (r: Option<Info>)
    ensures src.FromPath? ==> r.Some?
    ensures src.FromInfo? && r.Some? ==> forall k :: k in src.info ==> k in r.value && r.value[k] == src.info[k]
  {
    match src
    case FromPath(p) => Some(read(p))
    case FromInfo(m) =>
      if "dir" in m && "vid_name" in m && m["dir"].Text? && m["vid_name"].Text? then
        Some(read(InfoPath(m["dir"].s, m["vid_name"].s)) + m)
      else None
  }

  /** Loading with a dictionary keeps every saved key and adds the dictionary's; each key of the
      dictionary takes the dictionary's value, every other one keeps its saved value. */
  lemma LoadOverride(m: Info, read: string -> Info)
    requires "dir" in m && "vid_name" in m && m["dir"].Text? && m["vid_name"].Text?
    ensures var saved := read(InfoPath(m["dir"].s, m["vid_name"].s));
      var r := LoadInfo(FromInfo(m), read);
      r.Some? &&
      (forall k :: k in r.value <==> k in saved || k in m) &&
      (forall k :: k in m ==> r.value[k] == m[k]) &&
      (forall k :: k in saved && k !in m ==> r.value[k] == saved[k])
  {
  }

  /** Loading by path changes nothing that was saved. */
  lemma LoadPath(p: string, read: string -> Info)
    ensures LoadInfo(FromPath(p), read) == Some(read(p))
  {
  }

  // --- the exported row -----------------------------------------------------------

  /** `str(v)`: a string is itself; Python's formatting of the other values is `show`. */
  function Str(v: Value, show: Value -> string): string {
    if v.Text? then v.s else show(v)
  }

  /** `export_info(vid_info)`: one string per INFO_LS key, `"NA"` for a missing one. */
  function ExportInfo(m: Info, show: Value -> string): (r: seq<string>)
    ensures |r| == |INFO_LS|
  {
    seq(|INFO_LS|, i requires 0 <= i < |INFO_LS| => if INFO_LS[i] in m then Str(m[INFO_LS[i]], show) else "NA")
  }

  /** The exported row follows INFO_LS: file name, id, chamber, date, time, fps, preprocessing. A
      present key shows its value and an absent one `"NA"`; keys outside INFO_LS do not matter. */
  lemma ExportFields(m: Info, m': Info, show: Value -> string)
    requires forall k :: k in INFO_LS ==> (k in m <==> k in m') && (k in m ==> m[k] == m'[k])
    ensures ExportInfo(m, show) == ExportInfo(m', show)
    ensures forall i :: 0 <= i < |INFO_LS| && INFO_LS[i] !in m ==> ExportInfo(m, show)[i] == "NA"
  {
  }

  /** A key the update brings is exported with the update's value. */
  lemma ExportOverride(m: Info, d: Info, show: Value -> string, i: nat)
    requires i < |INFO_LS| && INFO_LS[i] in d
    ensures ExportInfo(m + d, show)[i] == Str(d[INFO_LS[i]], show)
  {
  }

  /** After a name is decoded into the dictionary (`vid_info.update(name_info)`), the exported id,
      chamber and date are its groups with the dashes removed, whatever was there before. */
  lemma ExportDecoded(m: Info, name: string, show: Value -> string)
    requires MatchName(name).Some?
    ensures var g := MatchName(name).value;
      var r := ExportInfo(m + DecodeName(name).1, show);
      r[1] == Without(g[0], '-') && r[2] == Without(g[1], '-') && r[3] == Without(g[2], '-')
  {
    var d := DecodeName(name).1;
    assert INFO_LS[1] == ELEMENTS[0] && INFO_LS[2] == ELEMENTS[1] && INFO_LS[3] == ELEMENTS[2];
    DecodedField(name, 0);
    ExportOverride(m, d, show, 1);
    DecodedField(name, 1);
    ExportOverride(m, d, show, 2);
    DecodedField(name, 2);
    ExportOverride(m, d, show, 3);
  }

  /** Field `i` of a decoded name is group `i` without its dashes. */
  lemma DecodedField(name: string, i: nat)
    requires MatchName(name).Some? && i < 5
    ensures ELEMENTS[i] in DecodeName(name).1
    ensures DecodeName(name).1[ELEMENTS[i]] == Text(Without(MatchName(name).value[i], '-'))
  {
    DecodeFields(name);
    assert ELEMENTS[i] in ELEMENTS;
  }
}
