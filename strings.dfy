/** The few string operations of Python's `str` that the toolbox relies on. */
module Strings {

  /** `t` occurs in `s` starting at index `i`, checked from character `k` of `t` on. */
  predicate MatchAt(t: string, s: string, i: nat, k: nat)
    requires i + |t| <= |s| && k <= |t|
    decreases |t| - k
  {
    k == |t| || (s[i + k] == t[k] && MatchAt(t, s, i, k + 1))
  }

  /** `t` occurs in `s` at some index `i` or later. */
  predicate InfixFrom(t: string, s: string, i: nat)
    decreases |s| - i
  {
    i + |t| <= |s| && (MatchAt(t, s, i, 0) || InfixFrom(t, s, i + 1))
  }

  /** Python's `t in s` for strings. */
  predicate Contains(s: string, t: string) {
    InfixFrom(t, s, 0)
  }

  /** Python's `s.endswith(suffix)`. */
  predicate EndsWith(s: string, suffix: string) {
    |suffix| <= |s| && s[|s| - |suffix|..] == suffix
  }

  /** Python's `s[:-k]` for a non-negative `k`: `s[:-0]` is empty, and so is a cut past the start. */
  function DropLast(s: string, k: nat): (r: string)
    ensures k == 0 || k > |s| ==> r == ""
    ensures 0 < k <= |s| ==> |r| == |s| - k && r + s[|s| - k..] == s
  {
    if k == 0 || k > |s| then "" else s[..|s| - k]
  }

  /** `"".join(s.split(c))`: every occurrence of `c` removed, the rest kept in order. */
  function Without(s: string, c: char): (r: string)
    ensures |r| <= |s|
  {
    if s == [] then "" else (if s[0] == c then "" else [s[0]]) + Without(s[1..], c)
  }

  /** What is left is exactly the characters of `s` other than `c`. */
  lemma {:induction false} WithoutMembers(s: string, c: char)
    ensures forall x :: x in Without(s, c) <==> x in s && x != c
  {
    if s != [] {
      WithoutMembers(s[1..], c);
      assert s == [s[0]] + s[1..];
    }
  }

  /** One step of Without, from position `k` of `s`. */
  lemma WithoutAt(s: string, c: char, k: nat)
    requires k < |s|
    ensures Without(s[k..], c) == (if s[k] == c then "" else [s[k]]) + Without(s[k + 1..], c)
  {
    assert s[k..][0] == s[k] && s[k..][1..] == s[k + 1..];
  }

  lemma {:induction false} WithoutIdentity(s: string, c: char)
    requires c !in s
    ensures Without(s, c) == s
  {
    if s != [] {
      WithoutIdentity(s[1..], c);
    }
  }

  lemma {:induction false} WithoutConcat(s: string, u: string, c: char)
    ensures Without(s + u, c) == Without(s, c) + Without(u, c)
  {
    if s == [] {
      assert s + u == u;
    } else {
      assert (s + u)[1..] == s[1..] + u;
      WithoutConcat(s[1..], u, c);
    }
  }

  // --- occurrences, characterised by slices ---------------------------------

  /** `t` is the slice of `s` that starts at `j`. */
  predicate OccursAt(t: string, s: string, j: nat) {
    j + |t| <= |s| && s[j..j + |t|] == t
  }

  lemma {:induction false} MatchAtSlice(t: string, s: string, i: nat, k: nat)
    requires i + |t| <= |s| && k <= |t|
    ensures MatchAt(t, s, i, k) <==> s[i + k..i + |t|] == t[k..]
    decreases |t| - k
  {
    if k < |t| {
      MatchAtSlice(t, s, i, k + 1);
      assert s[i + k..i + |t|] == [s[i + k]] + s[i + k + 1..i + |t|];
      assert t[k..] == [t[k]] + t[k + 1..];
    }
  }

  lemma {:induction false} InfixFromSlice(t: string, s: string, i: nat)
    ensures InfixFrom(t, s, i) <==> exists j: nat :: i <= j && OccursAt(t, s, j)
    decreases |s| - i
  {
    if i + |t| <= |s| {
      MatchAtSlice(t, s, i, 0);
      InfixFromSlice(t, s, i + 1);
      if InfixFrom(t, s, i) {
        if MatchAt(t, s, i, 0) {
          assert OccursAt(t, s, i);
        }
      }
    } else {
      assert forall j: nat :: i <= j ==> !OccursAt(t, s, j);
    }
  }

  lemma OccursAtIndex(t: string, s: string, j: nat, n: nat)
    ensures OccursAt(t, s, j) && j <= n < j + |t| ==> t[n - j] == s[n]
  {
    if OccursAt(t, s, j) && j <= n < j + |t| {
      assert s[j..j + |t|][n - j] == s[n];
    }
  }

  /** A tag whose only `'_'` is its first character; the header tags `_x`, `_y`, `_cfd` are such tags. */
  predicate IsTag(t: string) {
    |t| > 0 && t[0] == '_' && '_' !in t[1..]
  }

  /** A tag occurs in `p + s`, where `s` begins with `'_'`, exactly when it occurs in `p` or in `s`:
      an occurrence across the seam would put a second `'_'` inside the tag. */
  lemma ContainsAcross(p: string, s: string, t: string)
    requires IsTag(t) && |s| > 0 && s[0] == '_'
    ensures Contains(p + s, t) <==> Contains(p, t) || Contains(s, t)
  {
    var h := p + s;
    InfixFromSlice(t, h, 0);
    InfixFromSlice(t, p, 0);
    InfixFromSlice(t, s, 0);
    if Contains(h, t) {
      var j: nat :| OccursAt(t, h, j);
      if j + |t| <= |p| {
        assert p[j..j + |t|] == h[j..j + |t|];
        assert OccursAt(t, p, j);
      } else if j >= |p| {
        assert s[j - |p|..j - |p| + |t|] == h[j..j + |t|];
        assert OccursAt(t, s, j - |p|);
      } else {
        OccursAtIndex(t, h, j, |p|);
        assert false;
      }
    }
    if Contains(p, t) {
      var j: nat :| OccursAt(t, p, j);
      assert h[j..j + |t|] == p[j..j + |t|];
      assert OccursAt(t, h, j);
    }
    if Contains(s, t) {
      var j: nat :| OccursAt(t, s, j);
      assert h[|p| + j..|p| + j + |t|] == s[j..j + |t|];
      assert OccursAt(t, h, |p| + j);
    }
  }
}
