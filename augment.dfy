/** The label side of the flip augmentation of DeepLabCut training images
    (touchscreen_toolbox/DLC/augment.py). A label row lists the points' coordinates as
    `x0, y0, x1, y1, ...`; flipping the image mirrors every x (horizontal) or every y (vertical)
    within the frame, and `augment` records the flipped image's name with its flipped row. */
module Augment {
  import opened Wrappers
  import opened Strings

  /** The default `dim`: the frame is 640 wide and 480 high. */
  const DIM: (real, real) := (640.0, 480.0)

  /** `xflip(row, dim)`: every x (even index) mirrored to `dim.0 - x`, every y kept. */
  function XFlip(row: seq<real>, dim: (real, real)): (r: seq<real>)
    ensures |r| == |row|
    ensures forall i :: 0 <= i < |row| ==> r[i] == if i % 2 == 0 then dim.0 - row[i] else row[i]
  {
    seq(|row|, i requires 0 <= i < |row| => if i % 2 == 0 then dim.0 - row[i] else row[i])
  }

  /** `yflip(row, dim)`: every y (odd index) mirrored to `dim.1 - y`, every x kept. */
  function YFlip(row: seq<real>, dim: (real, real)): (r: seq<real>)
    ensures |r| == |row|
    ensures forall i :: 0 <= i < |row| ==> r[i] == if i % 2 == 1 then dim.1 - row[i] else row[i]
  {
    seq(|row|, i requires 0 <= i < |row| => if i % 2 == 1 then dim.1 - row[i] else row[i])
  }

  /** Flipping horizontally twice gives the row back. */
  lemma XFlipInvolution(row: seq<real>, dim: (real, real))
    ensures XFlip(XFlip(row, dim), dim) == row
  {
    var r := XFlip(XFlip(row, dim), dim);
    forall i | 0 <= i < |row| ensures r[i] == row[i] {
      assert XFlip(row, dim)[i] == if i % 2 == 0 then dim.0 - row[i] else row[i];
    }
  }

  /** Flipping vertically twice gives the row back. */
  lemma YFlipInvolution(row: seq<real>, dim: (real, real))
    ensures YFlip(YFlip(row, dim), dim) == row
  {
    var r := YFlip(YFlip(row, dim), dim);
    forall i | 0 <= i < |row| ensures r[i] == row[i] {
      assert YFlip(row, dim)[i] == if i % 2 == 1 then dim.1 - row[i] else row[i];
    }
  }

  /** The two flips commute, and together mirror every coordinate: the diagonal flip is the
      reflection through the centre of the frame. */
  lemma FlipsCommute(row: seq<real>, dim: (real, real))
    ensures XFlip(YFlip(row, dim), dim) == YFlip(XFlip(row, dim), dim)
    ensures forall i :: 0 <= i < |row| ==>
      XFlip(YFlip(row, dim), dim)[i] == (if i % 2 == 0 then dim.0 else dim.1) - row[i]
  {
    var a := XFlip(YFlip(row, dim), dim);
    var b := YFlip(XFlip(row, dim), dim);
    forall i | 0 <= i < |row|
      ensures a[i] == b[i] && a[i] == (if i % 2 == 0 then dim.0 else dim.1) - row[i]
    {
      assert YFlip(row, dim)[i] == if i % 2 == 1 then dim.1 - row[i] else row[i];
      assert XFlip(row, dim)[i] == if i % 2 == 0 then dim.0 - row[i] else row[i];
    }
  }

  /** A label inside the frame stays inside the frame under both flips. */
  predicate InFrame(row: seq<real>, dim: (real, real)) {
    forall i :: 0 <= i < |row| ==> 0.0 <= row[i] <= (if i % 2 == 0 then dim.0 else dim.1)
  }

  lemma FlipsInFrame(row: seq<real>, dim: (real, real))
    requires InFrame(row, dim)
    ensures InFrame(XFlip(row, dim), dim) && InFrame(YFlip(row, dim), dim)
  {
  }

  // --- augment ----------------------------------------------------------------------------

  /** The name and label row `augment` records for `flipcode` (1 horizontal, 0 vertical, -1 both,
      as for `cv2.flip`), or None for the ValueError of any other code. */
  function Labelled(row: seq<real>, flipcode: int, prefix: string): (r: Option<(string, seq<real>)>)
    ensures r.Some? <==> flipcode in {1, 0, -1}
  {
    if flipcode == 1 then Some((prefix + "_h.png", XFlip(row, DIM)))
    else if flipcode == 0 then Some((prefix + "_v.png", YFlip(row, DIM)))
    else if flipcode == -1 then Some((prefix + "_d.png", XFlip(YFlip(row, DIM), DIM)))
    else None
  }

  /** How `augment` ends: it returns, or raises the named exception. */
  datatype Outcome = Returned | Raised(error: string)

  /** The caller's list `ls` of `(name, row)` pairs, which `augment` appends to. */
  class Labels {
    var pairs: seq<(string, seq<real>)>

    constructor ()
      ensures pairs == []
    {
      pairs := [];
    }

    /** `augment(ls, img, row, flipcode, prefix)` on the labels: one pair appended for a valid code;
        for any other code the ValueError is raised before `ls` is touched. */
    method Augment(row: seq<real>, flipcode: int, prefix: string) returns (r: Outcome)
      modifies this
      ensures Labelled(row, flipcode, prefix).Some? ==>
        r == Returned && pairs == old(pairs) + [Labelled(row, flipcode, prefix).value]
      ensures Labelled(row, flipcode, prefix).None? ==> r == Raised("ValueError") && pairs == old(pairs)
    {
      var name: string;
      var newRow: seq<real>;
      if flipcode == 1 {
        newRow := XFlip(row, DIM);
        name := prefix + "_h.png";
      } else if flipcode == 0 {
        newRow := YFlip(row, DIM);
        name := prefix + "_v.png";
      } else if flipcode == -1 {
        newRow := XFlip(YFlip(row, DIM), DIM);
        name := prefix + "_d.png";
      } else {
        return Raised("ValueError");
      }
      pairs := pairs + [(name, newRow)];
      return Returned;
    }
  }

  /** The three codes give three different `.png` names, each ending with its own flip's tag. */
  lemma LabelledNames(row: seq<real>, prefix: string)
    ensures var h, v, d := Labelled(row, 1, prefix), Labelled(row, 0, prefix), Labelled(row, -1, prefix);
      h.Some? && v.Some? && d.Some? &&
      EndsWith(h.value.0, "_h.png") && EndsWith(v.value.0, "_v.png") && EndsWith(d.value.0, "_d.png") &&
      h.value.0 != v.value.0 && v.value.0 != d.value.0 && h.value.0 != d.value.0
  {
    var h, v, d := prefix + "_h.png", prefix + "_v.png", prefix + "_d.png";
    var n := |prefix|;
    assert h[n + 1] == 'h' && v[n + 1] == 'v' && d[n + 1] == 'd';
    assert h[n..] == "_h.png" && v[n..] == "_v.png" && d[n..] == "_d.png";
  }

  /** Every recorded row is the original row under a flip that undoes itself: flipping the
      recorded row the same way gives the original labels back. */
  lemma LabelledUndone(row: seq<real>, flipcode: int, prefix: string)
    requires Labelled(row, flipcode, prefix).Some?
    ensures var f := Labelled(row, flipcode, prefix).value.1;
      |f| == |row| &&
      (flipcode == 1 ==> XFlip(f, DIM) == row) &&
      (flipcode == 0 ==> YFlip(f, DIM) == row) &&
      (flipcode == -1 ==> XFlip(YFlip(f, DIM), DIM) == row)
  {
    if flipcode == 1 {
      XFlipInvolution(row, DIM);
    } else if flipcode == 0 {
      YFlipInvolution(row, DIM);
    } else {
      var y := YFlip(row, DIM);
      FlipsCommute(XFlip(y, DIM), DIM);
      XFlipInvolution(y, DIM);
      YFlipInvolution(row, DIM);
    }
  }
}
