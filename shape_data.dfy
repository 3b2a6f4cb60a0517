/**
 * The border extraction of scripts/shape_data.py. The picture of the city
 * is read outside the model: a row or column of pixels becomes the
 * sequence of answers of a colour test, one per pixel. From these the
 * script derives the border of the city shape in every row and column and
 * the line of the river, one column per row.
 */
module ShapeData {
  import opened Common
  import opened ShapeMask

  // ---------------------------------------------------------------------
  // Searching a line
  // ---------------------------------------------------------------------

  /** The first index from `i` on where `m` holds. */
  function FirstTrue(m: seq<bool>, i: nat): (r: Option<nat>)
    ensures r.Some? ==> i <= r.value < |m| && m[r.value] && forall j :: i <= j < r.value ==> !m[j]
    ensures r.None? ==> forall j :: i <= j < |m| ==> !m[j]
    decreases |m| - i
  {
    if i >= |m| then None
    else if m[i] then Some(i)
    else FirstTrue(m, i + 1)
  }

  /** The last index in `lo ..= j` where `m` holds. */
  function LastTrueDown(m: seq<bool>, j: int, lo: nat): (r: Option<nat>)
    requires j < |m|
    ensures r.Some? ==> lo <= r.value <= j && m[r.value] && forall k :: r.value < k <= j ==> !m[k]
    ensures r.None? ==> forall k :: lo <= k <= j ==> !m[k]
    decreases j - lo + 1
  {
    if j < lo then None
    else if m[j] then Some(j)
    else LastTrueDown(m, j - 1, lo)
  }

  // ---------------------------------------------------------------------
  // process_line
  // ---------------------------------------------------------------------

  /**
   * The border `process_line` finds in a line: the first index that
   * passes the colour test, and the last one that does among the indices
   * from 1 on; 0 where there is none.
   */
  function LineBorder(m: seq<bool>): Border
  {
    var first := FirstTrue(m, 0);
    var last := LastTrueDown(m, |m| - 1, 1);
    Border(if first.Some? then first.value else 0, if last.Some? then last.value else 0)
  }

  /**
   * The border is ordered and lies in the line; no pixel before its first
   * index or after its last passes the test, so every pixel that does lies
   * within the border. Index 0 is never the last index found: a line whose
   * only passing pixel is the first reports 0 through the default.
   */
  lemma LineBorderBounds(m: seq<bool>)
    ensures var b := LineBorder(m);
            0 <= b.lo <= b.hi && (|m| >= 1 ==> b.hi < |m|) &&
            (forall i :: 0 <= i < b.lo ==> !m[i]) &&
            (forall i :: b.hi < i < |m| ==> !m[i]) &&
            (forall i :: 0 <= i < |m| && m[i] ==> b.lo <= i <= b.hi)
  {
    var first := FirstTrue(m, 0);
    var last := LastTrueDown(m, |m| - 1, 1);
    if first.Some? && last.None? {
      assert first.value == 0;
    }
  }

  /**
   * `process_line`: a forward scan for the first passing pixel and a
   * backward scan, down to index 1, for the last, each stopping at the
   * first hit.
   */
  method ProcessLine(matches: seq<bool>) returns (b: Border)
    ensures b == LineBorder(matches)
  {
    var borderMin := 0;
    var borderMax := 0;
    var i := 0;
    while i < |matches|
      invariant 0 <= i <= |matches|
      invariant FirstTrue(matches, 0) == FirstTrue(matches, i)
    {
      if matches[i] {
        borderMin := i;
        break;
      }
      i := i + 1;
    }
    var j := |matches| - 1;
    while j > 0
      invariant j < |matches|
      invariant LastTrueDown(matches, |matches| - 1, 1) == LastTrueDown(matches, j, 1)
    {
      if matches[j] {
        borderMax := j;
        break;
      }
      j := j - 1;
    }
    b := Border(borderMin, borderMax);
  }

  /** `hborder`, `vborder` and the river borders: the border of every line. */
  function Borders(lines: seq<seq<bool>>): (r: seq<Border>)
    ensures |r| == |lines|
  {
    seq(|lines|, i requires 0 <= i < |lines| => LineBorder(lines[i]))
  }

  /**
   * What the borders guarantee the map: when the rows and columns are the
   * lines of one picture, every pixel that passes the colour test lies
   * inside the shape the borders describe.
   */
  lemma PassingPixelInsideShape(rows: seq<seq<bool>>, cols: seq<seq<bool>>, x: int, y: int)
    requires 0 <= y < |rows| && 0 <= x < |cols|
    requires x < |rows[y]| && y < |cols[x]| && rows[y][x] && cols[x][y]
    ensures !IsOutsideShape(Borders(rows), Borders(cols), x, y)
  {
    LineBorderBounds(rows[y]);
    LineBorderBounds(cols[x]);
  }

  /**
   * On the borders of a picture with at least one column, every row border
   * ends before the column past the last, so the pointer test of the map as
   * written never raises and reports outside exactly when the pointer is not
   * over the shape.
   */
  lemma {:induction false} HandlerTestOnPicture(rows: seq<seq<bool>>, cols: seq<seq<bool>>, x: int, y: int)
    requires |cols| >= 1 && forall r :: 0 <= r < |rows| ==> |rows[r]| == |cols|
    ensures HandlerOutside(Borders(rows), Borders(cols), x, y) == Some(!PointerOverShape(Borders(rows), Borders(cols), x, y))
  {
    var hborder := Borders(rows);
    forall r | 0 <= r < |hborder|
      ensures hborder[r].hi < |Borders(cols)|
    {
      LineBorderBounds(rows[r]);
    }
    HandlerAsWrittenAgrees(hborder, Borders(cols), x, y);
  }

  // ---------------------------------------------------------------------
  // The river line
  // ---------------------------------------------------------------------

  /** `floor((bmin + bmax) / 2)` for every row: the middle of the river in that row. */
  function RiverLine(rborder: seq<Border>): (r: seq<int>)
    ensures |r| == |rborder|
  {
    seq(|rborder|, i requires 0 <= i < |rborder| => (rborder[i].lo + rborder[i].hi) / 2)
  }

  /** The middle of the river lies between the row's river borders. */
  lemma RiverLineWithin(rows: seq<seq<bool>>, y: int)
    requires 0 <= y < |rows|
    ensures var b := Borders(rows)[y];
            b.lo <= RiverLine(Borders(rows))[y] <= b.hi
  {
    LineBorderBounds(rows[y]);
  }

  /** Which entries of the river line are positive, that is, which rows show the river. */
  function Positives(s: seq<int>): (m: seq<bool>)
    ensures |m| == |s| && forall i :: 0 <= i < |s| ==> (m[i] <==> s[i] > 0)
  {
    seq(|s|, i requires 0 <= i < |s| => s[i] > 0)
  }

  /** Python's `s[-idx]` for `0 <= idx < |s|`: `s[0]` when `idx` is 0. */
  function NegIndex(n: nat, idx: nat): (k: nat)
    requires idx < n
    ensures k < n
  {
    if idx == 0 then 0 else n - idx
  }

  /** Whether `s[-idx]` is positive, for every `idx` in `range(len(s))`. */
  function NegativePositives(s: seq<int>): (m: seq<bool>)
    ensures |m| == |s| && forall i :: 0 <= i < |s| ==> (m[i] <==> s[NegIndex(|s|, i)] > 0)
  {
    seq(|s|, i requires 0 <= i < |s| => s[NegIndex(|s|, i)] > 0)
  }

  /** `s` with the entries in `lo .. hi` replaced by `v`: the slice assignment `s[lo:hi] = [v] * (hi - lo)`. */
  function Fill(s: seq<int>, lo: int, hi: int, v: int): (r: seq<int>)
    requires 0 <= lo <= hi <= |s|
    ensures |r| == |s|
  {
    seq(|s|, j requires 0 <= j < |s| => if lo <= j < hi then v else s[j])
  }

  /**
   * The padding as written: the first row showing the river is found
   * forwards; the last is searched backwards through `s[-idx]`, which
   * inspects `s[0]` first and reports every hit one row too early. Either
   * search fails when no row shows the river.
   */
  function PaddedAsWritten(s: seq<int>): Option<seq<int>>
  {
    var first := FirstTrue(Positives(s), 0);
    var last := FirstTrue(NegativePositives(s), 0);
    if first.None? || last.None? then None
    else
      var f, idx := first.value, last.value;
      Some(Fill(Fill(s, 0, f, s[f]), |s| - 1 - idx, |s|, s[NegIndex(|s|, idx)]))
  }

  /**
   * The padding as intended: the rows before the first row showing the
   * river take its position, and the rows after the last take that one's.
   */
  function Padded(s: seq<int>): Option<seq<int>>
  {
    var first := FirstTrue(Positives(s), 0);
    var last := LastTrueDown(Positives(s), |s| - 1, 0);
    if first.None? || last.None? then None
    else
      var f, l := first.value, last.value;
      Some(Fill(Fill(s, 0, f, s[f]), l + 1, |s|, s[l]))
  }

  /**
   * The intended padding keeps the length, fails exactly when no row
   * shows the river, copies the first position into every row before the
   * first row showing it and the last into every row after the last, and
   * leaves the rows between unchanged.
   */
  lemma PaddedShape(s: seq<int>)
    ensures Padded(s).None? <==> forall i :: 0 <= i < |s| ==> s[i] <= 0
    ensures Padded(s).Some? ==>
              var p, f, l := Padded(s).value, FirstTrue(Positives(s), 0).value, LastTrueDown(Positives(s), |s| - 1, 0).value;
              |p| == |s| && f <= l && s[f] > 0 && s[l] > 0 &&
              (forall j :: 0 <= j < f ==> s[j] <= 0 && p[j] == s[f]) &&
              (forall j :: f <= j <= l ==> p[j] == s[j]) &&
              (forall j :: l < j < |s| ==> s[j] <= 0 && p[j] == s[l])
  {
    var first := FirstTrue(Positives(s), 0);
    var last := LastTrueDown(Positives(s), |s| - 1, 0);
    if first.Some? {
      assert Positives(s)[first.value];
    }
  }

  /**
   * As written, when the first row shows the river the backward search
   * stops at once on `s[0]` and reports the last row: the last row takes
   * the first row's position.
   */
  lemma PaddedAsWrittenTopRow(s: seq<int>)
    requires |s| >= 1 && s[0] > 0
    ensures PaddedAsWritten(s) == Some(s[..|s| - 1] + [s[0]])
  {
    assert FirstTrue(Positives(s), 0) == Some(0);
    assert FirstTrue(NegativePositives(s), 0) == Some(0);
    var p := Fill(Fill(s, 0, 0, s[0]), |s| - 1, |s|, s[0]);
    assert p == s[..|s| - 1] + [s[0]];
  }

  /**
   * As written, when the first row does not show the river the backward
   * search finds the last row `l` that does, but the suffix assignment
   * starts at row `l - 1`, which takes row `l`'s position.
   */
  lemma PaddedAsWrittenShifted(s: seq<int>)
    requires |s| >= 1 && s[0] <= 0 && exists i :: 0 <= i < |s| && s[i] > 0
    ensures var f, l := FirstTrue(Positives(s), 0).value, LastTrueDown(Positives(s), |s| - 1, 0).value;
            1 <= f <= l && PaddedAsWritten(s) == Some(Fill(Fill(s, 0, f, s[f]), l - 1, |s|, s[l]))
  {
    var P := Positives(s);
    var k :| 0 <= k < |s| && s[k] > 0;
    assert P[k];
    var last := LastTrueDown(P, |s| - 1, 0);
    assert last.Some?;
    var l := last.value;
    assert !P[0];
    var first := FirstTrue(P, 0);
    assert first.Some? && first.value <= l;
    assert forall k :: l < k < |s| ==> s[k] <= 0 by {
      forall k | l < k < |s|
        ensures s[k] <= 0
      {
        assert !P[k];
      }
    }
    NegativeSearchFinds(s, l);
    assert |s| - 1 - (|s| - l) == l - 1 && NegIndex(|s|, |s| - l) == l;
  }

  /**
   * The backward search through `s[-idx]` stops at `idx = |s| - l` for the
   * last row `l` showing the river, when the first row does not show it.
   */
  lemma NegativeSearchFinds(s: seq<int>, l: int)
    requires 1 <= l < |s| && s[0] <= 0 && s[l] > 0
    requires forall k :: l < k < |s| ==> s[k] <= 0
    ensures FirstTrue(NegativePositives(s), 0) == Some(|s| - l)
  {
    var m := NegativePositives(s);
    var idx := |s| - l;
    assert NegIndex(|s|, idx) == l && m[idx];
    forall j | 0 <= j < idx
      ensures !m[j]
    {
      if j > 0 {
        assert s[|s| - j] <= 0;
      }
    }
  }

  /** Two inputs on which the written padding differs from the intended one. */
  lemma PaddingCounterexamples()
    ensures PaddedAsWritten([0, 3, 4, 0]) == Some([3, 4, 4, 4])
    ensures Padded([0, 3, 4, 0]) == Some([3, 3, 4, 4])
    ensures PaddedAsWritten([5, 0, 7, 8]) == Some([5, 0, 7, 5])
    ensures Padded([5, 0, 7, 8]) == Some([5, 0, 7, 8])
  {
    var a: seq<int> := [0, 3, 4, 0];
    assert FirstTrue(Positives(a), 0) == Some(1);
    assert LastTrueDown(Positives(a), 3, 0) == Some(2);
    PaddedAsWrittenShifted(a);
    assert Fill(Fill(a, 0, 1, 3), 1, 4, 4) == [3, 4, 4, 4];
    assert Fill(Fill(a, 0, 1, 3), 3, 4, 4) == [3, 3, 4, 4];
    var b: seq<int> := [5, 0, 7, 8];
    PaddedAsWrittenTopRow(b);
    assert b[..3] + [5] == [5, 0, 7, 5];
    assert FirstTrue(Positives(b), 0) == Some(0);
    assert LastTrueDown(Positives(b), 3, 0) == Some(3);
    assert Fill(Fill(b, 0, 0, 5), 4, 4, 8) == b;
  }

  /** The slice assignment `a[lo:hi] = [v] * (hi - lo)`, done in place. */
  method FillRange(a: array<int>, lo: int, hi: int, v: int)
    requires 0 <= lo <= hi <= a.Length
    modifies a
    ensures a[..] == Fill(old(a[..]), lo, hi, v)
  {
    ghost var s := a[..];
    for i := lo to hi
      invariant forall j :: 0 <= j < a.Length ==> a[j] == (if lo <= j < i then v else s[j])
    {
      a[i] := v;
    }
  }

  /**
   * The padding of the river line as written, in place. When no row shows
   * the river the searches fail and the line is left as it was.
   */
  method PadRiverAsWritten(river: array<int>) returns (ok: bool)
    modifies river
    ensures ok == PaddedAsWritten(old(river[..])).Some?
    ensures ok ==> river[..] == PaddedAsWritten(old(river[..])).value
    ensures !ok ==> river[..] == old(river[..])
  {
    var s := river[..];
    var first := FirstTrue(Positives(s), 0);
    var last := FirstTrue(NegativePositives(s), 0);
    if first.None? || last.None? {
      return false;
    }
    var f, firstVal := first.value, s[first.value];
    var l, lastVal := |s| - 1 - last.value, s[NegIndex(|s|, last.value)];
    FillRange(river, 0, f, firstVal);
    FillRange(river, l, river.Length, lastVal);
    ok := true;
  }

  /** The padding of the river line as intended, in place. */
  method PadRiver(river: array<int>) returns (ok: bool)
    modifies river
    ensures ok == Padded(old(river[..])).Some?
    ensures ok ==> river[..] == Padded(old(river[..])).value
    ensures !ok ==> river[..] == old(river[..])
  {
    var s := river[..];
    var first := FirstTrue(Positives(s), 0);
    var last := LastTrueDown(Positives(s), |s| - 1, 0);
    if first.None? || last.None? {
      return false;
    }
    var f, firstVal := first.value, s[first.value];
    var l, lastVal := last.value, s[last.value];
    FillRange(river, 0, f, firstVal);
    FillRange(river, l + 1, river.Length, lastVal);
    ok := true;
  }
}
