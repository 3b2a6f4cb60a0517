/**
 * The clipping of the drawn map to the city shape (src/map.ts): the two
 * point tests, and the pass that clears every RGBA pixel outside the shape
 * in an image buffer.
 *
 * `hborder[y]` holds the first and last column of row `y` that belong to
 * the shape, and `vborder[x]` the first and last row of column `x`.
 */
module ShapeMask {
  import opened Common

  /** A value of an RGBA channel, as stored in an image buffer. */
  newtype uint8 = x: int | 0 <= x < 256

  /** The first and last index of a row or column that belong to the shape. */
  datatype Border = Border(lo: int, hi: int)

  /** `isOutsideShape`: the pixel lies left or right of its row's border, or above or below its column's. */
  predicate IsOutsideShape(hborder: seq<Border>, vborder: seq<Border>, x: int, y: int)
    requires 0 <= y < |hborder| && 0 <= x < |vborder|
  {
    x < hborder[y].lo || x > hborder[y].hi || y < vborder[x].lo || y > vborder[x].hi
  }

  /**
   * `isOutsideOverlay` as written: the pixel lies outside the rows of
   * `hborder` or outside the columns `0 ..= |vborder|`. The upper column
   * bound is one past the last column `vborder` describes.
   */
  predicate IsOutsideOverlay(hborder: seq<Border>, vborder: seq<Border>, x: int, y: int)
  {
    y < 0 || y >= |hborder| || x < 0 || x > |vborder|
  }

  /**
   * The pixel at the column just past the last one is reported inside the
   * overlay, although `vborder` has no entry for it: the shape test that
   * the pointer handlers run next then reads `vborder[x]` as `undefined`.
   */
  lemma OverlayAdmitsColumnPastEnd(hborder: seq<Border>, vborder: seq<Border>, y: int)
    requires 0 <= y < |hborder|
    ensures !IsOutsideOverlay(hborder, vborder, |vborder|, y)
  {
  }

  /** The overlay test with the column bound the shape test needs. */
  predicate IsOutsideOverlayCorrected(hborder: seq<Border>, vborder: seq<Border>, x: int, y: int)
  {
    y < 0 || y >= |hborder| || x < 0 || x >= |vborder|
  }

  /**
   * The corrected test lets through exactly the pixels the shape test can
   * index, and differs from the written one only at the column past the end.
   */
  lemma OverlayCorrectedGuardsShape(hborder: seq<Border>, vborder: seq<Border>, x: int, y: int)
    ensures !IsOutsideOverlayCorrected(hborder, vborder, x, y) <==> 0 <= y < |hborder| && 0 <= x < |vborder|
    ensures IsOutsideOverlayCorrected(hborder, vborder, x, y) != IsOutsideOverlay(hborder, vborder, x, y) <==>
              x == |vborder| && 0 <= y < |hborder|
  {
  }

  /**
   * The test of the pointer handlers, `isOutsideOverlay(x, y) ||
   * isOutsideShape(x, y)`, with the corrected overlay bound: the pointer is
   * over the drawn shape.
   */
  predicate PointerOverShape(hborder: seq<Border>, vborder: seq<Border>, x: int, y: int)
  {
    !IsOutsideOverlayCorrected(hborder, vborder, x, y) && !IsOutsideShape(hborder, vborder, x, y)
  }

  /**
   * `isOutsideShape` as JavaScript evaluates it at a column that may be one
   * past the last: the tests run left to right and stop at the first that
   * holds, and `None` is the `TypeError` of reading a bound of the missing
   * entry `vborder[x]`, reached only when the row's border spans column `x`.
   */
  function ShapeTest(hborder: seq<Border>, vborder: seq<Border>, x: int, y: int): (r: Option<bool>)
    requires 0 <= y < |hborder| && 0 <= x
    ensures r.None? <==> hborder[y].lo <= x <= hborder[y].hi && x >= |vborder|
    ensures x < |vborder| ==> r == Some(IsOutsideShape(hborder, vborder, x, y))
  {
    if x < hborder[y].lo || x > hborder[y].hi then Some(true)
    else if x >= |vborder| then None
    else Some(y < vborder[x].lo || y > vborder[x].hi)
  }

  /**
   * The test of the `mousemove` handler, `isOutsideOverlay(x, y) ||
   * isOutsideShape(x, y)`, as written: the shape test runs only when the
   * overlay test fails, and `None` is the case in which it raises.
   */
  function HandlerOutside(hborder: seq<Border>, vborder: seq<Border>, x: int, y: int): Option<bool>
  {
    if IsOutsideOverlay(hborder, vborder, x, y) then Some(true) else ShapeTest(hborder, vborder, x, y)
  }

  /** The same test with the corrected overlay bound. */
  function HandlerOutsideCorrected(hborder: seq<Border>, vborder: seq<Border>, x: int, y: int): Option<bool>
  {
    if IsOutsideOverlayCorrected(hborder, vborder, x, y) then Some(true) else ShapeTest(hborder, vborder, x, y)
  }

  /**
   * A row whose border reaches the column past the last makes the handler
   * test as written raise there.
   */
  lemma HandlerRaisesPastEnd(hborder: seq<Border>, vborder: seq<Border>, y: int)
    requires 0 <= y < |hborder| && hborder[y].lo <= |vborder| <= hborder[y].hi
    ensures HandlerOutside(hborder, vborder, |vborder|, y).None?
  {
    OverlayAdmitsColumnPastEnd(hborder, vborder, y);
  }

  /** With the corrected bound the handler test never raises, and reports outside exactly when the pointer is not over the shape. */
  lemma HandlerCorrectedIsShape(hborder: seq<Border>, vborder: seq<Border>, x: int, y: int)
    ensures HandlerOutsideCorrected(hborder, vborder, x, y) == Some(!PointerOverShape(hborder, vborder, x, y))
  {
    OverlayCorrectedGuardsShape(hborder, vborder, x, y);
  }

  /**
   * When every row border ends before the column past the last, the test
   * as written agrees with the corrected one everywhere: at that column the
   * row test already reports the pixel outside, so `vborder` is never read
   * there.
   */
  lemma HandlerAsWrittenAgrees(hborder: seq<Border>, vborder: seq<Border>, x: int, y: int)
    requires forall r :: 0 <= r < |hborder| ==> hborder[r].hi < |vborder|
    ensures HandlerOutside(hborder, vborder, x, y) == HandlerOutsideCorrected(hborder, vborder, x, y)
    ensures HandlerOutside(hborder, vborder, x, y) == Some(!PointerOverShape(hborder, vborder, x, y))
  {
    OverlayCorrectedGuardsShape(hborder, vborder, x, y);
    HandlerCorrectedIsShape(hborder, vborder, x, y);
  }

  /**
   * Whether byte `p` of a row-major RGBA buffer `width` pixels wide belongs
   * to a pixel that the shape test reports outside.
   */
  predicate ClearedAt(hborder: seq<Border>, vborder: seq<Border>, width: int, p: int)
  {
    width > 0 && p >= 0 &&
    var x, y := (p / 4) % width, (p / 4) / width;
    y < |hborder| && x < |vborder| && IsOutsideShape(hborder, vborder, x, y)
  }

  /** What byte `p` holds after the border pass over a buffer that held `orig`. */
  function Masked(orig: seq<uint8>, hborder: seq<Border>, vborder: seq<Border>, width: int, p: int): uint8
    requires 0 <= p < |orig|
  {
    if ClearedAt(hborder, vborder, width, p) then 0 else orig[p]
  }

  /** A positive multiple of `d` is at least `d`. */
  lemma {:induction false} MulAtLeast(m: int, d: int)
    requires m >= 1 && d >= 0
    ensures m * d >= d
  {
    if m > 1 {
      MulAtLeast(m - 1, d);
      assert m * d == (m - 1) * d + d;
    }
  }

  /** Division by a positive divisor is determined by quotient and remainder. */
  lemma DivModUnique(a: int, d: int, q: int, r: int)
    requires d > 0 && 0 <= r < d && a == q * d + r
    ensures a / d == q && a % d == r
  {
    var q', r' := a / d, a % d;
    assert a == q' * d + r';
    if q > q' {
      assert (q - q') * d == q * d - q' * d;
      MulAtLeast(q - q', d);
    } else if q < q' {
      assert (q' - q) * d == q' * d - q * d;
      MulAtLeast(q' - q, d);
    }
  }

  /** The bytes of pixel `(j, i)` sit at `(i * width + j) * 4` and the three after, inside the buffer. */
  lemma PixelBytes(i: int, j: int, width: int, height: int)
    requires 0 <= i < height && 0 <= j < width
    ensures 0 <= (i * width + j) * 4 && (i * width + j) * 4 + 4 <= width * height * 4
  {
    MulAtLeast(height - i, width);
    assert (height - i) * width == height * width - i * width;
    assert width * height == height * width;
  }

  /** Each byte of pixel `(j, i)` is cleared exactly when the shape test reports the pixel outside. */
  lemma PixelCleared(hborder: seq<Border>, vborder: seq<Border>, i: int, j: int, width: int, k: int)
    requires 0 <= i < |hborder| && 0 <= j < width <= |vborder| && 0 <= k < 4
    ensures ClearedAt(hborder, vborder, width, (i * width + j) * 4 + k) == IsOutsideShape(hborder, vborder, j, i)
  {
    assert 0 <= i * width;
    DivModUnique((i * width + j) * 4 + k, 4, i * width + j, k);
    DivModUnique(i * width + j, width, i, j);
  }

  /**
   * `setPixel`: writes the four values at `idx` and after, and nothing else.
   */
  method SetPixel(data: array<uint8>, idx: int, values: seq<uint8>)
    requires |values| == 4 && 0 <= idx && idx + 4 <= data.Length
    modifies data
    ensures forall p :: 0 <= p < data.Length ==>
              data[p] == if idx <= p < idx + 4 then values[p - idx] else old(data[p])
  {
    for i := 0 to 4
      invariant forall p :: 0 <= p < data.Length ==>
                  data[p] == if idx <= p < idx + i then values[p - idx] else old(data[p])
    {
      data[idx + i] := values[i];
    }
  }

  /** The bytes below the byte offset `n` are masked, the rest untouched. */
  predicate MaskedBelow(data: seq<uint8>, orig: seq<uint8>, hborder: seq<Border>, vborder: seq<Border>,
                        width: int, n: int)
    requires |data| == |orig|
  {
    (forall p :: 0 <= p < n && p < |orig| ==> data[p] == Masked(orig, hborder, vborder, width, p)) &&
    (forall p :: n <= p < |orig| && 0 <= p ==> data[p] == orig[p])
  }

  /** Handling one pixel whose bytes start at `idx` extends the masked prefix by four bytes. */
  lemma MaskStep(before: seq<uint8>, after: seq<uint8>, orig: seq<uint8>, hborder: seq<Border>,
                 vborder: seq<Border>, width: int, idx: int, cleared: bool)
    requires |before| == |orig| && |after| == |orig| && 0 <= idx && idx + 4 <= |orig|
    requires MaskedBelow(before, orig, hborder, vborder, width, idx)
    requires forall p :: idx <= p < idx + 4 ==> ClearedAt(hborder, vborder, width, p) == cleared
    requires forall p :: 0 <= p < |after| ==> after[p] == if cleared && idx <= p < idx + 4 then 0 else before[p]
    ensures MaskedBelow(after, orig, hborder, vborder, width, idx + 4)
  {
  }

  /**
   * `drawBorders`: scans the pixels row by row and clears the four bytes of
   * every pixel outside the shape; every other byte keeps its value.
   */
  method DrawBorders(data: array<uint8>, width: int, height: int, hborder: seq<Border>, vborder: seq<Border>)
    requires 0 <= width && 0 <= height && data.Length == width * height * 4
    requires height <= |hborder| && width <= |vborder|
    modifies data
    ensures forall p :: 0 <= p < data.Length ==> data[p] == Masked(old(data[..]), hborder, vborder, width, p)
  {
    ghost var orig := data[..];
    for i := 0 to height
      invariant MaskedBelow(data[..], orig, hborder, vborder, width, i * width * 4)
    {
      DrawRow(data, i, width, height, hborder, vborder, orig);
    }
  }

  /** The inner loop of `drawBorders`, over the pixels of row `i`. */
  method DrawRow(data: array<uint8>, i: int, width: int, height: int, hborder: seq<Border>, vborder: seq<Border>,
                 ghost orig: seq<uint8>)
    requires 0 <= i < height && 0 <= width && data.Length == width * height * 4 && |orig| == data.Length
    requires height <= |hborder| && width <= |vborder|
    requires MaskedBelow(data[..], orig, hborder, vborder, width, i * width * 4)
    modifies data
    ensures MaskedBelow(data[..], orig, hborder, vborder, width, (i + 1) * width * 4)
  {
    for j := 0 to width
      invariant MaskedBelow(data[..], orig, hborder, vborder, width, (i * width + j) * 4)
    {
      var idx := (i * width + j) * 4;
      PixelBytes(i, j, width, height);
      var cleared := IsOutsideShape(hborder, vborder, j, i);
      forall p | idx <= p < idx + 4
        ensures ClearedAt(hborder, vborder, width, p) == cleared
      {
        PixelCleared(hborder, vborder, i, j, width, p - idx);
      }
      ghost var before := data[..];
      if cleared {
        SetPixel(data, idx, [0, 0, 0, 0]);
      }
      MaskStep(before, data[..], orig, hborder, vborder, width, idx, cleared);
    }
    assert (i * width + width) * 4 == (i + 1) * width * 4;
  }
}
