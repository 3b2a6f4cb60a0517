/**
 * The colour logic of src/map.ts: the gradient bucket a stop's arrival
 * time falls in, the `#rrggbb` text of a colour, and the label the tooltip
 * shows for the colour under the pointer.
 */
module Colors {
  import opened Common
  import opened Decimal
  import Dijkstra

  /** The number of gradient buckets, one per minute, the last meaning "this many or more". */
  const GRADIENT_STEPS: int := 121

  /** The gradient bucket `repaint` gives a stop reached at `cost` when the search started at `start`. */
  function ColorIndex(cost: int, start: int, steps: int): int
  {
    if cost - start < steps - 1 then cost - start else steps - 1
  }

  /**
   * The bucket is never past the last one; a stop reached within the
   * range gets the bucket of its travel time in minutes, and a stop reached
   * no earlier than the start gets a valid bucket.
   */
  lemma ColorIndexBounds(cost: int, start: int, steps: int)
    ensures ColorIndex(cost, start, steps) <= steps - 1
    ensures cost - start <= steps - 1 ==> ColorIndex(cost, start, steps) == cost - start
    ensures cost - start >= steps - 1 ==> ColorIndex(cost, start, steps) == steps - 1
    ensures start <= cost && 1 <= steps ==> 0 <= ColorIndex(cost, start, steps)
  {
  }

  /**
   * A stop the search never reached keeps the initial cost and falls in
   * the last bucket, for every start the hour selector offers.
   */
  lemma UnreachedInLastBucket(hour: int)
    requires 0 <= hour < 24
    ensures ColorIndex(Dijkstra.MAX_SAFE_INTEGER, hour * 60, GRADIENT_STEPS) == GRADIENT_STEPS - 1
  {
  }

  /** Indexing a JavaScript array: the element, or `undefined` (`None`) outside the array. */
  function Lookup<T>(s: seq<T>, i: int): (r: Option<T>)
    ensures r.Some? <==> 0 <= i < |s|
    ensures r.Some? ==> r.value == s[i]
  {
    if 0 <= i < |s| then Some(s[i]) else None
  }

  /**
   * The loop of `repaint` over the visible stops: each stop gets the
   * gradient colour of its bucket, both as channel values and as text.
   */
  method Repaint(costs: seq<int>, start: int, steps: int, lookup: seq<seq<int>>, hexLookup: seq<string>,
                 color: array<Option<seq<int>>>, colorHex: array<Option<string>>)
    requires color.Length == |costs| && colorHex.Length == |costs|
    modifies color, colorHex
    ensures forall i :: 0 <= i < |costs| ==> color[i] == Lookup(lookup, ColorIndex(costs[i], start, steps))
    ensures forall i :: 0 <= i < |costs| ==> colorHex[i] == Lookup(hexLookup, ColorIndex(costs[i], start, steps))
  {
    for i := 0 to |costs|
      invariant forall k :: 0 <= k < i ==> color[k] == Lookup(lookup, ColorIndex(costs[k], start, steps))
      invariant forall k :: 0 <= k < i ==> colorHex[k] == Lookup(hexLookup, ColorIndex(costs[k], start, steps))
    {
      var colorIdx := if costs[i] - start < steps - 1 then costs[i] - start else steps - 1;
      color[i] := Lookup(lookup, colorIdx);
      colorHex[i] := Lookup(hexLookup, colorIdx);
    }
  }

  /**
   * With one colour per bucket, every stop reached no earlier than the
   * start gets a gradient colour: the colour of its travel time in minutes,
   * or the last colour.
   */
  lemma RepaintColorDefined(cost: int, start: int, hexLookup: seq<string>)
    requires |hexLookup| == GRADIENT_STEPS && start <= cost
    ensures Lookup(hexLookup, ColorIndex(cost, start, GRADIENT_STEPS)).Some?
    ensures cost - start < GRADIENT_STEPS ==> Lookup(hexLookup, ColorIndex(cost, start, GRADIENT_STEPS)) == Some(hexLookup[cost - start])
    ensures cost - start >= GRADIENT_STEPS - 1 ==> Lookup(hexLookup, ColorIndex(cost, start, GRADIENT_STEPS)) == Some(hexLookup[GRADIENT_STEPS - 1])
  {
    ColorIndexBounds(cost, start, GRADIENT_STEPS);
  }

  /** `2 ^ k`, which exceeds `k`. */
  function Pow2(k: nat): (r: nat)
    ensures r >= 1 && r > k
  {
    if k == 0 then 1 else 2 * Pow2(k - 1)
  }

  /** The powers of two that the channel shifts and the marker bit use. */
  lemma {:induction false} Pow2Channels()
    ensures Pow2(8) == 256 && Pow2(16) == 65536 && Pow2(24) == 0x100_0000
  {
    assert Pow2(1) == 2 && Pow2(2) == 4 && Pow2(3) == 8 && Pow2(4) == 16;
    assert Pow2(5) == 32 && Pow2(6) == 64 && Pow2(7) == 128 && Pow2(8) == 256;
    assert Pow2(9) == 512 && Pow2(10) == 1024 && Pow2(11) == 2048 && Pow2(12) == 4096;
    assert Pow2(13) == 8192 && Pow2(14) == 16384 && Pow2(15) == 32768 && Pow2(16) == 65536;
    assert Pow2(17) == 0x2_0000 && Pow2(18) == 0x4_0000 && Pow2(19) == 0x8_0000 && Pow2(20) == 0x10_0000;
    assert Pow2(21) == 0x20_0000 && Pow2(22) == 0x40_0000 && Pow2(23) == 0x80_0000;
  }

  /** Bitwise or of two non-negative integers, bit by bit from the lowest. */
  function BitOr(a: nat, b: nat): nat
    decreases a + b
  {
    if a == 0 && b == 0 then 0
    else 2 * BitOr(a / 2, b / 2) + (if a % 2 == 1 || b % 2 == 1 then 1 else 0)
  }

  lemma {:induction false} BitOrZero(b: nat)
    ensures BitOr(0, b) == b
    decreases b
  {
    if b != 0 {
      BitOrZero(b / 2);
    }
  }

  /**
   * Or-ing a value below `2 ^ k` with a multiple of `2 ^ k` adds them: the
   * two occupy disjoint bits.
   */
  lemma {:induction false} BitOrDisjoint(x: nat, y: nat, k: nat)
    requires x < Pow2(k)
    ensures BitOr(x, y * Pow2(k)) == x + y * Pow2(k)
  {
    if k == 0 {
      BitOrZero(y * Pow2(k));
    } else {
      var t := y * Pow2(k - 1);
      assert y * Pow2(k) == 2 * t;
      BitOrDisjoint(x / 2, y, k - 1);
      if x == 0 && 2 * t == 0 {
      } else {
        assert (2 * t) / 2 == t && (2 * t) % 2 == 0;
      }
    }
  }

  lemma {:induction false} BitOrCommutes(a: nat, b: nat)
    ensures BitOr(a, b) == BitOr(b, a)
    decreases a + b
  {
    if a != 0 || b != 0 {
      BitOrCommutes(a / 2, b / 2);
    }
  }

  /** A colour channel as `rgbToHex` reads it. */
  predicate IsChannel(c: int)
  {
    0 <= c < 256
  }

  /** The lower-case hexadecimal digit of `d`. */
  function HexDigit(d: int): char
    requires 0 <= d < 16
  {
    if d < 10 then ('0' as int + d) as char else ('a' as int + d - 10) as char
  }

  /** `Number.prototype.toString(16)` on a non-negative integer: lower-case digits, no leading zero. */
  function ToHex(n: nat): string
  {
    if n < 16 then [HexDigit(n)] else ToHex(n / 16) + [HexDigit(n % 16)]
  }

  /** Appending a digit in base sixteen appends its character. */
  lemma {:induction false} ToHexAppend(a: nat, d: nat)
    requires a >= 1 && d < 16
    ensures ToHex(a * 16 + d) == ToHex(a) + [HexDigit(d)]
  {
    DivModBy16(a, d);
  }

  lemma DivModBy16(a: nat, d: nat)
    requires d < 16
    ensures (a * 16 + d) / 16 == a && (a * 16 + d) % 16 == d
  {
  }

  /** The two digits of a channel, high first. */
  function HexPair(c: int): string
    requires IsChannel(c)
  {
    [HexDigit(c / 16), HexDigit(c % 16)]
  }

  /**
   * `rgbToHex`: packs the channels with shifts and bitwise or, sets bit 24
   * so that the hexadecimal text has seven digits, and replaces the
   * leading `1` by `#`. The result is `#` and two lower-case digits per
   * channel, red, green, blue.
   */
  function RgbToHex(color: seq<int>): (s: string)
    requires |color| >= 3 && IsChannel(color[0]) && IsChannel(color[1]) && IsChannel(color[2])
    ensures s == "#" + HexPair(color[0]) + HexPair(color[1]) + HexPair(color[2])
  {
    var r, g, b := color[0], color[1], color[2];
    var rgb := BitOr(BitOr(b, g * Pow2(8)), r * Pow2(16));
    PackedBits(r, g, b);
    PackedHex(r, g, b);
    "#" + ToHex(BitOr(0x100_0000, rgb))[1..]
  }

  /** Shifting the channels into place and or-ing them adds them, and so does or-ing bit 24. */
  lemma {:induction false} PackedBits(r: int, g: int, b: int)
    requires IsChannel(r) && IsChannel(g) && IsChannel(b)
    ensures var rgb := BitOr(BitOr(b, g * Pow2(8)), r * Pow2(16));
            rgb == r * 65536 + g * 256 + b && BitOr(0x100_0000, rgb) == 0x100_0000 + rgb
  {
    Pow2Channels();
    var sg, sr := g * Pow2(8), r * Pow2(16);
    assert sg == g * 256 && sr == r * 65536;
    BitOrDisjoint(b, g, 8);
    assert BitOr(b, sg) == b + g * 256;
    BitOrDisjoint(b + g * 256, r, 16);
    var rgb := r * 65536 + g * 256 + b;
    assert BitOr(BitOr(b, sg), sr) == rgb;
    BitOrCommutes(0x100_0000, rgb);
    BitOrDisjoint(rgb, 1, 24);
  }

  /** The hexadecimal text of the packed value: a `1`, then two digits per channel. */
  lemma {:induction false} PackedHex(r: int, g: int, b: int)
    requires IsChannel(r) && IsChannel(g) && IsChannel(b)
    ensures ToHex(0x100_0000 + r * 65536 + g * 256 + b) == "1" + HexPair(r) + HexPair(g) + HexPair(b)
  {
    SixDigits(r / 16, r % 16, g / 16, g % 16, b / 16, b % 16);
  }

  /** Six digits after a leading `1`. */
  lemma {:induction false} SixDigits(d1: nat, d2: nat, d3: nat, d4: nat, d5: nat, d6: nat)
    requires d1 < 16 && d2 < 16 && d3 < 16 && d4 < 16 && d5 < 16 && d6 < 16
    ensures ToHex(((((((16 + d1) * 16 + d2) * 16 + d3) * 16 + d4) * 16 + d5) * 16 + d6)) ==
              ['1', HexDigit(d1), HexDigit(d2), HexDigit(d3), HexDigit(d4), HexDigit(d5), HexDigit(d6)]
  {
    var a1 := 16 + d1;
    var a2 := a1 * 16 + d2;
    var a3 := a2 * 16 + d3;
    var a4 := a3 * 16 + d4;
    var a5 := a4 * 16 + d5;
    assert ToHex(1) == ['1'];
    ToHexAppend(1, d1);
    ToHexAppend(a1, d2);
    assert ToHex(a2) == ['1', HexDigit(d1), HexDigit(d2)];
    ToHexAppend(a2, d3);
    ToHexAppend(a3, d4);
    assert ToHex(a4) == ['1', HexDigit(d1), HexDigit(d2), HexDigit(d3), HexDigit(d4)];
    ToHexAppend(a4, d5);
    ToHexAppend(a5, d6);
  }

  /** The value of a lower-case hexadecimal digit, if it is one. */
  function HexDigitValue(c: char): Option<int>
  {
    if '0' <= c <= '9' then Some(c as int - '0' as int)
    else if 'a' <= c <= 'f' then Some(c as int - 'a' as int + 10)
    else None
  }

  function HexPairValue(s: string): Option<int>
    requires |s| == 2
  {
    match (HexDigitValue(s[0]), HexDigitValue(s[1]))
    case (Some(h), Some(l)) => Some(h * 16 + l)
    case _ => None
  }

  /** Reads back the channels of a `#rrggbb` colour. */
  function ParseHexColor(s: string): Option<seq<int>>
  {
    if |s| != 7 || s[0] != '#' then None
    else match (HexPairValue(s[1..3]), HexPairValue(s[3..5]), HexPairValue(s[5..7]))
      case (Some(r), Some(g), Some(b)) => Some([r, g, b])
      case _ => None
  }

  lemma HexDigitRoundTrip(d: int)
    requires 0 <= d < 16
    ensures HexDigitValue(HexDigit(d)) == Some(d)
  {
  }

  lemma {:induction false} HexPairRoundTrip(c: int)
    requires IsChannel(c)
    ensures HexPairValue(HexPair(c)) == Some(c)
  {
    HexDigitRoundTrip(c / 16);
    HexDigitRoundTrip(c % 16);
  }

  /** Where the digits of each channel sit in the text of a colour. */
  lemma {:induction false} HexTextSlices(color: seq<int>)
    requires |color| >= 3 && IsChannel(color[0]) && IsChannel(color[1]) && IsChannel(color[2])
    ensures var s := RgbToHex(color);
            |s| == 7 && s[0] == '#' && s[1..3] == HexPair(color[0]) && s[3..5] == HexPair(color[1]) &&
            s[5..7] == HexPair(color[2])
  {
    var s := RgbToHex(color);
    var p0, p1, p2 := HexPair(color[0]), HexPair(color[1]), HexPair(color[2]);
    assert s == ['#', p0[0], p0[1], p1[0], p1[1], p2[0], p2[1]];
  }

  /** The text of a colour determines the colour: reading it back gives the three channels. */
  lemma {:induction false} RgbToHexRoundTrip(color: seq<int>)
    requires |color| >= 3 && IsChannel(color[0]) && IsChannel(color[1]) && IsChannel(color[2])
    ensures ParseHexColor(RgbToHex(color)) == Some(color[..3])
  {
    HexTextSlices(color);
    HexPairRoundTrip(color[0]);
    HexPairRoundTrip(color[1]);
    HexPairRoundTrip(color[2]);
    assert color[..3] == [color[0], color[1], color[2]];
  }

  /** `Array.prototype.indexOf`: the first position holding `x`, or -1. */
  function IndexOf(s: seq<string>, x: string, from: nat): (r: int)
    requires from <= |s|
    ensures r == -1 || from <= r < |s|
    ensures r >= 0 ==> s[r] == x && forall j :: from <= j < r ==> s[j] != x
    ensures r == -1 <==> forall j :: from <= j < |s| ==> s[j] != x
    decreases |s| - from
  {
    if from == |s| then -1
    else if s[from] == x then from
    else IndexOf(s, x, from + 1)
  }

  /**
   * The tooltip of the pointer handler: the bucket of the colour `hex` in
   * the gradient, where white not in the gradient counts as bucket 0, as
   * minutes, with `+` on the last bucket; nothing when the colour is not a
   * gradient colour.
   */
  function TooltipLabel(hexLookup: seq<string>, steps: int, hex: string): Option<string>
  {
    var found := IndexOf(hexLookup, hex, 0);
    var idx := if found < 0 && hex == "#ffffff" then 0 else found;
    if idx >= 0 then Some(NatToString(idx) + (if idx < steps - 1 then " min" else "+ min"))
    else None
  }

  /**
   * The label of a gradient colour starts with the number of its first
   * bucket, which reads back as that bucket, and ends with the minute unit.
   */
  lemma {:induction false} TooltipOfGradientColor(hexLookup: seq<string>, steps: int, i: nat)
    requires i < |hexLookup| && forall j :: 0 <= j < i ==> hexLookup[j] != hexLookup[i]
    ensures TooltipLabel(hexLookup, steps, hexLookup[i]) ==
              Some(NatToString(i) + (if i < steps - 1 then " min" else "+ min"))
    ensures ParseInt(NatToString(i)) == Some(i)
  {
    assert IndexOf(hexLookup, hexLookup[i], 0) == i;
    ParseIntOfNatToString(i);
  }

  /** White outside the gradient reads as zero minutes; any other foreign colour gives no label. */
  lemma TooltipOfForeignColor(hexLookup: seq<string>, steps: int, hex: string)
    requires forall j :: 0 <= j < |hexLookup| ==> hexLookup[j] != hex
    ensures hex == "#ffffff" ==> TooltipLabel(hexLookup, steps, hex) == Some(if 0 < steps - 1 then "0 min" else "0+ min")
    ensures hex != "#ffffff" ==> TooltipLabel(hexLookup, steps, hex) == None
  {
    assert IndexOf(hexLookup, hex, 0) == -1;
    assert DigitChar(0) == '0';
    assert NatToString(0) == "0";
    assert "0" + " min" == "0 min" && "0" + "+ min" == "0+ min";
  }
}
