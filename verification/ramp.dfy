/** One colour range of the ramp: the box between two consecutive breakpoints
    and the linear map from a pixel in it to a z value (`RgbRange` in
    RGB-to-Z.py, duplicated in numpy_to_raster_test.py). */
module Ramp {
  import opened Wrappers
  import opened Reals

  /** A channel index: 0 = red, 1 = green, 2 = blue. */
  type Channel = c: int | 0 <= c < 3

  /** An RGB triple: a pixel, or the colour of a breakpoint. */
  datatype Rgb = Rgb(r: int, g: int, b: int)

  function At(p: Rgb, c: Channel): int {
    if c == 0 then p.r else if c == 1 then p.g else p.b
  }

  function IntAbs(x: int): nat {
    if x < 0 then -x else x
  }

  function Min(x: int, y: int): int {
    if x <= y then x else y
  }

  function Max(x: int, y: int): int {
    if x <= y then y else x
  }

  /** A range built from two consecutive breakpoints: `rgbMin` is the colour of
      the earlier one and `zMin` its z, `rgbMax`/`zMax` those of the later one.
      Nothing orders the two: either z or any channel may descend. */
  datatype RgbRange = RgbRange(rgbMin: Rgb, rgbMax: Rgb, zMin: int, zMax: int)

  /** `_z_range`: the absolute z difference of the two breakpoints. */
  function ZRange(rr: RgbRange): nat {
    IntAbs(rr.zMax - rr.zMin)
  }

  /** `rgb_range[c]`: the absolute difference of the breakpoints in channel c. */
  function Span(rr: RgbRange, c: Channel): nat {
    IntAbs(At(rr.rgbMax, c) - At(rr.rgbMin, c))
  }

  /** The sorted bounds `red`, `green`, `blue` of the box, one pair per channel. */
  function Low(rr: RgbRange, c: Channel): int {
    Min(At(rr.rgbMax, c), At(rr.rgbMin, c))
  }

  function High(rr: RgbRange, c: Channel): int {
    Max(At(rr.rgbMax, c), At(rr.rgbMin, c))
  }

  /** `c` lies between `a` and `b`, whichever of the two is larger. */
  predicate Between(a: int, x: int, b: int) {
    (a <= x <= b) || (b <= x <= a)
  }

  /** The box of a range is well formed: its sorted bounds are ordered and its
      width in every channel is that channel's span. */
  lemma BoxWidthIsSpan(rr: RgbRange, c: Channel)
    ensures Low(rr, c) <= High(rr, c)
    ensures High(rr, c) - Low(rr, c) == Span(rr, c)
  {
  }

  /** `in_range`: the pixel lies inside the axis-aligned box, in all three channels at once. */
  predicate InRange(rr: RgbRange, p: Rgb)
    ensures InRange(rr, p) <==> forall c: Channel :: Between(At(rr.rgbMin, c), At(p, c), At(rr.rgbMax, c))
  {
    && Low(rr, 0) <= p.r <= High(rr, 0)
    && Low(rr, 1) <= p.g <= High(rr, 1)
    && Low(rr, 2) <= p.b <= High(rr, 2)
  }

  /** The box test does not depend on which breakpoint is called min and which max. */
  lemma InRangeSymmetric(rr: RgbRange, p: Rgb)
    ensures InRange(RgbRange(rr.rgbMax, rr.rgbMin, rr.zMax, rr.zMin), p) == InRange(rr, p)
  {
  }

  /** Both breakpoints lie in their own box. */
  lemma CornersInRange(rr: RgbRange)
    ensures InRange(rr, rr.rgbMin) && InRange(rr, rr.rgbMax)
  {
  }

  /** `_spectral_position`: how far each channel of the pixel sits from `rgbMin`. */
  function SpectralPosition(rr: RgbRange, p: Rgb): Rgb {
    Rgb(IntAbs(rr.rgbMin.r - p.r), IntAbs(rr.rgbMin.g - p.g), IntAbs(rr.rgbMin.b - p.b))
  }

  /** `list.index(max(list))`: the first channel, in R, G, B order, holding the largest value. */
  function Band(d: Rgb): (c: Channel)
    ensures forall k: Channel :: At(d, k) <= At(d, c)
    ensures forall k: Channel :: k < c ==> At(d, k) < At(d, c)
  {
    if d.r >= d.g && d.r >= d.b then 0
    else if d.g >= d.b then 1
    else 2
  }

  /** Inside the box, the deviation from `rgbMin` never exceeds the span, channel by channel. */
  lemma DeviationWithinSpan(rr: RgbRange, p: Rgb, c: Channel)
    requires InRange(rr, p)
    ensures At(SpectralPosition(rr, p), c) <= Span(rr, c)
  {
    assert Between(At(rr.rgbMin, c), At(p, c), At(rr.rgbMax, c));
  }

  /** The float of `rgb_to_z`: a deviation `dev` out of `span` scaled onto the
      z range `zr` and shifted by `zMin`, computed exactly. */
  function Scaled(dev: nat, span: nat, zr: nat, zMin: int): real
    requires span > 0
  {
    dev as real * (zr as real / span as real) + zMin as real
  }

  /** A deviation of at most the span lands between `zMin` and `zMin + zr`. */
  lemma ScaledWithin(dev: nat, span: nat, zr: nat, zMin: int)
    requires 0 < span && dev <= span
    ensures zMin as real <= Scaled(dev, span, zr, zMin) <= (zMin + zr) as real
  {
    var q := zr as real / span as real;
    assert q * span as real == zr as real;
    MulMonotone(dev as real, span as real, q);
  }

  /** The full span lands exactly on `zMin + zr`. */
  lemma ScaledFullSpan(span: nat, zr: nat, zMin: int)
    requires 0 < span
    ensures Scaled(span, span, zr, zMin) == (zMin + zr) as real
  {
    var q := zr as real / span as real;
    assert q * span as real == zr as real;
  }

  /** A larger deviation never scales to a smaller value. */
  lemma ScaledMonotone(dev1: nat, dev2: nat, span: nat, zr: nat, zMin: int)
    requires 0 < span && dev1 <= dev2
    ensures Scaled(dev1, span, zr, zMin) <= Scaled(dev2, span, zr, zMin)
  {
    MulMonotone(dev1 as real, dev2 as real, zr as real / span as real);
  }

  /** `rgb_to_z`: the z value of a pixel. The channel that deviates most from
      `rgbMin` is the band; the deviation in it is scaled by `ZRange / Span` from
      `zMin`, and the float is rounded. A zero deviation returns `zMin` as is; a
      zero span under a non-zero deviation is the float division by zero. */
  function RgbToZ(rr: RgbRange, p: Rgb): (r: Result<int>)
    ensures p == rr.rgbMin ==> r == Success(rr.zMin)
    ensures r.Failure? ==> r.error == ZeroDivisionError
  {
    var position := SpectralPosition(rr, p);
    var band := Band(position);
    var largest := At(position, band);
    if largest != 0 then
      if Span(rr, band) == 0 then Failure(ZeroDivisionError)
      else Success(RoundHalfAway(Scaled(largest, Span(rr, band), ZRange(rr), rr.zMin)))
    else
      Success(rr.zMin)
  }

  /** For a pixel inside the box the division is safe (the band's span is
      non-zero whenever its deviation is) and the z value lies between `zMin`
      and `zMin + |zMax - zMin|`. */
  lemma RgbToZInRange(rr: RgbRange, p: Rgb)
    requires InRange(rr, p)
    ensures var position := SpectralPosition(rr, p);
      At(position, Band(position)) != 0 ==> Span(rr, Band(position)) > 0
    ensures RgbToZ(rr, p).Success?
    ensures rr.zMin <= RgbToZ(rr, p).value <= rr.zMin + ZRange(rr)
  {
    var position := SpectralPosition(rr, p);
    var band := Band(position);
    var largest := At(position, band);
    DeviationWithinSpan(rr, p, band);
    if largest != 0 {
      ScaledWithin(largest, Span(rr, band), ZRange(rr), rr.zMin);
      RoundBetween(Scaled(largest, Span(rr, band), ZRange(rr), rr.zMin), rr.zMin, rr.zMin + ZRange(rr));
    }
  }

  /** At `rgbMax` the band is the first channel of largest span, and that span is
      non-zero unless the breakpoints share their colour. */
  lemma RgbMaxBand(rr: RgbRange)
    requires rr.rgbMin != rr.rgbMax
    ensures var band := Band(SpectralPosition(rr, rr.rgbMax));
      At(SpectralPosition(rr, rr.rgbMax), band) == Span(rr, band) > 0
  {
  }

  /** The pixel at `rgbMax` maps exactly to `zMax` when the breakpoints differ in
      colour and z does not descend. */
  lemma RgbMaxMapsToZMax(rr: RgbRange)
    requires rr.rgbMin != rr.rgbMax && rr.zMin <= rr.zMax
    ensures RgbToZ(rr, rr.rgbMax) == Success(rr.zMax)
  {
    RgbMaxBand(rr);
    var band := Band(SpectralPosition(rr, rr.rgbMax));
    ScaledFullSpan(Span(rr, band), ZRange(rr), rr.zMin);
    RoundOfInt(rr.zMax);
  }

  /** A descending z pair is not reversed: `rgbMax` maps to `zMin + |zMax - zMin|`,
      which lies above `zMin` by as much as `zMax` lies below it. */
  lemma DescendingRampMirrorsZMax(rr: RgbRange)
    requires rr.rgbMin != rr.rgbMax && rr.zMax < rr.zMin
    ensures RgbToZ(rr, rr.rgbMax) == Success(2 * rr.zMin - rr.zMax)
    ensures RgbToZ(rr, rr.rgbMax) != Success(rr.zMax)
  {
    RgbMaxBand(rr);
    var band := Band(SpectralPosition(rr, rr.rgbMax));
    ScaledFullSpan(Span(rr, band), ZRange(rr), rr.zMin);
    RoundOfInt(2 * rr.zMin - rr.zMax);
  }

  /** Two pixels of the same box whose dominant band is the same channel are
      ordered in z as their deviations in that channel are. */
  lemma RgbToZMonotoneInBand(rr: RgbRange, p: Rgb, q: Rgb)
    requires InRange(rr, p) && InRange(rr, q)
    requires Band(SpectralPosition(rr, p)) == Band(SpectralPosition(rr, q))
    requires At(SpectralPosition(rr, p), Band(SpectralPosition(rr, p)))
          <= At(SpectralPosition(rr, q), Band(SpectralPosition(rr, q)))
    ensures RgbToZ(rr, p).value <= RgbToZ(rr, q).value
  {
    RgbToZInRange(rr, p);
    RgbToZInRange(rr, q);
    var c := Band(SpectralPosition(rr, p));
    var dp := At(SpectralPosition(rr, p), c);
    var dq := At(SpectralPosition(rr, q), c);
    if dp != 0 {
      DeviationWithinSpan(rr, p, c);
      ScaledMonotone(dp, dq, Span(rr, c), ZRange(rr), rr.zMin);
      RoundMonotone(Scaled(dp, Span(rr, c), ZRange(rr), rr.zMin), Scaled(dq, Span(rr, c), ZRange(rr), rr.zMin));
    }
  }
}
