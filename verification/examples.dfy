/** Worked cases: the two-breakpoint grey ramp, the blank-line divergence of
    the two parsers, the null value coinciding with a real z value, and the
    2×2 histogram. */
module Examples {
  import opened Wrappers
  import opened Ramp
  import opened RampLookup
  import opened RampParser
  import opened Equalisation

  function GreyBreakpoints(): seq<Breakpoint> {
    [Breakpoint(Rgb(0, 0, 0), 0), Breakpoint(Rgb(255, 255, 255), 100)]
  }

  /** The ramp black = 0, white = 100: a single range. */
  function GreyRamp(): seq<RgbRange> {
    RangesOf(GreyBreakpoints())
  }

  lemma GreyRampIsOneRange()
    ensures GreyRamp() == [RgbRange(Rgb(0, 0, 0), Rgb(255, 255, 255), 0, 100)]
  {
  }

  /** Pure red deviates 255 in the red band, whose span is 255: it maps to 100. */
  lemma PureRedMapsToTop()
    ensures ReturnZValue(Rgb(255, 0, 0), GreyRamp(), -1) == 100
  {
    GreyRampIsOneRange();
    var rr := RgbRange(Rgb(0, 0, 0), Rgb(255, 255, 255), 0, 100);
    assert InRange(rr, Rgb(255, 0, 0));
    ScaledFullSpan(255, 100, 0);
    Reals.RoundOfInt(100);
    assert RgbToZ(rr, Rgb(255, 0, 0)) == Success(100);
  }

  /** Black is the base breakpoint itself: it maps to 0 with no rounding. */
  lemma BlackMapsToBase()
    ensures ReturnZValue(Rgb(0, 0, 0), GreyRamp(), -1) == 0
  {
    GreyRampIsOneRange();
  }

  /** Mid grey maps to the nearest integer of 128 · 100 / 255 ≈ 50.2. */
  lemma MidGreyRounds()
    ensures ReturnZValue(Rgb(128, 128, 128), GreyRamp(), -1) == 50
  {
    GreyRampIsOneRange();
    var rr := RgbRange(Rgb(0, 0, 0), Rgb(255, 255, 255), 0, 100);
    assert InRange(rr, Rgb(128, 128, 128));
    var x := Scaled(128, 255, 100, 0);
    assert x == 12800.0 / 255.0;
    assert 49.5 < x < 50.5;
    assert RgbToZ(rr, Rgb(128, 128, 128)) == Success(50);
  }

  /** The decimal texts of the grey ramp's numbers. */
  lemma GreyShow()
    ensures Text.ShowInt(0) == "0" && Text.ShowInt(100) == "100" && Text.ShowInt(255) == "255"
  {
    assert Text.ShowInt(255) == "255";
    assert Text.ShowInt(100) == "100";
  }

  lemma GreyRender()
    ensures Render(GreyBreakpoints()) == ["0 0 0 0\n", "255 255 255 100\n"]
  {
    GreyShow();
    assert Text.Join(["0", "0", "0", "0"]) == "0 0 0 0";
    assert RenderLine(GreyBreakpoints()[0]) == "0 0 0 0\n";
    assert Text.Join(["255", "255", "255", "100"]) == "255 255 255 100";
    assert RenderLine(GreyBreakpoints()[1]) == "255 255 255 100\n";
  }

  /** The file "0 0 0 0", "255 255 255 100" followed by a blank line: RGB-to-Z.py
      builds the one grey range, numpy_to_raster_test.py fails on the blank line. */
  lemma BlankTrailingLine()
    ensures CreateRgbRange(["0 0 0 0\n", "255 255 255 100\n", "\n"]) == Success(GreyRamp())
    ensures CreateRgbRangeUnfiltered(["0 0 0 0\n", "255 255 255 100\n", "\n"]) == Failure(IndexError)
  {
    var bps := GreyBreakpoints();
    var lines := ["0 0 0 0\n", "255 255 255 100\n", "\n"];
    GreyRender();
    assert Text.IsBlank("\n");
    RenderWithBlankLineFails(bps, "\n");
    assert Render(bps) + ["\n"] == lines;
  }

  /** The null value is not reserved: a matched pixel whose z happens to equal it
      cannot be told from an unmatched one. */
  lemma NullValueCollides()
    ensures InRange(RgbRange(Rgb(0, 0, 0), Rgb(10, 10, 10), -9999, 0), Rgb(0, 0, 0))
    ensures ReturnZValue(Rgb(0, 0, 0), [RgbRange(Rgb(0, 0, 0), Rgb(10, 10, 10), -9999, 0)], -9999) == -9999
    ensures ReturnZValue(Rgb(50, 0, 0), [RgbRange(Rgb(0, 0, 0), Rgb(10, 10, 10), -9999, 0)], -9999) == -9999
  {
  }

  /** The 2×2 channel [[0, 0], [255, 255]] over the 255 bins of `arange(0, 256)`:
      two pixels in bin 0, two in the last bin. `cdf_min` is 2, and the
      equalised value 0 maps back to bin 0. */
  lemma TwoByTwoHistogram()
    ensures CdfMin(CumSum(seq(255, i => if i == 0 || i == 254 then 2 else 0))) == Success(2)
    ensures CalculateCdf(0, CumSum(seq(255, i => if i == 0 || i == 254 then 2 else 0)), 2, 2, 2, 256) == Success(0)
  {
    var counts := seq(255, i => if i == 0 || i == 254 then 2 else 0);
    ZeroMapsToFirstOccupiedBin(counts, 0, 2, 2, 256);
  }
}
