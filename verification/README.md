# RGB-to-Z colour-ramp core, modelled in Dafny

The ArcGIS "RGB to Z" tool turns a three-band colour image into a scalar
surface (elevation, depth) by reading each pixel's colour off a colour ramp.
A ramp file lists breakpoints `R G B Z`, one per line. Each pair of
consecutive breakpoints makes an `RgbRange`: an axis-aligned box in RGB space
together with a linear map onto z. Optionally the image is first
"un-equalised": every channel value is mapped back through the cumulative
histogram to the bin it most likely came from.

This project models the pure core of the tool. That core appears twice, with
minor differences, in `RGB-to-Z.py` and `numpy_to_raster_test.py`. The model
has these parts:

- `Ramp` (`ramp.dfy`) holds `RgbRange`, the box test `in_range` and the
  interpolation `rgb_to_z`. The band is the first channel of largest
  deviation from `rgb_min`. The z value is scaled by `|z_max - z_min| / span`,
  then rounded half away from zero, as Python 2 `round` does.
- `RampLookup` (`ramp_lookup.dfy`) holds `return_z_value`. It does a
  first-match scan over the ranges and returns the null value when nothing
  matches.
- `Text` (`text.dfy`) holds Python 2 `str.split()` and `int()` of a token.
  It also has their inverses, `Join` and `ShowInt`, which are used for the
  round-trip lemmas.
- `RampParser` (`ramp_parser.dfy`) holds `create_rgb_range` in both variants.
  `CreateRgbRange` follows `RGB-to-Z.py`, which drops blank lines.
  `CreateRgbRangeUnfiltered` follows `numpy_to_raster_test.py`, which does
  not. Both variants share `Build`: convert every token, then pair
  consecutive rows.
- `Equalisation` (`equalisation.dfy`) holds `np.cumsum` of the histogram, the
  smallest non-zero cumulative count `cdf_min`, and `calculate_cdf`. The last
  returns the first bin whose cumulative count is nearest to
  `h / (L - 2) * (W * H - 1) + cdf_min`.
- `Reals` (`reals.dfy`) holds Python 2 `round` over exact reals.
- `Wrappers` (`wrappers.dfy`) holds `Option`, `Result` and the Python
  exceptions the core raises.
- `Examples` (`examples.dfy`) works through concrete cases: the black-to-white
  ramp, a ramp file with a trailing blank line, a null value that collides
  with a real z value, and a 2×2 histogram.

Python exceptions become `Result.Failure` values:

- `ValueError` comes from `int()` and from numpy reductions over empty arrays.
- `IndexError` comes from a short ramp line.
- `ZeroDivisionError` comes from a float division by zero.

Floats are exact `real`s.

Behaviour of the code worth knowing when reading the model:

- The code does not validate the ramp. Channels outside [0, 255], a
  descending z pair and fewer than two breakpoints are all accepted. One
  breakpoint, or none, gives an empty list of ranges, and then every pixel
  maps to the null value.
- The code never raises its `FileFormat` exception. Malformed files fail
  with `ValueError` or `IndexError` instead.
- The base point of the interpolation is always the earlier breakpoint of
  the pair (`rgb_min`), whatever the z order.
- A zero span under a non-zero deviation raises a float `ZeroDivisionError`.
  This cannot happen for a pixel inside the box (`Ramp.RgbToZInRange`), so
  `return_z_value` never raises it.

## Model

| member | source | states |
|---|---|---|
| `Ramp.BoxWidthIsSpan` | RGB-to-Z.py:50-51 | The sorted bounds of each channel are ordered, and the box's width in that channel equals the channel's span `rgb_range[c]`. |
| `Ramp.InRange` | RGB-to-Z.py:59-67 | The pixel is in range iff every channel lies between the two breakpoints' values for that channel, whichever is larger. All three channels must hold at once. The same test is at numpy_to_raster_test.py:42-50. |
| `Ramp.InRangeSymmetric` | RGB-to-Z.py:50-67 | Swapping which breakpoint is called min and which max does not change the box test. |
| `Ramp.CornersInRange` | RGB-to-Z.py:50-67 | Both breakpoints of a range lie inside its own box. |
| `Ramp.Band` | RGB-to-Z.py:80-81 | The band is a channel whose deviation is maximal, and every earlier channel (R before G before B) deviates strictly less. This is the first index of the maximum. |
| `Ramp.DeviationWithinSpan` | RGB-to-Z.py:66-78 | Inside the box, each channel's deviation from `rgb_min` is at most that channel's span. |
| `Ramp.RgbToZ` | RGB-to-Z.py:69-87 | A pixel equal to `rgb_min` (zero largest deviation) maps to exactly `z_min`. The only failure is a `ZeroDivisionError`. The same method is at numpy_to_raster_test.py:52-70. |
| `Ramp.RgbToZInRange` | RGB-to-Z.py:77-87 | For a pixel inside the box, the dominant band's span is non-zero whenever its deviation is, so the division never fails. The z value lies in `[z_min, z_min + abs(z_max - z_min)]`. |
| `Ramp.RgbMaxMapsToZMax` | RGB-to-Z.py:77-85 | When the breakpoints differ in colour and `z_min <= z_max`, the pixel `rgb_max` maps to exactly `z_max`. |
| `Ramp.DescendingRampMirrorsZMax` | RGB-to-Z.py:49-85 | When `z_max < z_min`, `abs` means `rgb_max` maps to `2*z_min - z_max`, not to `z_max`. The ramp rises above `z_min` instead of falling to `z_max`. |
| `Ramp.RgbToZMonotoneInBand` | RGB-to-Z.py:77-85 | For two in-box pixels with the same dominant band, a larger deviation in that band never gives a smaller z. |
| `Ramp.ScaledWithin` | RGB-to-Z.py:83-84 | Scaling a deviation of at most the span by `z_range / span` and adding `z_min` stays within `[z_min, z_min + z_range]`. |
| `Reals.RoundHalfAway` | RGB-to-Z.py:85 | `round` gives an integer within 1/2 of its argument. An exact half goes away from zero. |
| `RampLookup.FirstMatch` | RGB-to-Z.py:122-124 | It returns the index of a range containing the pixel, with no earlier range containing it. It returns `None` iff no range contains the pixel. |
| `RampLookup.ReturnZValue` | RGB-to-Z.py:113-127 | When no range matches, the result is `null_value`. Otherwise it is the (never failing) `rgb_to_z` of the first matching range in list order. The same function is at numpy_to_raster_test.py:95-109. |
| `RampLookup.ReturnZValueBounds` | RGB-to-Z.py:121-127 | An unmatched pixel gets the null value. A matched pixel gets a z within the first matching range's z interval. |
| `RampLookup.ReturnZValueAppend` | RGB-to-Z.py:122-124 | The scan composes over concatenation. Ranges after a match are never consulted, and a prefix that misses the pixel can be dropped. |
| `Text.Tokens` | RGB-to-Z.py:100 | Every token of `strip().split()` is non-empty and free of Python whitespace. |
| `Text.TokensAfterSpace` | RGB-to-Z.py:100 | Leading whitespace is skipped: a string starting with whitespace has the same tokens as the string without its first character. |
| `Text.TokensOfWordThen` | RGB-to-Z.py:100 | A word followed by nothing, or by whitespace, splits off as the first token, and the rest is split on its own. |
| `Text.NoTokensIffBlank` | RGB-to-Z.py:100-101 | A line splits into no tokens iff it is whitespace only. So `filter(None, ...)` removes exactly the blank lines. |
| `Text.TokensOfJoin` | RGB-to-Z.py:100 | Splitting words joined by single spaces and followed by any whitespace-led tail (such as `"\n"`) gives back the words, then the tail's tokens. |
| `Text.ParseInt` | RGB-to-Z.py:102 | `int(token)` succeeds iff the token is digits, with at most a leading sign and at least one digit. |
| `Text.ParseShowInt` | RGB-to-Z.py:102 | For every integer n, `int(str(n)) == n`, and `str(n)` is a single token. |
| `RampParser.DropEmpty` | RGB-to-Z.py:101 | `filter(None, ...)` keeps only non-empty rows, each taken from the input. |
| `RampParser.DropEmptyAppend` | RGB-to-Z.py:101 | The filter distributes over concatenation. |
| `RampParser.DropEmptyOne` | RGB-to-Z.py:101 | A single row is kept iff it is non-empty. Together with `DropEmptyAppend` this fixes the filter on every input: exactly the non-empty rows, in order. |
| `RampParser.DropEmptyKeepsNonEmpty` | RGB-to-Z.py:101 | Every non-empty row of the input is in the filtered result. |
| `RampParser.NonBlank` | RGB-to-Z.py:100-101 | The kept lines are never blank, and there are no more of them than input lines. |
| `RampParser.NonBlankOne` | RGB-to-Z.py:100-101 | A single line is kept iff it is not blank. |
| `RampParser.NonBlankAppend` | RGB-to-Z.py:100-101 | Keeping the non-blank lines distributes over concatenation. With `NonBlankOne`, this fixes `NonBlank` on every input. |
| `RampParser.NonBlankKeepsLines` | RGB-to-Z.py:100-101 | Every non-blank line of the input is kept. |
| `RampParser.ParseFields` | RGB-to-Z.py:102 | Converting a row succeeds iff every token is an integer, and then yields each token's value in order. Otherwise it raises `ValueError`. |
| `RampParser.ParseRows` | RGB-to-Z.py:102 | All rows are converted before any range is built. Success iff every token of every row is an integer. |
| `RampParser.PairUp` | RGB-to-Z.py:103-108 | With two or more rows, any row of fewer than four fields raises `IndexError`. Otherwise n rows give max(n-1, 0) ranges, and range i takes RGB from fields 0-2 and z from field 3 of rows i and i+1. Extra fields are ignored. |
| `RampParser.PairUpChains` | RGB-to-Z.py:103-108 | Consecutive ranges share a breakpoint: `ranges[i].rgb_max == ranges[i+1].rgb_min` and `ranges[i].z_max == ranges[i+1].z_min`. |
| `RampParser.Build` | RGB-to-Z.py:102-108 | Failure iff some token is not an integer, or there are two or more rows and one has fewer than four fields. The error is `ValueError` when some token is not an integer, and `IndexError` otherwise. So `ValueError` takes precedence. On success there are max(n-1, 0) chained ranges, range i built from rows i and i+1. |
| `RampParser.FilteredRowsAreNonBlankRows` | RGB-to-Z.py:100-101 | Splitting and then dropping empty token lists equals splitting only the non-blank lines. |
| `RampParser.CreateRgbRange` | RGB-to-Z.py:90-110 | Over the k non-blank lines, it fails iff some token is not an integer, or k >= 2 and some non-blank line has fewer than four fields. The error is `ValueError` in the first case and `IndexError` otherwise. On success there are max(k-1, 0) chained ranges. Range i takes RGB from fields 0-2 and z from field 3 of non-blank lines i and i+1. |
| `RampParser.CreateRgbRangeIgnoresBlankLine` | RGB-to-Z.py:100-101 | Inserting a blank line anywhere in the file does not change the result. |
| `RampParser.CreateRgbRangeOfRender` | RGB-to-Z.py:100-108 | Writing any breakpoints as `R G B Z` lines and parsing them back gives exactly the ranges between consecutive breakpoints, in both variants. |
| `RampParser.CreateRgbRangeUnfiltered` | numpy_to_raster_test.py:73-92 | Failure iff some token is not an integer (`ValueError`), or there are two or more lines and one (a blank line included) has fewer than four fields (`IndexError`). Otherwise there are max(n-1, 0) chained ranges. Range i takes RGB from fields 0-2 and z from field 3 of lines i and i+1. |
| `RampParser.CreateRgbRangeIsUnfilteredOfNonBlank` | numpy_to_raster_test.py:83-84 | The `RGB-to-Z.py` parser equals this variant applied to the non-blank lines only. |
| `RampParser.VariantsAgreeWithoutBlankLines` | numpy_to_raster_test.py:83-90 | On a file without blank lines the two variants give the same result. |
| `RampParser.UnfilteredFailsOnBlankLine` | numpy_to_raster_test.py:84-89 | A blank line in a file of two or more lines, all of whose tokens are integers, makes this variant raise `IndexError`. |
| `RampParser.RenderWithBlankLineFails` | numpy_to_raster_test.py:83-90 | For a well-formed file of two or more breakpoints plus a trailing blank line, this variant fails with `IndexError`, while the `RGB-to-Z.py` variant returns the ranges. |
| `Equalisation.CumSum` | RGB-to-Z.py:213 | `np.cumsum`: entry i is the total of the counts of bins 0 to i. |
| `Equalisation.CumSumNonDecreasing` | RGB-to-Z.py:213 | For non-negative counts, the cumulative histogram never decreases. |
| `Equalisation.CdfMin` | RGB-to-Z.py:219 | On success the result is a non-zero entry of the cumulative histogram, no larger than any other non-zero entry. Failure (`ValueError`, the minimum of an empty selection) happens iff every entry is zero. |
| `Equalisation.CdfMinIsFirstOccupiedCount` | RGB-to-Z.py:213-219 | For non-negative counts, `cdf_min` is the count of the first occupied bin, so it is positive. |
| `Equalisation.CdfMinOfEmptyHistogram` | RGB-to-Z.py:219 | An all-zero histogram has no `cdf_min`: `ValueError`. |
| `Equalisation.ArgMin` | RGB-to-Z.py:151 | `argmin` returns an index of a smallest element, and every earlier element is strictly larger: the first occurrence. |
| `Equalisation.CalculateCdf` | RGB-to-Z.py:130-152 | `levels == 2` raises `ZeroDivisionError`. An empty cumulative histogram raises `ValueError`. Otherwise the result is a valid bin minimising the distance to `h/(L-2)*(W*H-1) + cdf_min`, the lowest such bin on ties. The same function is at numpy_to_raster_test.py:112-134. |
| `Equalisation.CalculateCdfMonotone` | RGB-to-Z.py:142-151 | Over a non-decreasing cumulative histogram, with L > 2 and W*H >= 1, a larger equalised value never maps to a lower bin. |
| `Equalisation.TargetMonotone` | RGB-to-Z.py:142-148 | With L > 2 and at least one pixel, the reconstructed cumulative target grows with the equalised value. |
| `Equalisation.ZeroMapsToFirstOccupiedBin` | RGB-to-Z.py:130-152 | With non-negative counts, equalised value 0 maps back to the first occupied bin, using the `cdf_min` computed from the same histogram. |
| `Examples.PureRedMapsToTop` | RGB-to-Z.py:69-87 | On the ramp `0 0 0 0` / `255 255 255 100`, pixel (255, 0, 0) maps to 100. |
| `Examples.BlackMapsToBase` | RGB-to-Z.py:86-87 | On that ramp, black maps to 0 through the zero-deviation branch. |
| `Examples.MidGreyRounds` | RGB-to-Z.py:83-85 | On that ramp, (128, 128, 128) maps to 50, the rounding of 12800/255. |
| `Examples.BlankTrailingLine` | numpy_to_raster_test.py:83-90 | The file `"0 0 0 0\n"`, `"255 255 255 100\n"`, `"\n"` gives the one grey range in `RGB-to-Z.py` and `IndexError` in `numpy_to_raster_test.py`. |
| `Examples.NullValueCollides` | RGB-to-Z.py:121-127 | The null value is not reserved: a matched pixel whose z equals it gives the same output as an unmatched pixel. |
| `Examples.TwoByTwoHistogram` | RGB-to-Z.py:130-152 | For the channel [[0,0],[255,255]] over 255 bins, `cdf_min` is 2 and equalised value 0 maps back to bin 0. |

## Left out

- The arcpy script bodies (RGB-to-Z.py:154-288, numpy_to_raster_test.py:136-212) are left out. They cover environment settings, tool parameters, raster to NumPy conversion and back, CopyRaster, DefineProjection, RasterToPoint and error reporting: I/O on a platform outside the model.
- `open` and `readlines` in `create_rgb_range` are left out. The parsers take the file's lines as strings, each possibly ending in its own `"\n"`.
- The `np.histogram` binning (RGB-to-Z.py:204-210) is left out. The equalisation functions take the bin counts as input. In the example the counts are written out by hand for the 255 bins of `arange(0, 256)`, whose last bin is closed.
- The green and blue cumulative sums (RGB-to-Z.py:214-215) are left out. They read `red_histogram[1]` (the bin edges) and `red_histogram[2]` (past the end of a 2-tuple). Only the red line's behaviour, `np.cumsum` of the counts, is modelled.
- The call at numpy_to_raster_test.py:203 passes no `null_value` to `return_z_value`. This is a glue bug and is left out; `ReturnZValue` always takes the null value.
- The `np.nditer` write-back, `np.dstack` and `np.apply_along_axis` are left out. They are element-wise plumbing around the modelled per-pixel and per-value functions.
- The mutable scratch fields `_z_value`, `_spectral_position`, `_largest_range` and `_band` are left out. They become local values of the pure `RgbToZ`.
- The exception classes `CompositeImage`, `GeorectifiedImage` and `FileFormat` are left out, together with the dead `except FileFormat` handler.
- `Ramp.RgbToZ` and `Equalisation.CalculateCdf` do not model IEEE double rounding. Both use exact reals, so a product that lands a hair off .5, or a near tie between two distances, may resolve differently from the float program.
- NumPy scalar typing is left out. Pixel channels are unbounded integers. This matches NumPy 1.x promotion of a Python int with a `uint8` scalar, which does not wrap.
- `Text.ParseInt` covers only what `int()` meets after `split()`: a token without whitespace. Signs and leading zeros are accepted as Python does.
- `Text.Tokens`: its own contract says only that tokens are whitespace-free words. The behaviour on every string follows from three lemmas. `Text.TokensAfterSpace` skips leading whitespace. `Text.TokensOfWordThen` splits off a word followed by whitespace or the end. The empty string has no tokens. `Text.TokensOfJoin` and `Text.NoTokensIffBlank` are consequences for single-spaced lines and blank lines.
