/** `create_rgb_range`: the ramp file, given as its lines, turned into the list
    of ranges between consecutive breakpoints. RGB-to-Z.py drops blank lines
    before converting; numpy_to_raster_test.py does not. */
module RampParser {
  import opened Wrappers
  import opened Text
  import opened Ramp

  /** A line of the ramp file: a colour and the z value it stands for. */
  datatype Breakpoint = Breakpoint(rgb: Rgb, z: int)

  /** The ranges between consecutive breakpoints, the earlier one as `rgbMin`/`zMin`. */
  function RangesOf(bps: seq<Breakpoint>): seq<RgbRange> {
    seq(if |bps| == 0 then 0 else |bps| - 1,
        i requires 0 <= i < |bps| - 1 => RgbRange(bps[i].rgb, bps[i + 1].rgb, bps[i].z, bps[i + 1].z))
  }

  /** The number of ranges `n` rows give: one per consecutive pair. */
  function Pairs(n: nat): nat {
    if n == 0 then 0 else n - 1
  }

  /** `[x.strip().split() for x in content]`. */
  function TokenRows(lines: seq<string>): (rows: seq<seq<string>>)
    ensures |rows| == |lines|
    ensures forall i :: 0 <= i < |lines| ==> rows[i] == Tokens(lines[i])
  {
    seq(|lines|, i requires 0 <= i < |lines| => Tokens(lines[i]))
  }

  /** `filter(None, content)`: the rows that hold at least one token, in order. */
  function DropEmpty(rows: seq<seq<string>>): (kept: seq<seq<string>>)
    ensures |kept| <= |rows|
    ensures forall i :: 0 <= i < |kept| ==> |kept[i]| > 0
    ensures forall i :: 0 <= i < |kept| ==> kept[i] in rows
  {
    if |rows| == 0 then []
    else if |rows[0]| == 0 then DropEmpty(rows[1..])
    else [rows[0]] + DropEmpty(rows[1..])
  }

  /** One row is kept exactly when it is non-empty. With `DropEmptyAppend`
      this fixes the filter on every input: all non-empty rows, in order. */
  lemma DropEmptyOne(row: seq<string>)
    ensures DropEmpty([row]) == if |row| == 0 then [] else [row]
  {
  }

  /** Every non-empty row survives the filter. */
  lemma {:induction false} DropEmptyKeepsNonEmpty(rows: seq<seq<string>>)
    ensures forall i :: 0 <= i < |rows| && |rows[i]| > 0 ==> rows[i] in DropEmpty(rows)
  {
    if |rows| > 0 {
      DropEmptyKeepsNonEmpty(rows[1..]);
      forall i | 1 <= i < |rows| && |rows[i]| > 0 ensures rows[i] in DropEmpty(rows) {
        assert rows[i] == rows[1..][i - 1];
      }
    }
  }

  lemma {:induction false} DropEmptyAppend(a: seq<seq<string>>, b: seq<seq<string>>)
    ensures DropEmpty(a + b) == DropEmpty(a) + DropEmpty(b)
  {
    if |a| == 0 {
      assert a + b == b;
    } else {
      assert (a + b)[0] == a[0];
      assert (a + b)[1..] == a[1..] + b;
      DropEmptyAppend(a[1..], b);
    }
  }

  /** Filtering rows none of which is empty changes nothing. */
  lemma {:induction false} DropEmptyKeepsFullRows(rows: seq<seq<string>>)
    requires forall i :: 0 <= i < |rows| ==> |rows[i]| > 0
    ensures DropEmpty(rows) == rows
  {
    if |rows| > 0 {
      DropEmptyKeepsFullRows(rows[1..]);
    }
  }

  /** `[int(n) for n in sub]` for one row. */
  function ParseFields(tokens: seq<string>): (r: Result<seq<int>>)
    ensures r.Success? <==> forall j :: 0 <= j < |tokens| ==> ParseInt(tokens[j]).Some?
    ensures r.Success? ==> |r.value| == |tokens|
    ensures r.Success? ==> forall j :: 0 <= j < |tokens| ==> ParseInt(tokens[j]) == Some(r.value[j])
    ensures r.Failure? ==> r.error == ValueError
  {
    if |tokens| == 0 then Success([])
    else match ParseInt(tokens[0])
      case None => Failure(ValueError)
      case Some(n) =>
        match ParseFields(tokens[1..])
        case Failure(e) =>
          assert forall j :: 1 <= j < |tokens| ==> tokens[j] == tokens[1..][j - 1];
          Failure(e)
        case Success(ns) =>
          assert forall j :: 1 <= j < |tokens| ==> tokens[j] == tokens[1..][j - 1];
          Success([n] + ns)
  }

  /** Every token of every row is an integer. */
  predicate AllInts(rows: seq<seq<string>>) {
    forall i, j :: 0 <= i < |rows| && 0 <= j < |rows[i]| ==> ParseInt(rows[i][j]).Some?
  }

  /** `[[int(n) for n in sub] for sub in content]`: all rows are converted before
      any range is built, so a bad token anywhere is the first error. */
  function ParseRows(rows: seq<seq<string>>): (r: Result<seq<seq<int>>>)
    ensures r.Success? <==> AllInts(rows)
    ensures r.Success? ==> |r.value| == |rows|
    ensures r.Success? ==> forall i :: 0 <= i < |rows| ==> ParseFields(rows[i]) == Success(r.value[i])
    ensures r.Failure? ==> r.error == ValueError
  {
    if |rows| == 0 then Success([])
    else
      assert forall i :: 1 <= i < |rows| ==> rows[i] == rows[1..][i - 1];
      match ParseFields(rows[0])
      case Failure(e) => Failure(e)
      case Success(ns) =>
        match ParseRows(rows[1..])
        case Failure(e) => Failure(e)
        case Success(nss) => Success([ns] + nss)
  }

  /** `rr` is the range `RgbRange(tuple(lo[:3]), tuple(hi[:3]), lo[3], hi[3])`. */
  predicate IsRangeOf(rr: RgbRange, lo: seq<int>, hi: seq<int>) {
    && |lo| >= 4 && |hi| >= 4
    && rr.rgbMin == Rgb(lo[0], lo[1], lo[2]) && rr.zMin == lo[3]
    && rr.rgbMax == Rgb(hi[0], hi[1], hi[2]) && rr.zMax == hi[3]
  }

  /** The loop over `content[:-1]`: row i and row i + 1 make range i. The
      indexing `item[3]` or `content[i + 1][3]` fails on a row of fewer than
      four fields; a single row makes no range and is never indexed. */
  function PairUp(rows: seq<seq<int>>): (r: Result<seq<RgbRange>>)
    ensures r.Failure? <==> |rows| >= 2 && exists i :: 0 <= i < |rows| && |rows[i]| < 4
    ensures r.Failure? ==> r.error == IndexError
    ensures r.Success? ==> |r.value| == Pairs(|rows|)
    ensures r.Success? ==> forall i :: 0 <= i < |r.value| ==> IsRangeOf(r.value[i], rows[i], rows[i + 1])
  {
    if |rows| < 2 then Success([])
    else if |rows[0]| < 4 || |rows[1]| < 4 then Failure(IndexError)
    else
      assert forall i :: 1 <= i < |rows| ==> rows[i] == rows[1..][i - 1];
      match PairUp(rows[1..])
      case Failure(e) => Failure(e)
      case Success(rest) =>
        var first := RgbRange(Rgb(rows[0][0], rows[0][1], rows[0][2]), Rgb(rows[1][0], rows[1][1], rows[1][2]),
                              rows[0][3], rows[1][3]);
        Success([first] + rest)
  }

  /** Consecutive ranges share a breakpoint: each range ends where the next begins. */
  predicate Chained(ranges: seq<RgbRange>) {
    forall i :: 0 <= i < |ranges| - 1 ==>
      ranges[i].rgbMax == ranges[i + 1].rgbMin && ranges[i].zMax == ranges[i + 1].zMin
  }

  /** The pairing of rows always chains its ranges. */
  lemma PairUpChains(rows: seq<seq<int>>)
    requires PairUp(rows).Success?
    ensures Chained(PairUp(rows).value)
  {
    var ranges := PairUp(rows).value;
    forall i | 0 <= i < |ranges| - 1
      ensures ranges[i].rgbMax == ranges[i + 1].rgbMin && ranges[i].zMax == ranges[i + 1].zMin
    {
      assert IsRangeOf(ranges[i], rows[i], rows[i + 1]);
      assert IsRangeOf(ranges[i + 1], rows[i + 1], rows[i + 2]);
    }
  }

  /** The shared body of both parsers after splitting: convert every token of
      every row with `int()`, then pair consecutive rows. A non-integer token
      anywhere is a `ValueError`; otherwise, once there are two rows to pair,
      a row of fewer than four fields is an `IndexError`. Range i is built from
      rows i and i + 1, from their first four fields only. */
  function Build(rows: seq<seq<string>>): (r: Result<seq<RgbRange>>)
    ensures r.Failure? <==> !AllInts(rows) || (|rows| >= 2 && exists i :: 0 <= i < |rows| && |rows[i]| < 4)
    ensures r.Failure? ==> r.error == (if AllInts(rows) then IndexError else ValueError)
    ensures r.Success? ==> |r.value| == Pairs(|rows|) && Chained(r.value)
    ensures r.Success? ==> forall i :: 0 <= i < |r.value| ==>
      IsRangeOf(r.value[i], ParseFields(rows[i]).value, ParseFields(rows[i + 1]).value)
  {
    var ints :- ParseRows(rows);
    assert forall i :: 0 <= i < |rows| ==> |ints[i]| == |rows[i]|;
    var r := PairUp(ints);
    if r.Success? then PairUpChains(ints); r else r
  }

  /** The lines that are not blank, in order. */
  function NonBlank(lines: seq<string>): (kept: seq<string>)
    ensures |kept| <= |lines|
    ensures forall i :: 0 <= i < |kept| ==> !IsBlank(kept[i])
  {
    if |lines| == 0 then []
    else if IsBlank(lines[0]) then NonBlank(lines[1..])
    else [lines[0]] + NonBlank(lines[1..])
  }

  /** One line is kept exactly when it is not blank. */
  lemma NonBlankOne(line: string)
    ensures NonBlank([line]) == if IsBlank(line) then [] else [line]
  {
  }

  /** Every non-blank line survives. */
  lemma {:induction false} NonBlankKeepsLines(lines: seq<string>)
    ensures forall i :: 0 <= i < |lines| && !IsBlank(lines[i]) ==> lines[i] in NonBlank(lines)
  {
    if |lines| > 0 {
      NonBlankKeepsLines(lines[1..]);
      forall i | 1 <= i < |lines| && !IsBlank(lines[i]) ensures lines[i] in NonBlank(lines) {
        assert lines[i] == lines[1..][i - 1];
      }
    }
  }

  /** Keeping the non-blank lines distributes over concatenation; with
      `NonBlankOne` this fixes `NonBlank` on every input. */
  lemma {:induction false} NonBlankAppend(a: seq<string>, b: seq<string>)
    ensures NonBlank(a + b) == NonBlank(a) + NonBlank(b)
  {
    if |a| > 0 {
      assert (a + b)[0] == a[0];
      assert (a + b)[1..] == a[1..] + b;
      NonBlankAppend(a[1..], b);
    } else {
      assert a + b == b;
    }
  }

  /** The rows RGB-to-Z.py pairs up: `filter(None, ...)` of the token rows. */
  function FilteredRows(lines: seq<string>): seq<seq<string>> {
    DropEmpty(TokenRows(lines))
  }

  lemma TokenRowsAppend(a: seq<string>, b: seq<string>)
    ensures TokenRows(a + b) == TokenRows(a) + TokenRows(b)
  {
  }

  /** Dropping empty token rows is dropping blank lines. */
  lemma {:induction false} FilteredRowsAreNonBlankRows(lines: seq<string>)
    ensures FilteredRows(lines) == TokenRows(NonBlank(lines))
  {
    if |lines| > 0 {
      var head := if IsBlank(lines[0]) then [] else [lines[0]];
      NoTokensIffBlank(lines[0]);
      assert TokenRows(lines) == [Tokens(lines[0])] + TokenRows(lines[1..]);
      assert TokenRows(lines)[1..] == TokenRows(lines[1..]);
      FilteredRowsAreNonBlankRows(lines[1..]);
      TokenRowsAppend(head, NonBlank(lines[1..]));
      assert NonBlank(lines) == head + NonBlank(lines[1..]);
    }
  }

  /** `create_rgb_range` of RGB-to-Z.py, over the file's lines: split, drop
      blank lines, then convert and pair. k non-blank lines give k - 1 chained
      ranges when it succeeds, range i built from non-blank lines i and i + 1. */
  function CreateRgbRange(lines: seq<string>): (r: Result<seq<RgbRange>>)
    ensures r.Success? ==> |r.value| == Pairs(|NonBlank(lines)|) && Chained(r.value)
    ensures r.Failure? <==>
      || !AllInts(TokenRows(NonBlank(lines)))
      || (|NonBlank(lines)| >= 2 && exists i :: 0 <= i < |NonBlank(lines)| && |Tokens(NonBlank(lines)[i])| < 4)
    ensures r.Failure? ==> r.error == (if AllInts(TokenRows(NonBlank(lines))) then IndexError else ValueError)
    ensures r.Success? ==> forall i :: 0 <= i < |r.value| ==>
      IsRangeOf(r.value[i], ParseFields(Tokens(NonBlank(lines)[i])).value,
                ParseFields(Tokens(NonBlank(lines)[i + 1])).value)
  {
    FilteredRowsAreNonBlankRows(lines);
    assert Build(FilteredRows(lines)) == CreateRgbRangeUnfiltered(NonBlank(lines));
    Build(FilteredRows(lines))
  }

  /** `create_rgb_range` of numpy_to_raster_test.py: the same without the
      blank-line filter, so a blank line is an empty row that fails the `[3]`
      index as soon as there are two rows to pair. */
  function CreateRgbRangeUnfiltered(lines: seq<string>): (r: Result<seq<RgbRange>>)
    ensures r.Failure? <==>
      !AllInts(TokenRows(lines)) || (|lines| >= 2 && exists i :: 0 <= i < |lines| && |Tokens(lines[i])| < 4)
    ensures r.Failure? ==> r.error == (if AllInts(TokenRows(lines)) then IndexError else ValueError)
    ensures r.Success? ==> |r.value| == Pairs(|lines|) && Chained(r.value)
    ensures r.Success? ==> forall i :: 0 <= i < |r.value| ==>
      IsRangeOf(r.value[i], ParseFields(Tokens(lines[i])).value, ParseFields(Tokens(lines[i + 1])).value)
  {
    var rows := TokenRows(lines);
    assert forall i :: 0 <= i < |lines| ==> rows[i] == Tokens(lines[i]);
    Build(rows)
  }

  /** The RGB-to-Z.py parser is the numpy_to_raster_test.py parser applied to
      the non-blank lines. */
  lemma CreateRgbRangeIsUnfilteredOfNonBlank(lines: seq<string>)
    ensures CreateRgbRange(lines) == CreateRgbRangeUnfiltered(NonBlank(lines))
  {
    FilteredRowsAreNonBlankRows(lines);
  }

  lemma FilteredRowsIgnoreBlankLine(front: seq<string>, blank: string, back: seq<string>)
    requires IsBlank(blank)
    ensures FilteredRows(front + [blank] + back) == FilteredRows(front + back)
  {
    TokensOfBlank(blank);
    TokenRowsAppend(front + [blank], back);
    TokenRowsAppend(front, [blank]);
    TokenRowsAppend(front, back);
    assert TokenRows([blank]) == [[]];
    DropEmptyAppend(TokenRows(front) + [[]], TokenRows(back));
    DropEmptyAppend(TokenRows(front), [[]]);
    DropEmptyAppend(TokenRows(front), TokenRows(back));
  }

  /** Blank lines anywhere in the file do not change what RGB-to-Z.py builds. */
  lemma CreateRgbRangeIgnoresBlankLine(front: seq<string>, blank: string, back: seq<string>)
    requires IsBlank(blank)
    ensures CreateRgbRange(front + [blank] + back) == CreateRgbRange(front + back)
  {
    FilteredRowsIgnoreBlankLine(front, blank, back);
  }

  /** Without blank lines the two variants agree. */
  lemma VariantsAgreeWithoutBlankLines(lines: seq<string>)
    requires forall i :: 0 <= i < |lines| ==> !IsBlank(lines[i])
    ensures CreateRgbRangeUnfiltered(lines) == CreateRgbRange(lines)
  {
    forall i | 0 <= i < |lines| ensures |TokenRows(lines)[i]| > 0 {
      NoTokensIffBlank(lines[i]);
    }
    DropEmptyKeepsFullRows(TokenRows(lines));
  }

  /** The variant of numpy_to_raster_test.py fails with an `IndexError` on a
      file of two or more lines, one of them blank, where the other variant
      may succeed. */
  lemma UnfilteredFailsOnBlankLine(lines: seq<string>, k: nat)
    requires 2 <= |lines| && k < |lines| && IsBlank(lines[k])
    requires AllInts(TokenRows(lines))
    ensures CreateRgbRangeUnfiltered(lines) == Failure(IndexError)
  {
    TokensOfBlank(lines[k]);
  }

  /** A breakpoint written as a line of the ramp file: four space-separated
      integers and a newline. */
  function RenderLine(bp: Breakpoint): string {
    Join([ShowInt(bp.rgb.r), ShowInt(bp.rgb.g), ShowInt(bp.rgb.b), ShowInt(bp.z)]) + "\n"
  }

  function Render(bps: seq<Breakpoint>): (lines: seq<string>)
    ensures |lines| == |bps|
  {
    seq(|bps|, i requires 0 <= i < |bps| => RenderLine(bps[i]))
  }

  /** The row of integers one breakpoint's line converts to. */
  function Fields(bp: Breakpoint): seq<int> {
    [bp.rgb.r, bp.rgb.g, bp.rgb.b, bp.z]
  }

  function FieldRows(bps: seq<Breakpoint>): seq<seq<int>> {
    seq(|bps|, i requires 0 <= i < |bps| => Fields(bps[i]))
  }

  /** A row whose every token converts converts to exactly those integers. */
  lemma ParseFieldsOf(tokens: seq<string>, ns: seq<int>)
    requires |tokens| == |ns|
    requires forall j :: 0 <= j < |tokens| ==> ParseInt(tokens[j]) == Some(ns[j])
    ensures ParseFields(tokens) == Success(ns)
  {
    var r := ParseFields(tokens);
    assert r.Success?;
    assert forall j :: 0 <= j < |ns| ==> r.value[j] == ns[j];
    assert r.value == ns;
  }

  /** The tokens of a rendered line are the four printed integers. */
  lemma TokensOfRenderLine(bp: Breakpoint)
    ensures Tokens(RenderLine(bp)) == [ShowInt(bp.rgb.r), ShowInt(bp.rgb.g), ShowInt(bp.rgb.b), ShowInt(bp.z)]
  {
    var ws := [ShowInt(bp.rgb.r), ShowInt(bp.rgb.g), ShowInt(bp.rgb.b), ShowInt(bp.z)];
    ParseShowInt(bp.rgb.r);
    ParseShowInt(bp.rgb.g);
    ParseShowInt(bp.rgb.b);
    ParseShowInt(bp.z);
    TokensOfJoin(ws, "\n");
    TokensOfBlank("\n");
    assert ws + [] == ws;
  }

  /** A rendered line converts back to its breakpoint's fields. */
  lemma ParseRenderLine(bp: Breakpoint)
    ensures |Tokens(RenderLine(bp))| == 4
    ensures ParseFields(Tokens(RenderLine(bp))) == Success(Fields(bp))
  {
    TokensOfRenderLine(bp);
    var ws := [ShowInt(bp.rgb.r), ShowInt(bp.rgb.g), ShowInt(bp.rgb.b), ShowInt(bp.z)];
    forall j | 0 <= j < 4 ensures ParseInt(ws[j]) == Some(Fields(bp)[j]) {
      ParseShowInt(Fields(bp)[j]);
      assert ws[j] == ShowInt(Fields(bp)[j]);
    }
    ParseFieldsOf(ws, Fields(bp));
  }

  /** The integer rows of a rendered file are the breakpoints' fields. */
  lemma ParseRowsOfRender(bps: seq<Breakpoint>)
    ensures FilteredRows(Render(bps)) == TokenRows(Render(bps))
    ensures ParseRows(TokenRows(Render(bps))) == Success(FieldRows(bps))
  {
    var rows := TokenRows(Render(bps));
    var ints := FieldRows(bps);
    forall i | 0 <= i < |bps|
      ensures |rows[i]| == 4 && ParseFields(rows[i]) == Success(ints[i])
    {
      ParseRenderLine(bps[i]);
    }
    DropEmptyKeepsFullRows(rows);
    assert AllInts(rows) by {
      forall i, j | 0 <= i < |rows| && 0 <= j < |rows[i]| ensures ParseInt(rows[i][j]).Some? {
        assert ParseFields(rows[i]).Success?;
      }
    }
    var r := ParseRows(rows);
    assert forall i :: 0 <= i < |bps| ==> r.value[i] == ints[i];
    assert r.value == ints;
  }

  /** Pairing the breakpoints' field rows gives the ranges between them. */
  lemma PairUpFields(bps: seq<Breakpoint>)
    ensures PairUp(FieldRows(bps)) == Success(RangesOf(bps))
  {
    var ints := FieldRows(bps);
    var r := PairUp(ints);
    assert r.Success?;
    forall i | 0 <= i < |r.value| ensures r.value[i] == RangesOf(bps)[i] {
      assert IsRangeOf(r.value[i], ints[i], ints[i + 1]);
    }
    assert r.value == RangesOf(bps);
  }

  /** Writing breakpoints one per line and parsing the file back gives the
      ranges between consecutive breakpoints, in both variants: k breakpoints
      make max(k - 1, 0) ranges, range i running from breakpoint i to i + 1. */
  lemma CreateRgbRangeOfRender(bps: seq<Breakpoint>)
    ensures CreateRgbRange(Render(bps)) == Success(RangesOf(bps))
    ensures CreateRgbRangeUnfiltered(Render(bps)) == Success(RangesOf(bps))
  {
    ParseRowsOfRender(bps);
    PairUpFields(bps);
  }

  /** Appending a blank line keeps every token of a rendered file an integer. */
  lemma RenderWithBlankLineAllInts(bps: seq<Breakpoint>, blank: string)
    requires IsBlank(blank)
    ensures AllInts(TokenRows(Render(bps) + [blank]))
  {
    ParseRowsOfRender(bps);
    TokensOfBlank(blank);
    var front := TokenRows(Render(bps));
    var rows := TokenRows(Render(bps) + [blank]);
    assert rows == front + [[]];
    forall i, j | 0 <= i < |rows| && 0 <= j < |rows[i]| ensures ParseInt(rows[i][j]).Some? {
      assert i < |front| && rows[i] == front[i];
    }
  }

  /** A rendered file of two or more breakpoints with a blank line appended:
      the numpy_to_raster_test.py variant fails on it with an `IndexError`,
      while RGB-to-Z.py reads the breakpoints back. */
  lemma RenderWithBlankLineFails(bps: seq<Breakpoint>, blank: string)
    requires |bps| >= 2 && IsBlank(blank)
    ensures CreateRgbRangeUnfiltered(Render(bps) + [blank]) == Failure(IndexError)
    ensures CreateRgbRange(Render(bps) + [blank]) == Success(RangesOf(bps))
  {
    var lines := Render(bps) + [blank];
    RenderWithBlankLineAllInts(bps, blank);
    UnfilteredFailsOnBlankLine(lines, |bps|);
    CreateRgbRangeIgnoresBlankLine(Render(bps), blank, []);
    assert Render(bps) + [blank] + [] == lines;
    assert Render(bps) + [] == Render(bps);
    CreateRgbRangeOfRender(bps);
  }
}
