/** Undoing histogram equalisation on one channel: the cumulative histogram,
    its smallest non-zero entry, and `calculate_cdf`, which maps an equalised
    value back to the bin whose cumulative count is nearest to the one the
    equalisation formula implies. */
module Equalisation {
  import opened Wrappers
  import opened Reals

  /** The total of a sequence of counts. */
  function Sum(s: seq<int>): int {
    if |s| == 0 then 0 else Sum(s[..|s| - 1]) + s[|s| - 1]
  }

  predicate NonNegative(counts: seq<int>) {
    forall i :: 0 <= i < |counts| ==> 0 <= counts[i]
  }

  predicate NonDecreasing(s: seq<int>) {
    forall i, j :: 0 <= i <= j < |s| ==> s[i] <= s[j]
  }

  /** `np.cumsum(counts)`: entry i is the total of the counts of bins 0 to i. */
  function CumSum(counts: seq<int>): (cs: seq<int>)
    ensures |cs| == |counts|
    ensures forall i :: 0 <= i < |cs| ==> cs[i] == Sum(counts[..i + 1])
  {
    if |counts| == 0 then []
    else
      var init := counts[..|counts| - 1];
      var prefix := CumSum(init);
      var previous := if |prefix| == 0 then 0 else prefix[|prefix| - 1];
      assert previous == Sum(init) by {
        if |prefix| > 0 {
          assert init[..|prefix|] == init;
        }
      }
      forall i | 0 <= i < |prefix| ensures prefix[i] == Sum(counts[..i + 1]) {
        assert init[..i + 1] == counts[..i + 1];
      }
      assert counts[..|counts|] == counts;
      prefix + [previous + counts[|counts| - 1]]
  }

  /** The totals of a longer prefix of non-negative counts are no smaller. */
  lemma {:induction false} SumPrefixMonotone(counts: seq<int>, i: nat, j: nat)
    requires NonNegative(counts)
    requires i <= j <= |counts|
    ensures Sum(counts[..i]) <= Sum(counts[..j])
    decreases j - i
  {
    if i < j {
      SumPrefixMonotone(counts, i, j - 1);
      assert counts[..j][..j - 1] == counts[..j - 1];
    }
  }

  /** A prefix of zero counts totals zero. */
  lemma {:induction false} SumOfZeroPrefix(counts: seq<int>, n: nat)
    requires n <= |counts|
    requires forall j :: 0 <= j < n ==> counts[j] == 0
    ensures Sum(counts[..n]) == 0
  {
    if n > 0 {
      SumOfZeroPrefix(counts, n - 1);
      assert counts[..n][..n - 1] == counts[..n - 1];
    }
  }

  /** For non-negative counts the cumulative histogram never decreases. */
  lemma CumSumNonDecreasing(counts: seq<int>)
    requires NonNegative(counts)
    ensures NonDecreasing(CumSum(counts))
  {
    var cs := CumSum(counts);
    forall i, j | 0 <= i <= j < |cs| ensures cs[i] <= cs[j] {
      SumPrefixMonotone(counts, i + 1, j + 1);
    }
  }

  /** `np.min(cs[np.nonzero(cs)])`: the smallest non-zero entry; numpy's `min`
      of the empty selection raises a `ValueError`. */
  function CdfMin(cs: seq<int>): (r: Result<int>)
    ensures r.Success? ==> r.value != 0 && exists i :: 0 <= i < |cs| && cs[i] == r.value
    ensures r.Success? ==> forall i :: 0 <= i < |cs| && cs[i] != 0 ==> r.value <= cs[i]
    ensures r.Failure? <==> forall i :: 0 <= i < |cs| ==> cs[i] == 0
    ensures r.Failure? ==> r.error == ValueError
  {
    if |cs| == 0 then Failure(ValueError)
    else
      var rest := CdfMin(cs[1..]);
      assert forall i :: 1 <= i < |cs| ==> cs[i] == cs[1..][i - 1];
      if cs[0] == 0 then rest
      else match rest
        case Failure(_) => Success(cs[0])
        case Success(m) => Success(if cs[0] <= m then cs[0] else m)
  }

  /** With non-negative counts, `cdf_min` is the count of the first occupied
      bin: positive, and no larger than any non-zero cumulative entry. */
  lemma CdfMinIsFirstOccupiedCount(counts: seq<int>, k: nat)
    requires NonNegative(counts)
    requires k < |counts| && counts[k] > 0
    requires forall j :: 0 <= j < k ==> counts[j] == 0
    ensures CdfMin(CumSum(counts)) == Success(counts[k])
  {
    var cs := CumSum(counts);
    CumSumBeforeFirstOccupied(counts, k);
    var r := CdfMin(cs);
    assert cs[k] != 0;
    var i :| 0 <= i < |cs| && cs[i] == r.value;
    assert k <= i;
    CumSumNonDecreasing(counts);
    assert cs[k] <= cs[i];
  }

  /** Up to the first occupied bin the cumulative histogram is zero, and at it
      the cumulative count is that bin's count. */
  lemma CumSumBeforeFirstOccupied(counts: seq<int>, k: nat)
    requires k < |counts|
    requires forall j :: 0 <= j < k ==> counts[j] == 0
    ensures forall j :: 0 <= j < k ==> CumSum(counts)[j] == 0
    ensures CumSum(counts)[k] == counts[k]
  {
    var cs := CumSum(counts);
    forall j | 0 <= j < k ensures cs[j] == 0 {
      SumOfZeroPrefix(counts, j + 1);
    }
    SumOfZeroPrefix(counts, k);
    assert counts[..k + 1][..k] == counts[..k];
    assert cs[k] == Sum(counts[..k + 1]) == Sum(counts[..k]) + counts[k];
  }

  /** An all-empty histogram has no `cdf_min`. */
  lemma CdfMinOfEmptyHistogram(counts: seq<int>)
    requires forall j :: 0 <= j < |counts| ==> counts[j] == 0
    ensures CdfMin(CumSum(counts)) == Failure(ValueError)
  {
    var cs := CumSum(counts);
    forall j | 0 <= j < |cs| ensures cs[j] == 0 {
      SumOfZeroPrefix(counts, j + 1);
    }
  }

  /** The cumulative count the equalisation formula implies for an equalised
      value `h`: `h / (levels - 2) * (width * height - 1) + cdfMin`. */
  function Target(h: int, cdfMin: int, width: int, height: int, levels: int): real
    requires levels != 2
  {
    h as real / (levels as real - 2.0) * (width * height - 1) as real + cdfMin as real
  }

  /** `np.abs(cs - t)`. */
  function Distances(cs: seq<int>, t: real): (ds: seq<real>)
    ensures |ds| == |cs|
    ensures forall i :: 0 <= i < |cs| ==> ds[i] == Abs(cs[i] as real - t)
  {
    seq(|cs|, i requires 0 <= i < |cs| => Abs(cs[i] as real - t))
  }

  /** `v` is the first index of a smallest element of `ds`. */
  predicate IsFirstMin(ds: seq<real>, v: nat) {
    && v < |ds|
    && (forall j :: 0 <= j < |ds| ==> ds[v] <= ds[j])
    && (forall j :: 0 <= j < v ==> ds[v] < ds[j])
  }

  /** `argmin`: numpy returns the first index of the minimum. */
  function ArgMin(ds: seq<real>): (v: nat)
    requires |ds| > 0
    ensures IsFirstMin(ds, v)
  {
    if |ds| == 1 then 0
    else
      var k := ArgMin(ds[..|ds| - 1]);
      assert forall j :: 0 <= j < |ds| - 1 ==> ds[..|ds| - 1][j] == ds[j];
      if ds[|ds| - 1] < ds[k] then |ds| - 1 else k
  }

  /** `calculate_cdf`: the bin whose cumulative count is nearest to the target,
      the lowest such bin on ties. `levels == 2` divides by zero; an empty
      cumulative histogram has no `argmin`. */
  function CalculateCdf(h: int, cs: seq<int>, cdfMin: int, width: int, height: int, levels: int): (r: Result<nat>)
    ensures r.Failure? <==> levels == 2 || |cs| == 0
    ensures r.Failure? ==> r.error == (if levels == 2 then ZeroDivisionError else ValueError)
    ensures r.Success? ==> r.value < |cs|
    ensures r.Success? ==> IsFirstMin(Distances(cs, Target(h, cdfMin, width, height, levels)), r.value)
  {
    if levels == 2 then Failure(ZeroDivisionError)
    else if |cs| == 0 then Failure(ValueError)
    else Success(ArgMin(Distances(cs, Target(h, cdfMin, width, height, levels))))
  }

  /** Over a non-decreasing sequence, the first nearest index to a larger
      target is no smaller. */
  lemma NearestMonotone(cs: seq<int>, t1: real, t2: real, v1: nat, v2: nat)
    requires NonDecreasing(cs)
    requires t1 <= t2
    requires IsFirstMin(Distances(cs, t1), v1) && IsFirstMin(Distances(cs, t2), v2)
    ensures v1 <= v2
  {
    var d1 := Distances(cs, t1);
    var d2 := Distances(cs, t2);
    forall j | 0 <= j < v1 ensures d2[v1] < d2[j] {
      assert d1[v1] < d1[j];
      assert cs[j] <= cs[v1];
      AbsCrossing(cs[j] as real, cs[v1] as real, t1, t2);
    }
  }

  /** If the larger of two values is strictly nearer to `t1`, it is strictly
      nearer to any target beyond `t1` as well. */
  lemma AbsCrossing(a: real, b: real, t1: real, t2: real)
    requires a <= b && t1 <= t2
    requires Abs(b - t1) < Abs(a - t1)
    ensures Abs(b - t2) < Abs(a - t2)
  {
  }

  /** A larger equalised value never gives a smaller target, given more than two
      levels and at least one pixel. */
  lemma TargetMonotone(h1: int, h2: int, cdfMin: int, width: int, height: int, levels: int)
    requires levels > 2 && width * height >= 1 && h1 <= h2
    ensures Target(h1, cdfMin, width, height, levels) <= Target(h2, cdfMin, width, height, levels)
  {
    var d := levels as real - 2.0;
    var q1 := h1 as real / d;
    var q2 := h2 as real / d;
    assert q1 * d == h1 as real && q2 * d == h2 as real;
    assert q1 <= q2;
    MulMonotone(q1, q2, (width * height - 1) as real);
  }

  /** The inversion is monotone in the equalised value: over a cumulative
      histogram, a larger equalised value never maps to a lower bin. */
  lemma CalculateCdfMonotone(h1: int, h2: int, cs: seq<int>, cdfMin: int, width: int, height: int, levels: int)
    requires NonDecreasing(cs) && |cs| > 0
    requires levels > 2 && width * height >= 1 && h1 <= h2
    ensures CalculateCdf(h1, cs, cdfMin, width, height, levels).value
         <= CalculateCdf(h2, cs, cdfMin, width, height, levels).value
  {
    TargetMonotone(h1, h2, cdfMin, width, height, levels);
    NearestMonotone(cs, Target(h1, cdfMin, width, height, levels), Target(h2, cdfMin, width, height, levels),
                    CalculateCdf(h1, cs, cdfMin, width, height, levels).value,
                    CalculateCdf(h2, cs, cdfMin, width, height, levels).value);
  }

  /** Equalised value 0 targets `cdfMin` itself. */
  lemma TargetOfZero(cdfMin: int, width: int, height: int, levels: int)
    requires levels != 2
    ensures Target(0, cdfMin, width, height, levels) == cdfMin as real
  {
    var d := levels as real - 2.0;
    var q := 0 as real / d;
    assert q * d == 0.0;
  }

  /** A zero distance with only positive distances before it is the first minimum. */
  lemma FirstMinAtZero(ds: seq<real>, k: nat, v: nat)
    requires k < |ds| && ds[k] == 0.0
    requires forall j :: 0 <= j < k ==> ds[j] > 0.0
    requires forall j :: 0 <= j < |ds| ==> ds[j] >= 0.0
    requires IsFirstMin(ds, v)
    ensures v == k
  {
  }

  /** Equalised value 0 maps back to the first occupied bin: its target is
      `cdf_min` itself, met exactly there and by no earlier bin. */
  lemma ZeroMapsToFirstOccupiedBin(counts: seq<int>, k: nat, width: int, height: int, levels: int)
    requires NonNegative(counts)
    requires k < |counts| && counts[k] > 0
    requires forall j :: 0 <= j < k ==> counts[j] == 0
    requires levels != 2
    ensures CdfMin(CumSum(counts)) == Success(counts[k])
    ensures CalculateCdf(0, CumSum(counts), CdfMin(CumSum(counts)).value, width, height, levels) == Success(k)
  {
    CdfMinIsFirstOccupiedCount(counts, k);
    ZeroTargetsFirstOccupiedBin(counts, k, width, height, levels);
  }

  lemma ZeroTargetsFirstOccupiedBin(counts: seq<int>, k: nat, width: int, height: int, levels: int)
    requires NonNegative(counts)
    requires k < |counts| && counts[k] > 0
    requires forall j :: 0 <= j < k ==> counts[j] == 0
    requires levels != 2
    ensures CalculateCdf(0, CumSum(counts), counts[k], width, height, levels) == Success(k)
  {
    var cs := CumSum(counts);
    var t := Target(0, counts[k], width, height, levels);
    TargetOfZero(counts[k], width, height, levels);
    CumSumBeforeFirstOccupied(counts, k);
    var ds := Distances(cs, t);
    var r := CalculateCdf(0, cs, counts[k], width, height, levels);
    FirstMinAtZero(ds, k, r.value);
  }
}
