/** `return_z_value`: the z value of a pixel under a whole ramp, a linear
    first-match scan over the ranges in file order. */
module RampLookup {
  import opened Wrappers
  import opened Ramp

  /** The index of the first range whose box contains the pixel, if any. */
  function FirstMatch(p: Rgb, ranges: seq<RgbRange>): (m: Option<nat>)
    ensures m.Some? ==> m.value < |ranges| && InRange(ranges[m.value], p)
    ensures m.Some? ==> forall j :: 0 <= j < m.value ==> !InRange(ranges[j], p)
    ensures m.None? <==> forall j :: 0 <= j < |ranges| ==> !InRange(ranges[j], p)
  {
    if |ranges| == 0 then None
    else if InRange(ranges[0], p) then Some(0)
    else match FirstMatch(p, ranges[1..])
      case None => None
      case Some(i) => Some(i + 1)
  }

  /** `return_z_value`: scans the ranges in order and returns `rgb_to_z` of the
      first one containing the pixel, or `nullValue` when none does. The
      division inside `rgb_to_z` is never by zero along this path. */
  function ReturnZValue(p: Rgb, ranges: seq<RgbRange>, nullValue: int): (z: int)
    ensures FirstMatch(p, ranges).None? ==> z == nullValue
    ensures FirstMatch(p, ranges).Some? ==> RgbToZ(ranges[FirstMatch(p, ranges).value], p) == Success(z)
  {
    if |ranges| == 0 then nullValue
    else if InRange(ranges[0], p) then
      RgbToZInRange(ranges[0], p);
      RgbToZ(ranges[0], p).value
    else
      var z := ReturnZValue(p, ranges[1..], nullValue);
      match FirstMatch(p, ranges[1..])
      case None => z
      case Some(i) =>
        assert ranges[1..][i] == ranges[i + 1];
        z
  }

  /** A matched pixel gets a z value within its range's z interval; an unmatched
      one gets the null value. */
  lemma ReturnZValueBounds(p: Rgb, ranges: seq<RgbRange>, nullValue: int)
    ensures (forall j :: 0 <= j < |ranges| ==> !InRange(ranges[j], p)) ==> ReturnZValue(p, ranges, nullValue) == nullValue
    ensures forall i :: 0 <= i < |ranges| && InRange(ranges[i], p) && (forall j :: 0 <= j < i ==> !InRange(ranges[j], p))
              ==> ranges[i].zMin <= ReturnZValue(p, ranges, nullValue) <= ranges[i].zMin + ZRange(ranges[i])
  {
    match FirstMatch(p, ranges)
    case None =>
    case Some(i) => RgbToZInRange(ranges[i], p);
  }

  /** Ranges after the first match are never consulted, and ranges that miss
      the pixel can be skipped: the scan composes over concatenation. */
  lemma {:induction false} ReturnZValueAppend(p: Rgb, front: seq<RgbRange>, back: seq<RgbRange>, nullValue: int)
    ensures (exists j :: 0 <= j < |front| && InRange(front[j], p))
              ==> ReturnZValue(p, front + back, nullValue) == ReturnZValue(p, front, nullValue)
    ensures (forall j :: 0 <= j < |front| ==> !InRange(front[j], p))
              ==> ReturnZValue(p, front + back, nullValue) == ReturnZValue(p, back, nullValue)
  {
    if |front| > 0 {
      assert (front + back)[0] == front[0];
      assert (front + back)[1..] == front[1..] + back;
      if !InRange(front[0], p) {
        ReturnZValueAppend(p, front[1..], back, nullValue);
        if exists j :: 0 <= j < |front| && InRange(front[j], p) {
          var j :| 0 <= j < |front| && InRange(front[j], p);
          assert InRange(front[1..][j - 1], p);
        }
        if forall j :: 0 <= j < |front| ==> !InRange(front[j], p) {
          assert forall j :: 0 <= j < |front[1..]| ==> !InRange(front[1..][j], p) by {
            forall j | 0 <= j < |front[1..]| ensures !InRange(front[1..][j], p) {
              assert front[1..][j] == front[j + 1];
            }
          }
        }
      }
    } else {
      assert front + back == back;
    }
  }
}
