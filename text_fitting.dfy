/**
 * The font-size searches of the text fitter. Measuring rendered text is the
 * browser's business, so it is a parameter: `fits(size)` says whether the
 * text set at `size` pixels fits the space the caller computed.
 */
module TextFitting {
  import opened Wrappers
  import opened Zones

  /** A fit test where every size below a fitting size fits too. */
  ghost predicate Monotone(fits: int -> bool) {
    forall a, b :: a <= b && fits(b) ==> fits(a)
  }

  /** `r` is the largest size in `[lo, hi]` that fits, or `lo` when none does. */
  ghost predicate IsLargestFitting(lo: int, hi: int, fits: int -> bool, r: int) {
    && r >= lo
    && (r == lo || (r <= hi && fits(r)))
    && (forall s :: lo <= s <= hi && fits(s) ==> s <= r)
  }

  /** Reference definition: try every size from `hi` down to `lo`. */
  function LargestFittingByScan(lo: int, hi: int, fits: int -> bool): int
    decreases hi - lo
  {
    if hi < lo then lo
    else if fits(hi) then hi
    else LargestFittingByScan(lo, hi - 1, fits)
  }

  /** The downward scan finds the largest fitting size, whether or not the test is monotone. */
  lemma {:induction false} ScanIsLargest(lo: int, hi: int, fits: int -> bool)
    ensures IsLargestFitting(lo, hi, fits, LargestFittingByScan(lo, hi, fits))
    decreases hi - lo
  {
    if hi >= lo && !fits(hi) {
      ScanIsLargest(lo, hi - 1, fits);
    }
  }

  /** There is one largest fitting size. */
  lemma LargestIsUnique(lo: int, hi: int, fits: int -> bool, a: int, b: int)
    requires IsLargestFitting(lo, hi, fits, a) && IsLargestFitting(lo, hi, fits, b)
    ensures a == b
  {
  }

  /** The `while (lo <= hi)` bisection both fitters run, starting with `best` at the lower
      bound: `best` only moves to a size that fits, the loop does not run on an empty range,
      and for a monotone test the result is the one the downward scan finds. */
  method LargestFitting(lo0: int, hi0: int, fits: int -> bool) returns (best: int)
    ensures best >= lo0
    ensures best == lo0 || (best <= hi0 && fits(best))
    ensures hi0 < lo0 ==> best == lo0
    ensures Monotone(fits) ==> best == LargestFittingByScan(lo0, hi0, fits)
  {
    var lo, hi := lo0, hi0;
    best := lo0;
    while lo <= hi
      invariant lo0 <= lo && hi <= hi0 && best >= lo0
      invariant (best == lo0 && lo == lo0) || (fits(best) && lo == best + 1 && best <= hi0)
      invariant hi0 < lo0 ==> lo == lo0 && hi == hi0
      invariant Monotone(fits) ==> forall s :: hi < s <= hi0 ==> !fits(s)
      decreases hi - lo
    {
      var mid := (lo + hi) / 2;
      if fits(mid) {
        best := mid;
        lo := mid + 1;
      } else {
        hi := mid - 1;
      }
    }
    if Monotone(fits) {
      ScanIsLargest(lo0, hi0, fits);
      LargestIsUnique(lo0, hi0, fits, best, LargestFittingByScan(lo0, hi0, fits));
    }
  }

  /** A zone lays its labels out in a grid when it may hold more than one. */
  predicate IsMultiTermZone(z: Zone) {
    z.maxAllowed.None? || z.maxAllowed.value > 1
  }

  /** `Math.max(1, zone.maxAllowed || placed)`: a finite non-zero maximum, otherwise the
      number of labels placed, and never below one row. */
  function GridRows(z: Zone, placed: nat): (rows: int)
    ensures rows >= 1
  {
    var n := if z.maxAllowed.Some? && z.maxAllowed.value != 0 then z.maxAllowed.value else placed;
    if n >= 1 then n else 1
  }

  /** A multi-term zone with a finite maximum has one row per allowed label; an unlimited zone
      has one row per placed label, and one when it is empty. */
  lemma GridRowsOfMultiTerm(z: Zone, placed: nat)
    requires IsMultiTermZone(z)
    ensures z.maxAllowed.Some? ==> GridRows(z, placed) == z.maxAllowed.value
    ensures z.maxAllowed.None? ==> GridRows(z, placed) == (if placed >= 1 then placed else 1)
  {
  }

  /** `Math.round` for the non-negative sizes a style reports. */
  function Round(x: real): int {
    (x + 0.5).Floor
  }

  /** The search range of `fitLabelToZone`: from `max(1, minPx)` to `maxPx` when given, else
      to a ceiling of 75% (grid cell) or 85% (whole zone) of the text height, rounded down. */
  function FitRange(multi: bool, textHeight: real, minPx: int, maxPx: Option<int>): (r: (int, int))
    ensures r.0 >= 1 && r.0 >= minPx
    ensures maxPx.Some? ==> r.1 == maxPx.value
    ensures maxPx.None? ==> r.1 as real <= textHeight * (if multi then 0.75 else 0.85)
  {
    var lo := if minPx >= 1 then minPx else 1;
    var ceiling := (textHeight * (if multi then 0.75 else 0.85)).Floor;
    (lo, if maxPx.Some? then maxPx.value else ceiling)
  }

  /** The search in `fitLabelToZone` for the zone the label sits in (if any is configured),
      with `fits` standing for the measurement against the cell or zone with its margins. */
  method FitLabelToZone(zone: Option<Zone>, textHeight: real, minPx: int, maxPx: Option<int>,
                        fits: int -> bool) returns (size: int)
    ensures var (lo, hi) := FitRange(zone.Some? && IsMultiTermZone(zone.value), textHeight, minPx, maxPx);
      && size >= lo && size >= 1
      && (size == lo || (size <= hi && fits(size)))
      && (hi < lo ==> size == lo)
      && (Monotone(fits) ==> IsLargestFitting(lo, hi, fits, size))
  {
    var multi := zone.Some? && IsMultiTermZone(zone.value);
    var range := FitRange(multi, textHeight, minPx, maxPx);
    size := LargestFitting(range.0, range.1, fits);
    ScanIsLargest(range.0, range.1, fits);
  }

  /** The upper bound of `adjustDraggableLabelFontSizesPrecise`: the label's font size
      (18 when it cannot be read or is 0), rounded and clamped into [14, 28]. */
  function DraggableCeiling(currentPx: Option<real>): (hi: int)
    ensures 14 <= hi <= 28
  {
    var px := if currentPx.None? || currentPx.value == 0.0 then 18.0 else currentPx.value;
    var r := Round(px);
    if r > 28 then 28 else if r < 14 then 14 else r
  }

  /** Shrinks a sidebar tile's text to one line: `fits(size)` stands for the measured width at
      `size` being at most the available width less 15 pixels. The size lies in [10, ceiling],
      and for a monotone test it is the largest that fits, or 10 when none does. */
  method AdjustDraggableLabel(currentPx: Option<real>, fits: int -> bool) returns (size: int)
    ensures 10 <= size <= DraggableCeiling(currentPx)
    ensures size == 10 || fits(size)
    ensures Monotone(fits) ==> IsLargestFitting(10, DraggableCeiling(currentPx), fits, size)
  {
    var hi := DraggableCeiling(currentPx);
    size := LargestFitting(10, hi, fits);
    ScanIsLargest(10, hi, fits);
  }

  lemma DraggableCeilingExamples()
    ensures DraggableCeiling(None) == 18
    ensures DraggableCeiling(Some(0.0)) == 18
    ensures DraggableCeiling(Some(16.5)) == 17
    ensures DraggableCeiling(Some(40.0)) == 28
    ensures DraggableCeiling(Some(9.0)) == 14
  {
  }
}
