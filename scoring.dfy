/**
 * The read-only scoring of the answer handler: expected and correct label
 * counts, zone completeness, the permissive-mode verdict per zone, the
 * percentage and the `M:SS` duration of a submission.
 *
 * The DOM is replaced by a map from zone id to the labels placed in that
 * zone's element; a zone id absent from the map is a zone without an element.
 */
module Scoring {
  import opened Wrappers
  import opened JsText
  import opened Zones

  /** The answer handler's validation mode; permissive is the default. */
  datatype Mode = Strict | Permissive

  const DefaultMode: Mode := Permissive

  /** A label placed in a zone. `isCorrect` is set by permissive placements only. */
  datatype Placement = Placement(term: string, isCorrect: Option<bool>)

  type Placements = map<string, seq<Placement>>

  // ---------------------------------------------------------------------
  // Expected labels

  /** What one zone adds to the expected total: nothing when blank, its maximum when finite,
      otherwise its number of accepted terms. */
  function ExpectedFor(z: Zone): int {
    if z.IsBlank() then 0
    else if z.maxAllowed.None? then |z.acceptedTerms|
    else z.maxAllowed.value
  }

  /** `calculateTotalExpectedLabels`. */
  function TotalExpected(zones: seq<Zone>): int {
    if |zones| == 0 then 0 else TotalExpected(zones[..|zones| - 1]) + ExpectedFor(zones[|zones| - 1])
  }

  // ---------------------------------------------------------------------
  // Correct labels

  /** Whether a placed label counts as correct: its flag in permissive mode, membership of its
      term in strict mode. */
  predicate CountsAsCorrect(mode: Mode, z: Zone, p: Placement) {
    if mode == Permissive then p.isCorrect == Some(true) else p.term in z.acceptedTerms
  }

  /** The number of placed labels counting as correct. */
  function CorrectIn(mode: Mode, z: Zone, ps: seq<Placement>): (n: nat)
    ensures n <= |ps|
  {
    if |ps| == 0 then 0
    else CorrectIn(mode, z, ps[..|ps| - 1]) + (if CountsAsCorrect(mode, z, ps[|ps| - 1]) then 1 else 0)
  }

  /** `Math.min(count, cap)` with an infinite cap for an unlimited zone. */
  function Capped(count: nat, maxAllowed: Option<int>): int {
    if maxAllowed.None? || count <= maxAllowed.value then count else maxAllowed.value
  }

  /** What one zone adds to the correct count: nothing when blank or without an element. */
  function CorrectFor(mode: Mode, z: Zone, placements: Placements): int {
    if z.IsBlank() || z.id !in placements then 0
    else Capped(CorrectIn(mode, z, placements[z.id]), z.maxAllowed)
  }

  /** `calculatePlacedLabels`. */
  function PlacedCorrect(mode: Mode, zones: seq<Zone>, placements: Placements): int {
    if |zones| == 0 then 0
    else PlacedCorrect(mode, zones[..|zones| - 1], placements) + CorrectFor(mode, zones[|zones| - 1], placements)
  }

  /** A finite zone contributes at most its maximum, an unlimited one at most its label count,
      and a zone with a non-negative maximum never a negative amount. */
  lemma CorrectForBounds(mode: Mode, z: Zone, placements: Placements)
    ensures z.maxAllowed.Some? && z.maxAllowed.value >= 0 ==> CorrectFor(mode, z, placements) <= ExpectedFor(z)
    ensures z.maxAllowed.None? && z.id in placements ==> CorrectFor(mode, z, placements) <= |placements[z.id]|
    ensures (z.maxAllowed.None? || z.maxAllowed.value >= 0) ==> CorrectFor(mode, z, placements) >= 0
  {
  }

  /** When every non-blank zone has a finite maximum, the correct count never exceeds the total. */
  lemma {:induction false} PlacedCorrectAtMostTotal(mode: Mode, zones: seq<Zone>, placements: Placements)
    requires forall z :: z in zones && !z.IsBlank() ==> z.maxAllowed.Some? && z.maxAllowed.value >= 0
    ensures PlacedCorrect(mode, zones, placements) <= TotalExpected(zones)
  {
    if |zones| > 0 {
      var init := zones[..|zones| - 1];
      assert forall z :: z in init ==> z in zones;
      PlacedCorrectAtMostTotal(mode, init, placements);
      CorrectForBounds(mode, zones[|zones| - 1], placements);
    }
  }

  /** An unlimited zone is capped by nothing: two accepted terms make a total of 3 with a
      one-label zone, yet four correct labels in the unlimited zone score 4. */
  lemma UnlimitedZoneExceedsTotal()
    ensures var zones := [Zone("z1", ["a", "b"], 1, None, 0.0, 0.0, 10.0, 10.0),
                          Zone("z2", ["a", "b"], 1, Some(1), 20.0, 0.0, 10.0, 10.0)];
            var ps := [Placement("a", Some(true)), Placement("a", Some(true)),
                       Placement("b", Some(true)), Placement("b", Some(true))];
            var placements := map["z1" := ps, "z2" := []];
      TotalExpected(zones) == 3 && PlacedCorrect(Permissive, zones, placements) == 4
  {
    var zones := [Zone("z1", ["a", "b"], 1, None, 0.0, 0.0, 10.0, 10.0),
                  Zone("z2", ["a", "b"], 1, Some(1), 20.0, 0.0, 10.0, 10.0)];
    var ps := [Placement("a", Some(true)), Placement("a", Some(true)),
               Placement("b", Some(true)), Placement("b", Some(true))];
    var placements := map["z1" := ps, "z2" := []];
    assert zones[..1] == [zones[0]] && zones[..1][..0] == [];
    var z := zones[0];
    assert ps[..1][..0] == [] && ps[..2][..1] == ps[..1] && ps[..3][..2] == ps[..2] && ps[..4] == ps;
    assert CorrectIn(Permissive, z, ps[..1]) == 1;
    assert CorrectIn(Permissive, z, ps[..2]) == 2;
    assert CorrectIn(Permissive, z, ps[..3]) == 3;
    assert CorrectIn(Permissive, z, ps) == 4;
    assert placements["z1"] == ps && placements["z2"] == [];
    assert CorrectFor(Permissive, z, placements) == 4;
    assert CorrectFor(Permissive, zones[1], placements) == 0;
    assert PlacedCorrect(Permissive, zones[..1], placements) == 4;
  }

  // ---------------------------------------------------------------------
  // Completeness

  /** All placed terms are accepted. */
  predicate AllAccepted(z: Zone, ps: seq<Placement>) {
    forall i :: 0 <= i < |ps| ==> ps[i].term in z.acceptedTerms
  }

  /** The count lies within the zone's limits. */
  predicate WithinLimits(z: Zone, count: nat) {
    count >= z.minRequired && (z.maxAllowed.None? || count <= z.maxAllowed.value)
  }

  /** A non-blank zone meets its requirements: it has an element, every placed term is
      accepted, and the count lies within its limits. */
  predicate ZoneComplete(z: Zone, placements: Placements) {
    z.id in placements && AllAccepted(z, placements[z.id]) && WithinLimits(z, |placements[z.id]|)
  }

  /** `calculateCorrectZones`. */
  function CorrectZones(zones: seq<Zone>, placements: Placements): (n: nat)
    ensures n <= NonBlankCount(zones)
  {
    if |zones| == 0 then 0
    else
      CorrectZones(zones[..|zones| - 1], placements)
      + (if !zones[|zones| - 1].IsBlank() && ZoneComplete(zones[|zones| - 1], placements) then 1 else 0)
  }

  function NonBlankCount(zones: seq<Zone>): nat {
    if |zones| == 0 then 0
    else NonBlankCount(zones[..|zones| - 1]) + (if zones[|zones| - 1].IsBlank() then 0 else 1)
  }

  /** `checkAllZonesComplete`. */
  predicate AllComplete(zones: seq<Zone>, placements: Placements) {
    forall i :: 0 <= i < |zones| ==> zones[i].IsBlank() || ZoneComplete(zones[i], placements)
  }

  /** All zones are complete exactly when every non-blank zone is counted as correct. */
  lemma {:induction false} AllCompleteIffAllCorrect(zones: seq<Zone>, placements: Placements)
    ensures AllComplete(zones, placements) <==> CorrectZones(zones, placements) == NonBlankCount(zones)
  {
    if |zones| > 0 {
      var init := zones[..|zones| - 1];
      AllCompleteIffAllCorrect(init, placements);
      assert AllComplete(zones, placements) <==>
        AllComplete(init, placements)
        && (zones[|zones| - 1].IsBlank() || ZoneComplete(zones[|zones| - 1], placements)) by {
        assert forall i :: 0 <= i < |init| ==> init[i] == zones[i];
      }
    }
  }

  // ---------------------------------------------------------------------
  // Permissive verdict

  datatype Verdict = Green | Red

  /** The border `showPermissiveModeFeedback` gives a zone: none for a blank zone, a zone
      without an element or an empty zone; green when every label is flagged correct and the
      count is within limits; red otherwise. */
  function ZoneVerdict(z: Zone, placements: Placements): Option<Verdict> {
    if z.IsBlank() || z.id !in placements || |placements[z.id]| == 0 then None
    else if (forall i :: 0 <= i < |placements[z.id]| ==> placements[z.id][i].isCorrect == Some(true))
            && WithinLimits(z, |placements[z.id]|)
    then Some(Green)
    else Some(Red)
  }

  /** With placements made in permissive mode (flag set to acceptance), a green zone is a
      complete zone, and a complete non-empty zone is green. */
  lemma VerdictMatchesCompleteness(z: Zone, placements: Placements)
    requires z.id in placements
    requires forall p :: p in placements[z.id] ==> p.isCorrect == Some(p.term in z.acceptedTerms)
    ensures ZoneVerdict(z, placements) == Some(Green) <==>
      !z.IsBlank() && |placements[z.id]| > 0 && ZoneComplete(z, placements)
  {
    var ps := placements[z.id];
    assert forall i :: 0 <= i < |ps| ==> ps[i] in ps;
  }

  // ---------------------------------------------------------------------
  // Percentage

  /** `Math.round(correct / total * 100)` for a positive total, computed exactly: half-way
      values round up. Zero when the total is not positive. */
  function Percentage(correct: int, total: int): (p: int)
    ensures total > 0 ==> 2 * total * p <= 200 * correct + total < 2 * total * p + 2 * total
    ensures total <= 0 ==> p == 0
  {
    if total > 0 then (200 * correct + total) / (2 * total) else 0
  }

  lemma MulMono(a: int, b: int, c: int)
    requires a > 0 && b <= c
    ensures a * b <= a * c
  {
    assert a * c - a * b == a * (c - b);
  }

  /** The percentage lies between 0 and 100 when the correct count does not exceed the total. */
  lemma PercentageRange(correct: int, total: int)
    requires 0 <= correct <= total
    ensures 0 <= Percentage(correct, total) <= 100
  {
    if total > 0 {
      var p := Percentage(correct, total);
      var q := 2 * total;
      assert q * p <= 200 * correct + total < q * p + q;
      if p >= 101 {
        MulMono(q, 101, p);
      }
      if p <= -1 {
        MulMono(q, p, -1);
      }
    }
  }

  /** Three of four is 75 percent; one of eight (12.5) rounds up to 13; one of three to 33. */
  lemma PercentageExamples()
    ensures Percentage(3, 4) == 75 && Percentage(1, 8) == 13 && Percentage(1, 3) == 33
    ensures Percentage(5, 5) == 100 && Percentage(0, 7) == 0 && Percentage(2, 0) == 0
  {
  }

  // ---------------------------------------------------------------------
  // Duration

  /** `getActivityDuration`: whole seconds since the start, up to the end time when the timer
      was stopped and up to `now` otherwise; 0 when the activity never started. Times in ms. */
  function Duration(startTime: Option<int>, endTime: Option<int>, now: int): (d: int)
    ensures startTime.None? ==> d == 0
    ensures startTime.Some? ==>
      var elapsed := endTime.GetOr(now) - startTime.value;
      1000 * d <= elapsed < 1000 * d + 1000
  {
    if startTime.None? then 0 else (endTime.GetOr(now) - startTime.value) / 1000
  }

  /** JavaScript's `%`: the remainder takes the sign of the dividend. */
  function JsRem(a: int, b: int): int
    requires b > 0
  {
    if a >= 0 then a % b else -((-a) % b)
  }

  /** The `durationFormatted` field of a submission: minutes, a colon and the seconds padded
      to two places. */
  function FormatDuration(d: int): string {
    IntToString(d / 60) + ":" + PadStart2(IntToString(JsRem(d, 60)))
  }

  /** Reads back a formatted non-negative duration. */
  function ParseDuration(s: string): Option<int> {
    if |s| < 4 || s[|s| - 3] != ':' then None
    else
      match (ParseNat(s[..|s| - 3]), ParseNat(s[|s| - 2..]))
      case (Some(m), Some(sec)) => if sec < 60 then Some(m * 60 + sec) else None
      case _ => None
  }

  lemma TwoDigits(n: nat)
    requires n < 100
    ensures |NatToString(n)| <= 2
  {
    if n >= 10 {
      assert NatToString(n) == NatToString(n / 10) + [DigitChar(n % 10)];
    }
  }

  /** The minutes part is the whole minutes, the seconds part always two digits. */
  lemma FormatDurationShape(d: nat)
    ensures var s := FormatDuration(d);
      |s| >= 4 && s[|s| - 3] == ':' && s[..|s| - 3] == NatToString(d / 60)
      && s[|s| - 2..] == PadStart2(NatToString(d % 60))
  {
    TwoDigits(d % 60);
    var m := NatToString(d / 60);
    var pad := PadStart2(NatToString(d % 60));
    assert FormatDuration(d) == m + ":" + pad;
  }

  /** The seconds part of a formatted duration reads back as the seconds. */
  lemma PaddedSeconds(sec: nat)
    requires sec < 60
    ensures var pad := PadStart2(NatToString(sec));
      |pad| == 2 && ParseNat(pad) == Some(sec)
  {
    TwoDigits(sec);
    DigitsOfNat(sec);
    var pad := PadStart2(NatToString(sec));
    if sec < 10 {
      assert pad == ['0', DigitChar(sec)];
      assert pad[..1] == ['0'];
      assert pad[..1][..0] == [];
      assert DigitsValue(pad) == sec;
    } else {
      assert pad == NatToString(sec);
    }
  }

  /** Formatting a non-negative duration loses nothing. */
  lemma FormatParseRoundTrip(d: nat)
    ensures ParseDuration(FormatDuration(d)) == Some(d)
  {
    FormatDurationShape(d);
    ParseFormatted(FormatDuration(d), d);
  }

  /** Any string of the formatted shape for `d` reads back as `d`. */
  lemma ParseFormatted(s: string, d: nat)
    requires |s| >= 4 && s[|s| - 3] == ':'
    requires s[..|s| - 3] == NatToString(d / 60)
    requires s[|s| - 2..] == PadStart2(NatToString(d % 60))
    ensures ParseDuration(s) == Some(d)
  {
    PaddedSeconds(d % 60);
    DigitsOfNat(d / 60);
    assert ParseNat(s[..|s| - 3]) == Some(d / 60);
  }

  /** A negative duration (a clock set back) prints with two minus signs: -5 seconds is "-1:-5". */
  lemma NegativeDurationFormat()
    ensures FormatDuration(-5) == "-1:-5"
  {
    assert -5 / 60 == -1;
    assert JsRem(-5, 60) == -5;
    assert NatToString(1) == "1";
    assert NatToString(5) == "5";
  }
}
