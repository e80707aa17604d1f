/**
 * Drop zones as the editor and the loader of the main script handle them:
 * migration of stored zones to the current format, configuration checks,
 * geometry clamping, the editor's operations on the zone list, and where the
 * zone list of an activity comes from.
 *
 * Geometry is in percent of the image and is modelled with `real`.
 */
module Zones {
  import opened Wrappers
  import opened JsText

  /** A drop zone in the current format. `maxAllowed == None` is `null`: unlimited. */
  datatype Zone = Zone(id: string, acceptedTerms: seq<string>, minRequired: int, maxAllowed: Option<int>,
                       x: real, y: real, width: real, height: real)
  {
    /** A zone that accepts no term: it takes no part in scoring. */
    predicate IsBlank() {
      |acceptedTerms| == 0
    }
  }

  /** A zone as read from a setup file or from storage, any field possibly absent.
      `term` is the legacy single term (`Some("")` when it is present but `null` or empty);
      `acceptedTerms == None` is a missing or `null` list;
      `maxAllowed == None` is a missing field, `Some(None)` an explicit `null`. */
  datatype StoredZone = StoredZone(id: string, term: Option<string>, acceptedTerms: Option<seq<string>>,
                                   minRequired: Option<int>, maxAllowed: Option<Option<int>>,
                                   x: real, y: real, width: real, height: real)

  // ---------------------------------------------------------------------
  // Migration

  /** `convertLegacyZones` for one zone. */
  function ConvertLegacy(s: StoredZone): Zone {
    if s.term.Some? then
      Zone(s.id, if s.term.value != "" then [s.term.value] else [], 1, Some(1), s.x, s.y, s.width, s.height)
    else
      Zone(s.id, s.acceptedTerms.GetOr([]), s.minRequired.GetOr(1), s.maxAllowed.GetOr(Some(1)),
           s.x, s.y, s.width, s.height)
  }

  /** A converted zone as it sits in memory: every field present, no legacy `term`. */
  function Stored(z: Zone): StoredZone {
    StoredZone(z.id, None, Some(z.acceptedTerms), Some(z.minRequired), Some(z.maxAllowed),
               z.x, z.y, z.width, z.height)
  }

  /** A legacy zone gets its term as the only accepted term (none for an empty term) and
      exactly one label required and allowed; the legacy field is gone afterwards. */
  lemma ConvertLegacyTerm(s: StoredZone)
    requires s.term.Some?
    ensures var z := ConvertLegacy(s);
      && (s.term.value != "" ==> z.acceptedTerms == [s.term.value])
      && (s.term.value == "" ==> z.IsBlank())
      && z.minRequired == 1 && z.maxAllowed == Some(1)
      && Stored(z).term.None?
  {
  }

  /** Without a legacy term, present fields are kept (an explicit `null` maximum included)
      and absent ones default to no terms, one required and one allowed. */
  lemma ConvertLegacyDefaults(s: StoredZone)
    requires s.term.None?
    ensures var z := ConvertLegacy(s);
      && (s.acceptedTerms.Some? ==> z.acceptedTerms == s.acceptedTerms.value)
      && (s.acceptedTerms.None? ==> z.acceptedTerms == [])
      && (s.minRequired.Some? ==> z.minRequired == s.minRequired.value)
      && (s.minRequired.None? ==> z.minRequired == 1)
      && (s.maxAllowed == Some(None) ==> z.maxAllowed.None?)
      && (s.maxAllowed.None? ==> z.maxAllowed == Some(1))
  {
  }

  /** Converting a zone already in the current format changes nothing. */
  lemma ConvertStored(z: Zone)
    ensures ConvertLegacy(Stored(z)) == z
  {
  }

  /** Running the migration twice is the same as running it once. */
  lemma ConvertLegacyIdempotent(s: StoredZone)
    ensures ConvertLegacy(Stored(ConvertLegacy(s))) == ConvertLegacy(s)
  {
    ConvertStored(ConvertLegacy(s));
  }

  /** The `forEach` of `convertLegacyZones` over a whole list. */
  method ConvertLegacyZones(stored: seq<StoredZone>) returns (zones: seq<Zone>)
    ensures |zones| == |stored|
    ensures forall i :: 0 <= i < |stored| ==> zones[i] == ConvertLegacy(stored[i])
  {
    zones := [];
    var i := 0;
    while i < |stored|
      invariant 0 <= i <= |stored|
      invariant |zones| == i
      invariant forall j :: 0 <= j < i ==> zones[j] == ConvertLegacy(stored[j])
    {
      zones := zones + [ConvertLegacy(stored[i])];
      i := i + 1;
    }
  }

  // ---------------------------------------------------------------------
  // Configuration checks

  datatype ConfigError =
    | NoAcceptedTerms(zoneId: string)
    | InvalidMinRequired(zoneId: string, minRequired: int)
    | MaxBelowMin(zoneId: string, maxAllowed: int, minRequired: int)

  /** Whether `maxAllowed` is finite and below `minRequired`. */
  predicate MaxBelowMinRequired(minRequired: int, maxAllowed: Option<int>) {
    maxAllowed.Some? && maxAllowed.value < minRequired
  }

  /** The errors `validateZoneConfiguration` reports for one zone, in the order it reports them.
      The second emptiness test is the source's, and it can never fire after the first. */
  function ZoneErrors(z: Zone): seq<ConfigError> {
    if z.IsBlank() then []
    else if |z.acceptedTerms| == 0 then [NoAcceptedTerms(z.id)]
    else
      (if z.minRequired < 0 then [InvalidMinRequired(z.id, z.minRequired)] else [])
      + (if MaxBelowMinRequired(z.minRequired, z.maxAllowed)
         then [MaxBelowMin(z.id, z.maxAllowed.value, z.minRequired)] else [])
  }

  /** `validateZoneConfiguration`: the errors of every zone, zone by zone. */
  function ValidateZoneConfiguration(zones: seq<Zone>): seq<ConfigError> {
    if |zones| == 0 then [] else ZoneErrors(zones[0]) + ValidateZoneConfiguration(zones[1..])
  }

  /** A zone whose configuration `validateZoneConfiguration` accepts. */
  predicate WellConfigured(z: Zone) {
    z.IsBlank() || (z.minRequired >= 0 && !MaxBelowMinRequired(z.minRequired, z.maxAllowed))
  }

  /** Per zone: nothing for a blank zone; otherwise one error for a negative minimum and one
      for a finite maximum below the minimum, and nothing else. */
  lemma ZoneErrorsSpec(z: Zone)
    ensures z.IsBlank() ==> ZoneErrors(z) == []
    ensures !z.IsBlank() ==>
      (InvalidMinRequired(z.id, z.minRequired) in ZoneErrors(z) <==> z.minRequired < 0)
    ensures !z.IsBlank() ==>
      (MaxBelowMinRequired(z.minRequired, z.maxAllowed) <==>
         z.maxAllowed.Some? && MaxBelowMin(z.id, z.maxAllowed.value, z.minRequired) in ZoneErrors(z))
    ensures forall e :: e in ZoneErrors(z) ==> e.zoneId == z.id && !e.NoAcceptedTerms?
    ensures ZoneErrors(z) == [] <==> WellConfigured(z)
  {
  }

  /** The "no accepted terms" error is never reported, and every error names a zone of the list. */
  lemma {:induction false} ValidateErrorsFrom(zones: seq<Zone>)
    ensures forall e :: e in ValidateZoneConfiguration(zones) ==>
      !e.NoAcceptedTerms? && exists z :: z in zones && !z.IsBlank() && e.zoneId == z.id
  {
    if |zones| > 0 {
      ValidateErrorsFrom(zones[1..]);
      ZoneErrorsSpec(zones[0]);
      forall e | e in ValidateZoneConfiguration(zones)
        ensures !e.NoAcceptedTerms? && exists z :: z in zones && !z.IsBlank() && e.zoneId == z.id
      {
        if e in ZoneErrors(zones[0]) {
          assert zones[0] in zones;
        } else {
          var z :| z in zones[1..] && !z.IsBlank() && e.zoneId == z.id;
          assert z in zones;
        }
      }
    }
  }

  /** The list of errors is empty exactly when every zone is well configured. */
  lemma {:induction false} ValidateEmptyIff(zones: seq<Zone>)
    ensures ValidateZoneConfiguration(zones) == [] <==> forall z :: z in zones ==> WellConfigured(z)
  {
    if |zones| > 0 {
      ValidateEmptyIff(zones[1..]);
      ZoneErrorsSpec(zones[0]);
      assert forall z :: z in zones <==> z == zones[0] || z in zones[1..];
    }
  }

  /** Why `saveZone` refuses the form, tested in this order. */
  datatype SaveError = NoTermChecked | NegativeMinimum | MaximumBelowMinimum

  /** The checks of `saveZone` on the checked terms and the parsed minimum and maximum. */
  function SaveCheck(acceptedTerms: seq<string>, minRequired: int, maxAllowed: Option<int>): Option<SaveError> {
    if |acceptedTerms| == 0 then Some(NoTermChecked)
    else if minRequired < 0 then Some(NegativeMinimum)
    else if MaxBelowMinRequired(minRequired, maxAllowed) then Some(MaximumBelowMinimum)
    else None
  }

  /** `saveZone` accepts a form exactly when the zone it would save is non-blank and passes
      `validateZoneConfiguration`; the first failing check is the one reported. */
  lemma SaveCheckMatchesValidation(z: Zone)
    ensures SaveCheck(z.acceptedTerms, z.minRequired, z.maxAllowed).None? <==>
      !z.IsBlank() && ZoneErrors(z) == []
    ensures SaveCheck(z.acceptedTerms, z.minRequired, z.maxAllowed) == Some(NegativeMinimum) ==>
      !z.IsBlank() && ZoneErrors(z)[0] == InvalidMinRequired(z.id, z.minRequired)
    ensures SaveCheck(z.acceptedTerms, z.minRequired, z.maxAllowed) == Some(MaximumBelowMinimum) ==>
      ZoneErrors(z) == [MaxBelowMin(z.id, z.maxAllowed.value, z.minRequired)]
  {
    ZoneErrorsSpec(z);
  }

  // ---------------------------------------------------------------------
  // Geometry

  function Min(a: real, b: real): real { if a <= b then a else b }
  function Max(a: real, b: real): real { if a >= b then a else b }

  /** `Math.max(lo, Math.min(hi, v))`. */
  function Clamp(v: real, lo: real, hi: real): (r: real)
    requires lo <= hi
    ensures lo <= r <= hi
    ensures lo <= v <= hi ==> r == v
  {
    Max(lo, Min(hi, v))
  }

  /** The image as `validateZonePositions` finds it. */
  datatype ImageState = NotLoaded | Loaded(rectWidth: real, rectHeight: real)

  /** The not-loaded branch: each coordinate and size clamped on its own. */
  function ClampBasic(z: Zone): Zone {
    z.(x := Clamp(z.x, 0.0, 100.0), y := Clamp(z.y, 0.0, 100.0),
       width := Clamp(z.width, 5.0, 50.0), height := Clamp(z.height, 5.0, 50.0))
  }

  /** Sizes above 100 were saved in pixels and become a percentage of the image. */
  function Normalise(size: real, imageSize: real): real
    requires imageSize != 0.0
  {
    if size > 100.0 then size / imageSize * 100.0 else size
  }

  /** The loaded branch: normalise pixel sizes, clamp, then shift the zone back inside the image. */
  function ClampShift(z: Zone, imageWidth: real, imageHeight: real): Zone
    requires imageWidth != 0.0 && imageHeight != 0.0
  {
    var x := Clamp(z.x, 0.0, 100.0);
    var y := Clamp(z.y, 0.0, 100.0);
    var width := Clamp(Normalise(z.width, imageWidth), 5.0, 50.0);
    var height := Clamp(Normalise(z.height, imageHeight), 5.0, 50.0);
    z.(x := if x + width > 100.0 then 100.0 - width else x,
       y := if y + height > 100.0 then 100.0 - height else y,
       width := width, height := height)
  }

  /** One zone after `validateZonePositions` in the given image state: the not-loaded branch,
      nothing yet for an image of zero size, otherwise the loaded branch. */
  function Revalidated(z: Zone, image: ImageState): Zone {
    match image
    case NotLoaded => ClampBasic(z)
    case Loaded(w, h) => if w == 0.0 || h == 0.0 then z else ClampShift(z, w, h)
  }

  /** A zone lying inside the image with a size the editor allows. */
  predicate InsideImage(z: Zone) {
    5.0 <= z.width <= 50.0 && 5.0 <= z.height <= 50.0
    && 0.0 <= z.x && z.x + z.width <= 100.0
    && 0.0 <= z.y && z.y + z.height <= 100.0
  }

  /** After the loaded branch the zone lies inside the image, only its geometry changed,
      and a zone already inside the image is left as it is. */
  lemma ClampShiftInside(z: Zone, imageWidth: real, imageHeight: real)
    requires imageWidth != 0.0 && imageHeight != 0.0
    ensures InsideImage(ClampShift(z, imageWidth, imageHeight))
    ensures var r := ClampShift(z, imageWidth, imageHeight);
      r.id == z.id && r.acceptedTerms == z.acceptedTerms
      && r.minRequired == z.minRequired && r.maxAllowed == z.maxAllowed
    ensures InsideImage(z) ==> ClampShift(z, imageWidth, imageHeight) == z
  {
  }

  /** Validating positions twice is the same as validating once. */
  lemma ClampShiftIdempotent(z: Zone, imageWidth: real, imageHeight: real)
    requires imageWidth != 0.0 && imageHeight != 0.0
    ensures ClampShift(ClampShift(z, imageWidth, imageHeight), imageWidth, imageHeight)
         == ClampShift(z, imageWidth, imageHeight)
  {
    ClampShiftInside(z, imageWidth, imageHeight);
    ClampShiftInside(ClampShift(z, imageWidth, imageHeight), imageWidth, imageHeight);
  }

  /** The not-loaded branch keeps every value in range, but does not shift: a zone at the right
      edge still sticks out of the image. */
  lemma ClampBasicNoShift()
    ensures var z := ClampBasic(Zone("z", [], 1, Some(1), 100.0, 0.0, 50.0, 10.0));
      5.0 <= z.width <= 50.0 && 0.0 <= z.x <= 100.0 && z.x + z.width > 100.0
  {
    var z := ClampBasic(Zone("z", [], 1, Some(1), 100.0, 0.0, 50.0, 10.0));
    assert z.x == 100.0 && z.width == 50.0;
  }

  /** What the not-loaded branch does guarantee. */
  lemma ClampBasicRanges(z: Zone)
    ensures var r := ClampBasic(z);
      && 0.0 <= r.x <= 100.0 && 0.0 <= r.y <= 100.0
      && 5.0 <= r.width <= 50.0 && 5.0 <= r.height <= 50.0
      && r.(x := z.x, y := z.y, width := z.width, height := z.height) == z
  {
  }

  // ---------------------------------------------------------------------
  // Zone source

  /** Where `loadDropZones` takes the zone list from. */
  datatype ZoneSource = InMemory | FromSetup | FromStorage | Defaults

  /** Zones in memory win, then a non-empty setup list, then any stored list (an empty one
      included), and only then one default zone per term. */
  function ChooseZoneSource(inMemory: seq<Zone>, setupZones: Option<seq<StoredZone>>,
                            savedZones: Option<seq<StoredZone>>): ZoneSource
  {
    if |inMemory| > 0 then InMemory
    else if setupZones.Some? && |setupZones.value| > 0 then FromSetup
    else if savedZones.Some? then FromStorage
    else Defaults
  }

  /** The zone created for the term at `index` when nothing else is available. */
  function DefaultZone(index: nat): Zone {
    Zone("zone-" + NatToString(index), [], 1, Some(1),
         20.0 + (index as real) * 15.0, 20.0 + (index as real) * 10.0, 15.0, 10.0)
  }

  /** `terms.map((term, index) => ...)`: one blank zone per term, ids `zone-0`, `zone-1`, ... */
  function DefaultZones(terms: seq<string>): (zones: seq<Zone>)
    ensures |zones| == |terms|
    ensures forall i :: 0 <= i < |zones| ==> zones[i] == DefaultZone(i)
  {
    seq(|terms|, i requires 0 <= i < |terms| => DefaultZone(i))
  }

  /** Default zones are blank, need and allow one label each, and have distinct ids. */
  lemma DefaultZonesDistinct(terms: seq<string>)
    ensures var zones := DefaultZones(terms);
      && (forall i :: 0 <= i < |zones| ==>
            zones[i].IsBlank() && zones[i].minRequired == 1 && zones[i].maxAllowed == Some(1))
      && (forall i, j :: 0 <= i < j < |zones| ==> zones[i].id != zones[j].id)
  {
    var zones := DefaultZones(terms);
    forall i, j | 0 <= i < j < |zones| ensures zones[i].id != zones[j].id {
      NatToStringInjective(i, j);
      assert zones[i].id[5..] == NatToString(i) && zones[j].id[5..] == NatToString(j);
    }
  }

  // ---------------------------------------------------------------------
  // The editor

  /** `zones.filter(z => z.id !== id)`. */
  function WithoutId(zones: seq<Zone>, id: string): (r: seq<Zone>)
    ensures forall z :: z in r <==> z in zones && z.id != id
    ensures |r| <= |zones|
  {
    if |zones| == 0 then []
    else
      var rest := WithoutId(zones[1..], id);
      assert forall z :: z in zones <==> z == zones[0] || z in zones[1..];
      if zones[0].id != id then [zones[0]] + rest else rest
  }

  /** Outcome of `resizeAllZones`. */
  datatype ResizeOutcome = InvalidNumber | OutOfRange | NoZones | Resized

  /** The checks of `resizeAllZones`, in order; `None` is a size that did not parse (`NaN`). */
  function ResizeCheck(width: Option<real>, height: Option<real>, zoneCount: nat): ResizeOutcome {
    if width.None? || height.None? then InvalidNumber
    else if width.value < 5.0 || width.value > 50.0 || height.value < 5.0 || height.value > 50.0 then OutOfRange
    else if zoneCount == 0 then NoZones
    else Resized
  }

  /** Outcome of `saveZone`. */
  datatype SaveOutcome = NothingSelected | Refused(error: SaveError) | Saved

  /** The zone list the editor works on and the zone selected for editing (by position). */
  class ZoneEditor {
    var dropZones: seq<Zone>
    var selected: Option<nat>

    ghost predicate Valid()
      reads this
    {
      selected.Some? ==> selected.value < |dropZones|
    }

    constructor ()
      ensures Valid() && dropZones == [] && selected == None
    {
      dropZones := [];
      selected := None;
    }

    /** `addDropZone`: a blank zone in the middle of the image, named after the clock, selected. */
    method AddDropZone(now: int)
      requires Valid()
      modifies this
      ensures Valid()
      ensures dropZones == old(dropZones) + [Zone("zone-" + IntToString(now), [], 1, Some(1), 50.0, 50.0, 15.0, 10.0)]
      ensures selected == Some(|old(dropZones)|)
    {
      var zone := Zone("zone-" + IntToString(now), [], 1, Some(1), 50.0, 50.0, 15.0, 10.0);
      dropZones := dropZones + [zone];
      selected := Some(|dropZones| - 1);
    }

    /** `saveZone`: the checked terms, the minimum and maximum and the geometry from the form
        replace the selected zone's, unless a check fails; the selection ends on success. */
    method SaveZone(acceptedTerms: seq<string>, minRequired: int, maxAllowed: Option<int>,
                    x: real, y: real, width: real, height: real) returns (outcome: SaveOutcome)
      requires Valid()
      modifies this
      ensures Valid()
      ensures old(selected).None? ==> outcome == NothingSelected
      ensures old(selected).Some? && SaveCheck(acceptedTerms, minRequired, maxAllowed).Some? ==>
        outcome == Refused(SaveCheck(acceptedTerms, minRequired, maxAllowed).value)
      ensures old(selected).Some? && SaveCheck(acceptedTerms, minRequired, maxAllowed).None? ==> outcome == Saved
      ensures outcome != Saved ==> dropZones == old(dropZones) && selected == old(selected)
      ensures outcome == Saved ==>
        && old(selected).Some?
        && SaveCheck(acceptedTerms, minRequired, maxAllowed).None?
        && selected.None?
        && (var i := old(selected).value;
            dropZones == old(dropZones)[i := Zone(old(dropZones)[i].id, acceptedTerms, minRequired, maxAllowed,
                                                  x, y, width, height)])
    {
      if selected.None? {
        return NothingSelected;
      }
      var check := SaveCheck(acceptedTerms, minRequired, maxAllowed);
      if check.Some? {
        return Refused(check.value);
      }
      var i := selected.value;
      dropZones := dropZones[i := Zone(dropZones[i].id, acceptedTerms, minRequired, maxAllowed, x, y, width, height)];
      selected := None;
      outcome := Saved;
    }

    /** `deleteZone`: every zone with the selected zone's id goes; the rest keep their order. */
    method DeleteZone()
      requires Valid()
      modifies this
      ensures Valid() && selected.None?
      ensures old(selected).None? ==> dropZones == old(dropZones)
      ensures old(selected).Some? ==> dropZones == WithoutId(old(dropZones), old(dropZones)[old(selected).value].id)
    {
      if selected.None? {
        return;
      }
      dropZones := WithoutId(dropZones, dropZones[selected.value].id);
      selected := None;
    }

    /** `resizeAllZones`: on valid sizes and a non-empty list, every zone gets the new width
        and height and nothing else changes; otherwise nothing changes. */
    method ResizeAllZones(width: Option<real>, height: Option<real>) returns (outcome: ResizeOutcome)
      requires Valid()
      modifies this
      ensures Valid() && selected == old(selected)
      ensures outcome == ResizeCheck(width, height, |old(dropZones)|)
      ensures outcome != Resized ==> dropZones == old(dropZones)
      ensures outcome == Resized ==>
        |dropZones| == |old(dropZones)|
        && forall i :: 0 <= i < |dropZones| ==>
             dropZones[i] == old(dropZones)[i].(width := width.value, height := height.value)
    {
      outcome := ResizeCheck(width, height, |dropZones|);
      if outcome != Resized {
        return;
      }
      var i := 0;
      while i < |dropZones|
        invariant 0 <= i <= |dropZones| == |old(dropZones)|
        invariant selected == old(selected)
        invariant forall j :: 0 <= j < i ==> dropZones[j] == old(dropZones)[j].(width := width.value, height := height.value)
        invariant forall j :: i <= j < |dropZones| ==> dropZones[j] == old(dropZones)[j]
      {
        dropZones := dropZones[i := dropZones[i].(width := width.value, height := height.value)];
        i := i + 1;
      }
    }

    /** `clearAllTerms`: every zone becomes blank, geometry and limits stay, the selection ends. */
    method ClearAllTerms()
      modifies this
      ensures Valid() && selected.None?
      ensures |dropZones| == |old(dropZones)|
      ensures forall i :: 0 <= i < |dropZones| ==> dropZones[i] == old(dropZones)[i].(acceptedTerms := [])
    {
      var i := 0;
      while i < |dropZones|
        invariant 0 <= i <= |dropZones| == |old(dropZones)|
        invariant forall j :: 0 <= j < i ==> dropZones[j] == old(dropZones)[j].(acceptedTerms := [])
        invariant forall j :: i <= j < |dropZones| ==> dropZones[j] == old(dropZones)[j]
      {
        dropZones := dropZones[i := dropZones[i].(acceptedTerms := [])];
        i := i + 1;
      }
      selected := None;
    }

    /** `validateZonePositions`: clamps every zone; with the image laid out it also shifts zones
        back inside it. An image of zero size is waited for, which changes nothing now. */
    method ValidateZonePositions(image: ImageState)
      requires Valid()
      modifies this
      ensures Valid() && selected == old(selected)
      ensures |dropZones| == |old(dropZones)|
      ensures image.NotLoaded? ==> forall i :: 0 <= i < |dropZones| ==> dropZones[i] == ClampBasic(old(dropZones)[i])
      ensures image.Loaded? && (image.rectWidth == 0.0 || image.rectHeight == 0.0) ==> dropZones == old(dropZones)
      ensures image.Loaded? && image.rectWidth != 0.0 && image.rectHeight != 0.0 ==>
        forall i :: 0 <= i < |dropZones| ==>
          dropZones[i] == ClampShift(old(dropZones)[i], image.rectWidth, image.rectHeight)
    {
      if image.Loaded? && (image.rectWidth == 0.0 || image.rectHeight == 0.0) {
        return;
      }
      var i := 0;
      while i < |dropZones|
        invariant 0 <= i <= |dropZones| == |old(dropZones)|
        invariant selected == old(selected)
        invariant image.NotLoaded? ==> forall j :: 0 <= j < i ==> dropZones[j] == ClampBasic(old(dropZones)[j])
        invariant image.Loaded? ==>
          forall j :: 0 <= j < i ==> dropZones[j] == ClampShift(old(dropZones)[j], image.rectWidth, image.rectHeight)
        invariant forall j :: i <= j < |dropZones| ==> dropZones[j] == old(dropZones)[j]
      {
        var zone := if image.NotLoaded? then ClampBasic(dropZones[i])
                    else ClampShift(dropZones[i], image.rectWidth, image.rectHeight);
        dropZones := dropZones[i := zone];
        i := i + 1;
      }
    }

    /** `loadDropZones`: keeps zones already in memory, otherwise takes them from the setup,
        from storage or from the defaults; then migrates and validates their positions. */
    method LoadDropZones(setupZones: Option<seq<StoredZone>>, savedZones: Option<seq<StoredZone>>,
                         terms: seq<string>, image: ImageState)
      requires Valid()
      modifies this
      ensures Valid() && selected == old(selected)
      ensures ChooseZoneSource(old(dropZones), setupZones, savedZones) == InMemory ==>
        |dropZones| == |old(dropZones)|
        && forall i :: 0 <= i < |dropZones| ==> dropZones[i] == Revalidated(old(dropZones)[i], image)
      ensures ChooseZoneSource(old(dropZones), setupZones, savedZones) == FromSetup ==>
        |dropZones| == |setupZones.value|
        && forall i :: 0 <= i < |dropZones| ==> dropZones[i] == Revalidated(ConvertLegacy(setupZones.value[i]), image)
      ensures ChooseZoneSource(old(dropZones), setupZones, savedZones) == FromStorage ==>
        |dropZones| == |savedZones.value|
        && forall i :: 0 <= i < |dropZones| ==> dropZones[i] == Revalidated(ConvertLegacy(savedZones.value[i]), image)
      ensures ChooseZoneSource(old(dropZones), setupZones, savedZones) == Defaults ==>
        |dropZones| == |terms|
        && forall i :: 0 <= i < |dropZones| ==> dropZones[i] == Revalidated(DefaultZone(i), image)
      ensures image.Loaded? && image.rectWidth != 0.0 && image.rectHeight != 0.0 ==>
        forall i :: 0 <= i < |dropZones| ==> InsideImage(dropZones[i])
    {
      var source := ChooseZoneSource(dropZones, setupZones, savedZones);
      if source == FromSetup {
        dropZones := ConvertLegacyZones(setupZones.value);
      } else if source == FromStorage {
        dropZones := ConvertLegacyZones(savedZones.value);
      } else if source == Defaults {
        dropZones := DefaultZones(terms);
      }
      ghost var before := dropZones;
      ValidateZonePositions(image);
      if image.Loaded? && image.rectWidth != 0.0 && image.rectHeight != 0.0 {
        forall i | 0 <= i < |dropZones| ensures InsideImage(dropZones[i]) {
          ClampShiftInside(before[i], image.rectWidth, image.rectHeight);
        }
      }
    }
  }
}
