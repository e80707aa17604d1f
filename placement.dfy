/**
 * The answer handler's placement engine: dropping a tile on a zone, removing a
 * placed label, keeping the progress count, resetting and submitting.
 *
 * The handler and the parts of the main application it reads and writes are
 * one object: the zone list, the labels placed in each zone's element, the
 * sidebar tiles, the mode, the progress count, and the timer.
 */
module Placement {
  import opened Wrappers
  import opened Zones
  import opened Tiles
  import opened Scoring

  /** What a drop did. */
  datatype DropOutcome =
    | NoDraggedTile
    | NotOnZone
    | NoSuchZone
    | AlreadyPlaced
    | ZoneFull
    | Rejected
    | PlacedPermissive(isCorrect: bool)
    | PlacedStrict

  /** Index of the first zone with id `id` (`dropZones.find`). */
  function FindZone(zones: seq<Zone>, id: string): (r: Option<nat>)
    ensures r.Some? ==> (r.value < |zones| && zones[r.value].id == id
                         && forall j :: 0 <= j < r.value ==> zones[j].id != id)
    ensures r.None? ==> forall j :: 0 <= j < |zones| ==> zones[j].id != id
  {
    if |zones| == 0 then None
    else if zones[0].id == id then Some(0)
    else
      match FindZone(zones[1..], id)
      case None => None
      case Some(k) => Some(k + 1)
  }

  /** Whether a zone has reached a finite maximum. */
  predicate IsFull(z: Zone, count: nat) {
    z.maxAllowed.Some? && count >= z.maxAllowed.value
  }

  /** The decision `handleDrop` takes, in the order it tests: a dragged tile, a zone element
      under the pointer, a configured zone, a tile not yet consumed, room in the zone (before
      acceptance), then acceptance, which only strict mode enforces. */
  function DropCheck(zones: seq<Zone>, placements: Placements, tiles: map<string, Tile>, mode: Mode,
                     target: Option<string>, dragged: Option<string>): DropOutcome
    requires dragged.Some? ==> dragged.value in tiles
    requires target.Some? ==> target.value in placements
  {
    if dragged.None? then NoDraggedTile
    else if target.None? then NotOnZone
    else if FindZone(zones, target.value).None? then NoSuchZone
    else if tiles[dragged.value].placed then AlreadyPlaced
    else
      var z := zones[FindZone(zones, target.value).value];
      var accepted := dragged.value in z.acceptedTerms;
      if IsFull(z, |placements[target.value]|) then ZoneFull
      else if mode == Permissive then PlacedPermissive(accepted)
      else if !accepted then Rejected
      else PlacedStrict
  }

  /** A full zone refuses even a term it accepts, and strict mode rejects a term the zone
      does not accept; permissive mode places every term a zone has room for. */
  lemma DropCheckRefusals(zones: seq<Zone>, placements: Placements, tiles: map<string, Tile>, mode: Mode,
                          target: string, dragged: string)
    requires dragged in tiles && target in placements
    requires FindZone(zones, target).Some? && !tiles[dragged].placed
    ensures var z := zones[FindZone(zones, target).value];
      && (IsFull(z, |placements[target]|) ==>
            DropCheck(zones, placements, tiles, mode, Some(target), Some(dragged)) == ZoneFull)
      && (!IsFull(z, |placements[target]|) && mode == Strict ==>
            (DropCheck(zones, placements, tiles, mode, Some(target), Some(dragged)) == Rejected
             <==> dragged !in z.acceptedTerms))
      && (!IsFull(z, |placements[target]|) && mode == Permissive ==>
            DropCheck(zones, placements, tiles, mode, Some(target), Some(dragged))
              == PlacedPermissive(dragged in z.acceptedTerms))
  {
  }

  /** The tile after a successful placement: a multi-use tile loses one use (never below 0)
      and is consumed when none is left; a single-use tile is consumed. */
  function TileAfterPlacement(t: Tile): (r: Tile)
    ensures t.multi ==> r.multi && r.remaining >= 0
    ensures t.multi ==> r.remaining == (if t.remaining >= 1 then t.remaining - 1 else 0)
    ensures t.multi ==> (r.placed <==> t.placed || r.remaining == 0)
    ensures !t.multi ==> r == t.(placed := true)
  {
    if t.multi then
      var remaining := if t.remaining - 1 >= 0 then t.remaining - 1 else 0;
      Tile(true, remaining, if remaining == 0 then true else t.placed)
    else t.(placed := true)
  }

  /** The tile after one of its labels is removed: a multi-use tile regains a use, capped by the
      number of zones containing the term, and is available again when that is positive; a
      single-use tile is available again. */
  function TileAfterRemoval(t: Tile, cap: nat): (r: Tile)
    ensures t.multi ==> r.multi && r.remaining <= cap && (t.remaining + 1 <= cap ==> r.remaining == t.remaining + 1)
    ensures t.multi ==> (r.placed <==> t.placed && r.remaining <= 0)
    ensures !t.multi ==> r == t.(placed := false)
  {
    if t.multi then
      var remaining := if t.remaining + 1 <= cap then t.remaining + 1 else cap;
      Tile(true, remaining, if remaining > 0 then false else t.placed)
    else t.(placed := false)
  }

  /** Placing a label from an available tile and removing it again gives the tile back, as
      long as its count does not exceed the number of zones containing its term. */
  lemma PlaceRemoveRoundTrip(t: Tile, cap: nat)
    requires !t.placed
    requires t.multi ==> 1 <= t.remaining <= cap
    ensures TileAfterRemoval(TileAfterPlacement(t), cap) == t
  {
  }

  /** When a zone lists a term twice, the tile starts with one use more than there are zones,
      and a place-and-remove loses that use. */
  lemma PlaceRemoveLosesUse()
    ensures TileAfterRemoval(TileAfterPlacement(Tile(true, 2, false)), 1) == Tile(true, 1, false)
  {
  }

  /** `placedLabel.remove()`: the list without the label at `index`. */
  function RemoveAt(ps: seq<Placement>, index: nat): (r: seq<Placement>)
    requires index < |ps|
    ensures |r| == |ps| - 1
    ensures forall i :: 0 <= i < index ==> r[i] == ps[i]
    ensures forall i :: index <= i < |r| ==> r[i] == ps[i + 1]
  {
    ps[..index] + ps[index + 1..]
  }

  /** Removing the label just placed gives the zone's labels back. */
  lemma AppendRemoveRoundTrip(ps: seq<Placement>, p: Placement)
    ensures RemoveAt(ps + [p], |ps|) == ps
  {
  }

  /** A zone's correct count adds up over a split of its labels. */
  lemma {:induction false} CorrectInConcat(mode: Mode, z: Zone, a: seq<Placement>, b: seq<Placement>)
    ensures CorrectIn(mode, z, a + b) == CorrectIn(mode, z, a) + CorrectIn(mode, z, b)
  {
    if |b| == 0 {
      assert a + b == a;
    } else {
      var init := b[..|b| - 1];
      CorrectInConcat(mode, z, a, init);
      assert (a + b)[..|a + b| - 1] == a + init;
    }
  }

  /** Taking a label out of a zone and dropping it on the same zone again leaves the zone's
      correct count as it was, although the label now comes last. */
  lemma RemoveReaddSameCount(mode: Mode, z: Zone, ps: seq<Placement>, k: nat)
    requires k < |ps|
    ensures CorrectIn(mode, z, RemoveAt(ps, k) + [ps[k]]) == CorrectIn(mode, z, ps)
  {
    assert ps == ps[..k] + [ps[k]] + ps[k + 1..];
    assert RemoveAt(ps, k) + [ps[k]] == ps[..k] + (ps[k + 1..] + [ps[k]]);
    CorrectInConcat(mode, z, ps[..k], ps[k + 1..] + [ps[k]]);
    CorrectInConcat(mode, z, ps[k + 1..], [ps[k]]);
    CorrectInConcat(mode, z, ps[..k] + [ps[k]], ps[k + 1..]);
    CorrectInConcat(mode, z, ps[..k], [ps[k]]);
  }

  /** Replacing one zone's labels by labels every zone scores the same leaves the correct count. */
  lemma {:induction false} PlacedCorrectReplace(mode: Mode, zones: seq<Zone>, placements: Placements,
                                                id: string, ps: seq<Placement>)
    requires id in placements
    requires forall z :: CorrectIn(mode, z, ps) == CorrectIn(mode, z, placements[id])
    ensures PlacedCorrect(mode, zones, placements[id := ps]) == PlacedCorrect(mode, zones, placements)
  {
    if |zones| > 0 {
      PlacedCorrectReplace(mode, zones[..|zones| - 1], placements, id, ps);
      var z := zones[|zones| - 1];
      assert CorrectFor(mode, z, placements[id := ps]) == CorrectFor(mode, z, placements);
    }
  }

  /** Removing a placed label and dropping the same term on the same zone again restores the
      progress count. */
  lemma RemoveReaddRoundTrip(mode: Mode, zones: seq<Zone>, placements: Placements, id: string, k: nat)
    requires id in placements && k < |placements[id]|
    ensures var ps := placements[id];
      PlacedCorrect(mode, zones, placements[id := RemoveAt(ps, k) + [ps[k]]]) == PlacedCorrect(mode, zones, placements)
  {
    var ps := placements[id];
    forall z ensures CorrectIn(mode, z, RemoveAt(ps, k) + [ps[k]]) == CorrectIn(mode, z, ps) {
      RemoveReaddSameCount(mode, z, ps, k);
    }
    PlacedCorrectReplace(mode, zones, placements, id, RemoveAt(ps, k) + [ps[k]]);
  }

  /** No zone element has any label. */
  function Emptied(placements: Placements): (r: Placements)
    ensures r.Keys == placements.Keys
    ensures forall id :: id in r ==> r[id] == []
  {
    map id | id in placements :: []
  }

  /** `resetActivity` over all tiles. */
  function ResetTiles(zones: seq<Zone>, tiles: map<string, Tile>): (r: map<string, Tile>)
    ensures r.Keys == tiles.Keys
    ensures forall t :: t in r ==> r[t] == ResetTile(zones, t, tiles[t])
  {
    map t | t in tiles :: ResetTile(zones, t, tiles[t])
  }

  /** With no label placed, no zone with a non-negative maximum scores. */
  lemma {:induction false} EmptiedScoresZero(mode: Mode, zones: seq<Zone>, placements: Placements)
    requires forall z :: z in zones && z.maxAllowed.Some? ==> z.maxAllowed.value >= 0
    ensures PlacedCorrect(mode, zones, Emptied(placements)) == 0
  {
    if |zones| > 0 {
      var init := zones[..|zones| - 1];
      assert forall z :: z in init ==> z in zones;
      EmptiedScoresZero(mode, init, placements);
      var z := zones[|zones| - 1];
      if !z.IsBlank() && z.id in Emptied(placements) {
        assert CorrectIn(mode, z, Emptied(placements)[z.id]) == 0;
      }
    }
  }

  /** A reset makes every tile available again, and every multi-use tile can be placed once
      per non-blank zone accepting its term. */
  lemma ResetTilesSpec(zones: seq<Zone>, tiles: map<string, Tile>)
    ensures forall t :: t in ResetTiles(zones, tiles) ==>
      !ResetTiles(zones, tiles)[t].placed
      && (tiles[t].multi ==> ResetTiles(zones, tiles)[t].remaining == ZonesAccepting(zones, t))
      && ResetTiles(zones, tiles)[t].multi == tiles[t].multi
  {
  }

  /** The submission report: correct count, expected total, rounded percentage and duration. */
  datatype ScoreReport = ScoreReport(score: int, totalLabels: int, percentage: int, timer: int,
                                     durationFormatted: string)

  /** The answer handler together with the application state it reads and writes. */
  class AnswerHandler {
    var zones: seq<Zone>
    var placements: Placements
    var tiles: map<string, Tile>
    var mode: Mode
    var correctPlacements: int
    var active: bool
    var startTime: Option<int>
    var endTime: Option<int>

    /** Every placed label comes from a tile, and no tile has a negative count. */
    ghost predicate Valid()
      reads this
    {
      && (forall id, i :: id in placements && 0 <= i < |placements[id]| ==> placements[id][i].term in tiles)
      && (forall t :: t in tiles ==> tiles[t].remaining >= 0)
    }

    /** The handler of a started activity: an element per zone, no label placed, the default
        mode, no progress. */
    constructor (zones: seq<Zone>, tiles: map<string, Tile>, startTime: int)
      requires forall t :: t in tiles ==> tiles[t].remaining >= 0
      ensures Valid()
      ensures this.zones == zones && this.tiles == tiles
      ensures placements == map z | z in zones :: z.id := []
      ensures mode == DefaultMode && correctPlacements == 0
      ensures active && this.startTime == Some(startTime) && endTime == None
    {
      this.zones := zones;
      this.tiles := tiles;
      placements := map z | z in zones :: z.id := [];
      mode := DefaultMode;
      correctPlacements := 0;
      active := true;
      this.startTime := Some(startTime);
      endTime := None;
    }

    /** `updateProgress`: the progress count becomes the current correct count. */
    method UpdateProgress()
      modifies this`correctPlacements
      ensures correctPlacements == PlacedCorrect(mode, zones, placements)
    {
      correctPlacements := PlacedCorrect(mode, zones, placements);
    }

    /** `handleDrop` with the two placement handlers. A refused drop changes nothing. A placed
        label goes to the end of the zone's labels and uses up its tile; permissive placements
        record whether the zone accepts the term; a strict placement updates the progress
        count and ends the activity when every zone is complete. */
    method HandleDrop(target: Option<string>, dragged: Option<string>, now: int) returns (outcome: DropOutcome)
      requires Valid()
      requires dragged.Some? ==> dragged.value in tiles
      requires target.Some? ==> target.value in placements
      modifies this
      ensures Valid()
      ensures outcome == DropCheck(old(zones), old(placements), old(tiles), old(mode), target, dragged)
      ensures zones == old(zones) && mode == old(mode) && startTime == old(startTime)
      ensures !outcome.PlacedPermissive? && !outcome.PlacedStrict? ==>
        placements == old(placements) && tiles == old(tiles)
        && correctPlacements == old(correctPlacements) && active == old(active) && endTime == old(endTime)
      ensures outcome.PlacedPermissive? ==>
        placements == old(placements)[target.value := old(placements)[target.value]
                                        + [Placement(dragged.value, Some(outcome.isCorrect))]]
        && tiles == old(tiles)[dragged.value := TileAfterPlacement(old(tiles)[dragged.value])]
        && correctPlacements == old(correctPlacements) && active == old(active) && endTime == old(endTime)
      ensures outcome.PlacedStrict? ==>
        placements == old(placements)[target.value := old(placements)[target.value]
                                        + [Placement(dragged.value, None)]]
        && tiles == old(tiles)[dragged.value := TileAfterPlacement(old(tiles)[dragged.value])]
        && correctPlacements == PlacedCorrect(mode, zones, placements)
        && (AllComplete(zones, placements) ==> !active && endTime == Some(now))
        && (!AllComplete(zones, placements) ==> active == old(active) && endTime == old(endTime))
    {
      outcome := DropCheck(zones, placements, tiles, mode, target, dragged);
      if !outcome.PlacedPermissive? && !outcome.PlacedStrict? {
        return;
      }
      var id := target.value;
      var term := dragged.value;
      var placement := if outcome.PlacedPermissive? then Placement(term, Some(outcome.isCorrect))
                       else Placement(term, None);
      placements := placements[id := placements[id] + [placement]];
      tiles := tiles[term := TileAfterPlacement(tiles[term])];
      if outcome.PlacedStrict? {
        correctPlacements := correctPlacements + 1;
        UpdateProgress();
        if AllComplete(zones, placements) {
          endTime := Some(now);
          active := false;
        }
      }
    }

    /** `removePlacedLabel`: the label goes, its tile regains a use, and the progress count
        drops by one, never below 0, whether or not the label was correct. */
    method RemovePlacedLabel(id: string, index: nat)
      requires Valid()
      requires id in placements && index < |placements[id]|
      modifies this
      ensures Valid()
      ensures var term := old(placements)[id][index].term;
        && placements == old(placements)[id := RemoveAt(old(placements)[id], index)]
        && tiles == old(tiles)[term := TileAfterRemoval(old(tiles)[term], ZonesAccepting(zones, term))]
      ensures correctPlacements == if old(correctPlacements) >= 1 then old(correctPlacements) - 1 else 0
      ensures zones == old(zones) && mode == old(mode) && active == old(active)
      ensures startTime == old(startTime) && endTime == old(endTime)
    {
      var term := placements[id][index].term;
      placements := placements[id := RemoveAt(placements[id], index)];
      tiles := tiles[term := TileAfterRemoval(tiles[term], ZonesAccepting(zones, term))];
      correctPlacements := if correctPlacements - 1 >= 0 then correctPlacements - 1 else 0;
      forall i, j | i in placements && 0 <= j < |placements[i]| ensures placements[i][j].term in tiles {
        if i == id {
          assert placements[i][j] == if j < index then old(placements)[id][j] else old(placements)[id][j + 1];
        }
      }
    }

    /** `resetActivity`: the timer stops if running, every label leaves its zone, every tile is
        available again with its count restored, and the progress count is recomputed. */
    method ResetActivity(now: int)
      requires Valid()
      modifies this
      ensures Valid()
      ensures !active
      ensures old(active) ==> endTime == Some(now)
      ensures !old(active) ==> endTime == old(endTime)
      ensures placements == Emptied(old(placements))
      ensures tiles == ResetTiles(zones, old(tiles))
      ensures correctPlacements == PlacedCorrect(mode, zones, placements)
      ensures zones == old(zones) && mode == old(mode) && startTime == old(startTime)
    {
      if active {
        endTime := Some(now);
        active := false;
      }
      correctPlacements := 0;
      UpdateProgress();
      tiles := ResetTiles(zones, tiles);
      placements := Emptied(placements);
      UpdateProgress();
    }

    /** `submitScore`: stops the timer and reports the correct count, the expected total, the
        rounded percentage and the duration; permissive mode also refreshes the progress count. */
    method SubmitScore(now: int) returns (report: ScoreReport)
      requires Valid()
      modifies this
      ensures Valid()
      ensures !active && endTime == Some(now)
      ensures var score := PlacedCorrect(mode, zones, placements);
              var total := TotalExpected(zones);
              var d := Duration(startTime, endTime, now);
        report == ScoreReport(score, total, Percentage(score, total), d, FormatDuration(d))
      ensures mode == Permissive ==> correctPlacements == PlacedCorrect(mode, zones, placements)
      ensures mode == Strict ==> correctPlacements == old(correctPlacements)
      ensures zones == old(zones) && placements == old(placements) && tiles == old(tiles)
      ensures mode == old(mode) && startTime == old(startTime)
    {
      endTime := Some(now);
      active := false;
      var total := TotalExpected(zones);
      var score := PlacedCorrect(mode, zones, placements);
      var percentage := Percentage(score, total);
      var timer := Duration(startTime, endTime, now);
      report := ScoreReport(score, total, percentage, timer, FormatDuration(timer));
      if mode == Permissive {
        UpdateProgress();
      }
    }

    /** `setValidationMode`: only "strict" and "permissive" are accepted. */
    method SetValidationMode(name: string) returns (ok: bool)
      modifies this`mode
      ensures ok <==> name == "strict" || name == "permissive"
      ensures name == "strict" ==> mode == Strict
      ensures name == "permissive" ==> mode == Permissive
      ensures !ok ==> mode == old(mode)
    {
      if name == "strict" {
        mode := Strict;
        ok := true;
      } else if name == "permissive" {
        mode := Permissive;
        ok := true;
      } else {
        ok := false;
      }
    }
  }
}
