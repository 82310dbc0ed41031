/**
 * The round's state and its transitions: approving and inspecting tiles,
 * the meters, the one-shot incident, and resetting the round.
 *
 * The approved list holds the approved tiles themselves; since an approved
 * tile is never changed again until the next reset, it is kept here as the
 * tiles' positions in the grid, in approval order.
 */
module Session {
  import opened Wrappers
  import opened JsStrings
  import opened Prng
  import opened Field
  import opened Pressure
  import opened Attribution

  datatype Incident = Incident(kind: IncidentType, contributors: seq<Tile>)

  /** The incident `checkForIncident` raises for the given meters, if any: volume is checked before hotspot. */
  function IncidentDue(volume: int, hotspotTenths: int): (due: Option<IncidentType>)
    ensures due == Some(VolumeIncident) <==> volume >= VOLUME_THRESHOLD
    ensures due == Some(HotspotIncident) <==> volume < VOLUME_THRESHOLD && hotspotTenths >= HOTSPOT_THRESHOLD_TENTHS
    ensures due == None <==> volume < VOLUME_THRESHOLD && hotspotTenths < HOTSPOT_THRESHOLD_TENTHS
  {
    if volume >= VOLUME_THRESHOLD then Some(VolumeIncident)
    else if hotspotTenths >= HOTSPOT_THRESHOLD_TENTHS then Some(HotspotIncident)
    else None
  }

  /** Every position in `idx` is a position of a list of length `n`. */
  predicate IndicesIn(idx: seq<nat>, n: nat) {
    forall k :: 0 <= k < |idx| ==> idx[k] < n
  }

  /** No position occurs twice in `idx`. */
  predicate Distinct(idx: seq<nat>) {
    forall j, k :: 0 <= j < k < |idx| ==> idx[j] != idx[k]
  }

  /** The tiles at positions `idx`, in that order. */
  function TilesAt(tiles: seq<Tile>, idx: seq<nat>): (ts: seq<Tile>)
    requires IndicesIn(idx, |tiles|)
    ensures |ts| == |idx|
  {
    if idx == [] then [] else TilesAt(tiles, idx[..|idx| - 1]) + [tiles[idx[|idx| - 1]]]
  }

  lemma TilesAtAppend(tiles: seq<Tile>, idx: seq<nat>, i: nat)
    requires IndicesIn(idx, |tiles|) && i < |tiles|
    ensures IndicesIn(idx + [i], |tiles|)
    ensures TilesAt(tiles, idx + [i]) == TilesAt(tiles, idx) + [tiles[i]]
  {
    assert (idx + [i])[..|idx|] == idx;
  }

  /** Changing a tile at a position outside `idx` leaves the tiles at `idx` alone. */
  lemma {:induction false} TilesAtUpdate(tiles: seq<Tile>, idx: seq<nat>, i: nat, t: Tile)
    requires IndicesIn(idx, |tiles|) && i < |tiles| && i !in idx
    ensures TilesAt(tiles[i := t], idx) == TilesAt(tiles, idx)
  {
    if idx != [] {
      var n := |idx| - 1;
      assert idx[n] in idx;
      assert i !in idx[..n];
      TilesAtUpdate(tiles, idx[..n], i, t);
    }
  }

  /** The tiles at `idx` are taken from `tiles`. */
  lemma {:induction false} TilesAtFrom(tiles: seq<Tile>, idx: seq<nat>)
    requires IndicesIn(idx, |tiles|)
    ensures forall k :: 0 <= k < |idx| ==> TilesAt(tiles, idx)[k] == tiles[idx[k]]
  {
    if idx != [] {
      TilesAtFrom(tiles, idx[..|idx| - 1]);
    }
  }

  /** A tile is approved exactly when its position is in the approved list. */
  predicate StateMatches(tiles: seq<Tile>, approved: seq<nat>) {
    forall i :: 0 <= i < |tiles| ==> (tiles[i].state == Approved <==> i in approved)
  }

  /**
   * The field and the approved list agree: the tiles are the generated
   * `field` up to their lifecycle fields, the list holds distinct positions
   * of it, and a tile is approved exactly when it is listed.
   */
  ghost predicate Bookkeeping(field: seq<Tile>, tiles: seq<Tile>, approved: seq<nat>) {
    && |field| == CELL_COUNT && InRange(field)
    && SameClassification(tiles, field)
    && IndicesIn(approved, |tiles|) && Distinct(approved)
    && StateMatches(tiles, approved)
  }

  /** A freshly generated field has nothing approved. */
  lemma FreshBookkeeping(field: seq<Tile>)
    requires |field| == CELL_COUNT && WellFormed(field)
    ensures Bookkeeping(field, field, [])
  {
  }

  /**
   * Approving a tile that is not yet approved keeps the bookkeeping, and
   * appends the approved tile to the approved tiles.
   */
  lemma ApproveBookkeeping(field: seq<Tile>, tiles: seq<Tile>, approved: seq<nat>, i: nat)
    requires Bookkeeping(field, tiles, approved) && i < |tiles| && tiles[i].state != Approved
    ensures var tiles' := tiles[i := tiles[i].(state := Approved)];
      && Bookkeeping(field, tiles', approved + [i])
      && TilesAt(tiles', approved + [i]) == TilesAt(tiles, approved) + [tiles'[i]]
  {
    var tiles' := tiles[i := tiles[i].(state := Approved)];
    assert i !in approved;
    TilesAtUpdate(tiles, approved, i, tiles'[i]);
    TilesAtAppend(tiles', approved, i);
    assert Classification(tiles'[i]) == Classification(tiles[i]);
  }

  /** Inspecting a tile that is not approved keeps the bookkeeping and the approved tiles. */
  lemma InspectBookkeeping(field: seq<Tile>, tiles: seq<Tile>, approved: seq<nat>, i: nat, signal: Signal)
    requires Bookkeeping(field, tiles, approved) && i < |tiles| && tiles[i].state != Approved
    ensures var tiles' := tiles[i := tiles[i].(state := Inspected, revealedSignal := Some(signal))];
      && Bookkeeping(field, tiles', approved)
      && TilesAt(tiles', approved) == TilesAt(tiles, approved)
  {
    var tiles' := tiles[i := tiles[i].(state := Inspected, revealedSignal := Some(signal))];
    assert i !in approved;
    TilesAtUpdate(tiles, approved, i, tiles'[i]);
    assert Classification(tiles'[i]) == Classification(tiles[i]);
  }

  /** A tile of the field has its generated weights, whatever its lifecycle. */
  lemma TileInRange(field: seq<Tile>, tiles: seq<Tile>, i: nat)
    requires InRange(field) && SameClassification(tiles, field) && i < |tiles|
    ensures InRange([tiles[i]]) && InRange([tiles[i].(state := Approved)])
  {
    assert Classification(tiles[i]) == Classification(field[i]);
  }

  /** Appending an approval adds its weights and related count to the meters. */
  lemma SumsAppend(ts: seq<Tile>, t: Tile)
    ensures VolumeSum(ts + [t]) == VolumeSum(ts) + t.volumeWeight
    ensures HotspotSum(ts + [t]) == HotspotSum(ts) + 10 * t.hotspotWeight + 3 * CountRelated(ts + [t], t)
  {
    assert (ts + [t])[..|ts|] == ts;
  }

  /** The round's `appState`, without the input mode and the page. */
  class Game {
    var seed: JsString
    var rng: SeededRng
    var tiles: seq<Tile>
    /** `approvedTiles`, as the positions of the approved tiles in `tiles`. */
    var approved: seq<nat>
    var volume: int
    /** The hotspot meter, in tenths. */
    var hotspot: int
    var incident: Option<Incident>
    var lastSignal: Option<Signal>
    var approvalCount: int
    /** The field as `generateTiles` returned it for `seed`. */
    ghost var field: seq<Tile>
    /** The contributor count `pickContributors` drew for the incident. */
    ghost var pickedCount: int

    /** The tiles of `approvedTiles`, in approval order. */
    function ApprovedTiles(): (ts: seq<Tile>)
      reads this`tiles, this`approved
      requires IndicesIn(approved, |tiles|)
      ensures |ts| == |approved|
    {
      TilesAt(tiles, approved)
    }

    /**
     * The generator and the field belong to the seed: the generator was
     * started from the seed's hash, and the field is the one generated for
     * the seed. Set by a reset and kept by every other operation.
     */
    ghost predicate Seeded()
      reads this`seed, this`rng, this`field, rng
    {
      rng.start == SeedHash(seed) && field == GeneratedField(seed).tiles
    }

    /**
     * The field agrees with the approved list, and the count and meters are
     * those of the approved tiles.
     */
    ghost predicate Counted()
      reads this`field, this`tiles, this`approved, this`approvalCount, this`volume, this`hotspot
    {
      && Bookkeeping(field, tiles, approved)
      && approvalCount == |approved|
      && volume == VolumeSum(ApprovedTiles())
      && hotspot == HotspotSum(ApprovedTiles())
    }

    /**
     * The incident is there exactly when the meters call for it, with the
     * top-ranked approved tiles as contributors, as many as the count drawn
     * for it allows; the generator has made that one draw beyond the field's
     * exactly when the incident is there.
     */
    ghost predicate Settled()
      reads this`tiles, this`approved, this`volume, this`hotspot, this`incident, this`pickedCount, this`rng, rng
    {
      && rng.Valid() && IndicesIn(approved, |tiles|)
      && (incident.None? ==> rng.drawn == FIELD_DRAWS && IncidentDue(volume, hotspot) == None)
      && (incident.Some? ==>
            && rng.drawn == FIELD_DRAWS + 1
            && IncidentDue(volume, hotspot) == Some(incident.value.kind)
            && 8 <= pickedCount <= 12
            && incident.value.contributors == Contributors(ApprovedTiles(), incident.value.kind, pickedCount))
    }

    /** What holds from the first generated field on. */
    ghost predicate Valid()
      reads this, rng
    {
      Counted() && Settled()
    }

    /** `init()` on a fresh page, the seed being the clock's digits: the field for `seed`, nothing approved, no incident. */
    constructor (seed: JsString)
      ensures Valid() && Seeded() && fresh(rng)
      ensures this.seed == seed && tiles == field
      ensures approved == [] && approvalCount == 0 && volume == 0 && hotspot == 0
      ensures incident == None && lastSignal == None
    {
      var generated, generator := GenerateTiles(seed);
      FreshBookkeeping(generated);
      this.seed := seed;
      rng := generator;
      tiles := generated;
      approved := [];
      volume := 0;
      hotspot := 0;
      incident := None;
      lastSignal := None;
      approvalCount := 0;
      field := generated;
    }

    /**
     * `updateMeters(tile)` for tile `i`, once it is pushed onto the approved
     * tiles: volume rises by its volume weight, hotspot by its hotspot weight
     * and 0.3 for each approved tile related to it, itself included.
     */
    method UpdateMeters(i: nat)
      requires IndicesIn(approved, |tiles|) && i < |tiles|
      modifies this`volume, this`hotspot
      ensures volume == old(volume) + tiles[i].volumeWeight
      ensures hotspot == old(hotspot) + 10 * tiles[i].hotspotWeight + 3 * CountRelated(ApprovedTiles(), tiles[i])
    {
      var tile := tiles[i];
      volume := volume + tile.volumeWeight;
      var related := CountRelated(ApprovedTiles(), tile);
      hotspot := hotspot + 10 * tile.hotspotWeight;
      hotspot := hotspot + 3 * related;
    }

    /**
     * The part of `approveTile(tile)` before the incident check, for tile
     * `i`, not yet approved: mark it approved, push it, count it, and update
     * the meters.
     */
    method RecordApproval(i: nat)
      requires Counted() && i < |tiles| && tiles[i].state != Approved
      modifies this`tiles, this`approved, this`approvalCount, this`volume, this`hotspot
      ensures Counted()
      ensures tiles == old(tiles)[i := old(tiles[i]).(state := Approved)]
      ensures approved == old(approved) + [i]
      ensures ApprovedTiles() == old(ApprovedTiles()) + [tiles[i]]
      ensures approvalCount == old(approvalCount) + 1
      ensures volume == old(volume) + tiles[i].volumeWeight
      ensures hotspot == old(hotspot) + 10 * tiles[i].hotspotWeight + 3 * CountRelated(ApprovedTiles(), tiles[i])
      ensures volume >= old(volume) + 1 && hotspot >= old(hotspot) + 3
    {
      ghost var before := ApprovedTiles();
      ApproveBookkeeping(field, tiles, approved, i);
      TileInRange(field, tiles, i);
      tiles := tiles[i := tiles[i].(state := Approved)];
      approved := approved + [i];
      approvalCount := approvalCount + 1;
      SumsAppend(before, tiles[i]);
      MetersGrow(before, tiles[i]);
      UpdateMeters(i);
    }

    /**
     * `pickContributors(kind)`: the ranked approved tiles cut to the length
     * the round's generator draws next, from 8 to 12.
     */
    method PickContributors(kind: IncidentType) returns (contributors: seq<Tile>)
      requires rng.Valid() && IndicesIn(approved, |tiles|)
      modifies rng
      ensures rng.Valid() && rng.start == old(rng.start) && rng.drawn == old(rng.drawn) + 1
      ensures contributors
              == Contributors(ApprovedTiles(), kind, RandomIntOf(DrawValue(rng.start, old(rng.drawn)), 8, 12))
    {
      var approvedTiles := ApprovedTiles();
      var count := rng.RandomInt(8, 12);
      contributors := Contributors(approvedTiles, kind, count);
    }

    /** `triggerIncident(kind)`: raise the incident with its contributors. */
    method TriggerIncident(kind: IncidentType)
      requires rng.Valid() && IndicesIn(approved, |tiles|)
      modifies this`incident, this`pickedCount, rng
      ensures rng.Valid() && rng.start == old(rng.start) && rng.drawn == old(rng.drawn) + 1
      ensures pickedCount == RandomIntOf(DrawValue(rng.start, old(rng.drawn)), 8, 12)
      ensures incident
              == Some(Incident(kind, Contributors(ApprovedTiles(), kind, RandomIntOf(DrawValue(rng.start, old(rng.drawn)), 8, 12))))
    {
      var contributors := PickContributors(kind);
      pickedCount := RandomIntOf(DrawValue(rng.start, old(rng.drawn)), 8, 12);
      incident := Some(Incident(kind, contributors));
    }

    /**
     * `checkForIncident()`: nothing once an incident exists; otherwise the
     * incident the meters call for, volume before hotspot, if any. Run with
     * no incident and the generator just past the field's draws, or on a
     * settled round, it leaves the round settled.
     */
    method CheckForIncident()
      requires rng.Valid() && IndicesIn(approved, |tiles|)
      requires incident.None? ==> rng.drawn == FIELD_DRAWS
      requires incident.Some? ==> Settled()
      requires Counted()
      modifies this`incident, this`pickedCount, rng
      ensures Counted() && Settled() && rng.start == old(rng.start)
      ensures tiles == old(tiles) && approved == old(approved) && approvalCount == old(approvalCount)
      ensures volume == old(volume) && hotspot == old(hotspot)
      ensures old(incident).Some? || IncidentDue(volume, hotspot) == None ==>
        incident == old(incident) && pickedCount == old(pickedCount) && rng.drawn == old(rng.drawn)
      ensures old(incident).None? && IncidentDue(volume, hotspot).Some? ==>
        var kind := IncidentDue(volume, hotspot).value;
        && rng.drawn == old(rng.drawn) + 1
        && incident == Some(Incident(kind, Contributors(ApprovedTiles(), kind, RandomIntOf(DrawValue(rng.start, old(rng.drawn)), 8, 12))))
    {
      if incident.Some? {
        return;
      }
      if volume >= VOLUME_THRESHOLD {
        TriggerIncident(VolumeIncident);
      } else if hotspot >= HOTSPOT_THRESHOLD_TENTHS {
        TriggerIncident(HotspotIncident);
      }
    }

    /**
     * `approveTile(tile)` for tile `i`: refused when the tile is already
     * approved or an incident exists; otherwise the tile is approved and
     * appended to the approved tiles once, the count rises by one, the
     * meters by the tile's share, and the incident check runs.
     */
    method ApproveTile(i: nat)
      requires Valid() && i < |tiles|
      modifies this`tiles, this`approved, this`approvalCount, this`volume, this`hotspot, this`incident, this`pickedCount, rng
      ensures Valid() && rng.start == old(rng.start)
      ensures old(tiles[i].state) == Approved || old(incident).Some? ==>
        && tiles == old(tiles) && approved == old(approved) && approvalCount == old(approvalCount)
        && volume == old(volume) && hotspot == old(hotspot) && incident == old(incident)
        && rng.drawn == old(rng.drawn)
      ensures old(tiles[i].state) != Approved && old(incident).None? ==>
        && tiles == old(tiles)[i := old(tiles[i]).(state := Approved)]
        && approved == old(approved) + [i]
        && ApprovedTiles() == old(ApprovedTiles()) + [tiles[i]]
        && approvalCount == old(approvalCount) + 1
        && volume == old(volume) + tiles[i].volumeWeight
        && hotspot == old(hotspot) + 10 * tiles[i].hotspotWeight + 3 * CountRelated(ApprovedTiles(), tiles[i])
        && volume >= old(volume) + 1 && hotspot >= old(hotspot) + 3
        && (incident.Some? <==> IncidentDue(volume, hotspot).Some?)
        && (incident.Some? ==>
              var kind := IncidentDue(volume, hotspot).value;
              && rng.drawn == FIELD_DRAWS + 1
              && incident == Some(Incident(kind, Contributors(ApprovedTiles(), kind, RandomIntOf(DrawValue(rng.start, FIELD_DRAWS), 8, 12)))))
    {
      if tiles[i].state == Approved || incident.Some? {
        return;
      }
      RecordApproval(i);
      CheckForIncident();
    }

    /**
     * `inspectTile(tile)` for tile `i`: refused when the tile is already
     * approved or an incident exists; otherwise the tile is marked inspected
     * and shows the signal for its local severity, which also becomes the
     * last signal. Meters, approvals and the incident are left alone.
     */
    method InspectTile(i: nat)
      requires Valid() && i < |tiles|
      modifies this`tiles, this`lastSignal
      ensures Valid()
      ensures approved == old(approved) && approvalCount == old(approvalCount)
      ensures volume == old(volume) && hotspot == old(hotspot) && incident == old(incident)
      ensures ApprovedTiles() == old(ApprovedTiles())
      ensures old(tiles[i].state) == Approved || incident.Some? ==>
        tiles == old(tiles) && lastSignal == old(lastSignal)
      ensures old(tiles[i].state) != Approved && incident.None? ==>
        var severity := LocalSeverity(old(tiles[i]), ApprovedTiles());
        var signal := Signal("Retries", severity, LogSnippet(severity));
        && tiles == old(tiles)[i := old(tiles[i]).(state := Inspected, revealedSignal := Some(signal))]
        && lastSignal == Some(signal)
    {
      if tiles[i].state == Approved || incident.Some? {
        return;
      }
      var severity := LocalSeverity(tiles[i], ApprovedTiles());
      var signal := Signal("Retries", severity, LogSnippet(severity));
      InspectBookkeeping(field, tiles, approved, i, signal);
      tiles := tiles[i := tiles[i].(state := Inspected, revealedSignal := Some(signal))];
      lastSignal := Some(signal);
    }

    /**
     * `resetGame(newSeed)`, the clock's digits standing in for `Date.now()`:
     * a missing or empty seed takes the clock; the round restarts on that
     * seed's field with nothing approved, empty meters and no incident.
     */
    method ResetGame(newSeed: Option<JsString>, clock: JsString)
      modifies this
      ensures Valid() && Seeded() && fresh(rng)
      ensures seed == (if newSeed.Some? && newSeed.value != [] then newSeed.value else clock)
      ensures tiles == field
      ensures approved == [] && approvalCount == 0 && volume == 0 && hotspot == 0
      ensures incident == None && lastSignal == None
    {
      var nextSeed := if newSeed.Some? && newSeed.value != [] then newSeed.value else clock;
      var generated, generator := GenerateTiles(nextSeed);
      Restart(nextSeed, generated, generator);
    }

    /** The assignments of `resetGame`, once the seed's field is generated. */
    method Restart(nextSeed: JsString, generated: seq<Tile>, generator: SeededRng)
      requires |generated| == CELL_COUNT && WellFormed(generated)
      requires generator.Valid() && generator.drawn == FIELD_DRAWS
      modifies this
      ensures Valid() && rng == generator && seed == nextSeed
      ensures tiles == generated && field == generated
      ensures approved == [] && approvalCount == 0 && volume == 0 && hotspot == 0
      ensures incident == None && lastSignal == None
    {
      FreshBookkeeping(generated);
      seed := nextSeed;
      volume, hotspot := 0, 0;
      approved := [];
      approvalCount := 0;
      incident := None;
      lastSignal := None;
      tiles := generated;
      rng := generator;
      field := generated;
    }

    /** `getGlobalStatus()`: "Stable" on empty meters, "Critical" once either meter reaches three quarters of its threshold. */
    function Status(): (status: StatusLabel)
      reads this`volume, this`hotspot
      ensures volume == 0 && hotspot == 0 ==> status == Stable
      ensures status == Critical <==> 4 * volume >= 3 * VOLUME_THRESHOLD || 4 * hotspot >= 3 * HOTSPOT_THRESHOLD_TENTHS
    {
      CriticalIff(volume, hotspot);
      GlobalStatus(volume, hotspot)
    }

    /** The approved tiles keep the weights they were generated with. */
    lemma ApprovedInRange()
      requires Counted()
      ensures InRange(ApprovedTiles())
    {
      TilesAtFrom(tiles, approved);
      forall k | 0 <= k < |approved|
        ensures 1 <= ApprovedTiles()[k].volumeWeight <= 4 && 0 <= ApprovedTiles()[k].hotspotWeight <= 3
      {
        assert Classification(tiles[approved[k]]) == Classification(field[approved[k]]);
      }
    }

    /**
     * The meters are bounded by the approval count: each approval adds 1 to
     * 4 to the volume meter, and at least 0.3 and at most 3 plus 0.3 per
     * approval so far to the hotspot meter. In particular neither is ever
     * negative.
     */
    lemma MetersBounds()
      requires Counted()
      ensures 0 <= approvalCount <= volume <= 4 * approvalCount
      ensures 3 * approvalCount <= hotspot
      ensures 2 * hotspot <= 60 * approvalCount + 3 * approvalCount * (approvalCount + 1)
    {
      ApprovedInRange();
      VolumeBounds(ApprovedTiles());
      HotspotBounds(ApprovedTiles());
      HotspotCeiling(ApprovedTiles());
    }

    /**
     * No incident is due before the 10th approval, and no volume incident
     * before the 30th.
     */
    lemma IncidentNeedsApprovals()
      requires Counted()
      ensures IncidentDue(volume, hotspot).Some? ==> approvalCount >= 10
      ensures IncidentDue(volume, hotspot) == Some(VolumeIncident) ==> approvalCount >= 30
    {
      MetersBounds();
      var n := approvalCount;
      if n < 10 {
        assert n * (n + 1) <= 9 * (n + 1) <= 90;
      }
    }
  }
}
