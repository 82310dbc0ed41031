/**
 * What the approved tiles add up to: the related-tile count, the two meters,
 * a tile's local severity with its log line, and the global status band.
 *
 * Meters are kept exactly: the volume meter is an integer, and the hotspot
 * meter is kept in tenths (a hotspot weight `w` adds `10 * w`, each related
 * approval adds 3, so that `0.3 * related` is exact). The local severity
 * score `hotspotWeight + 0.5 * related` is kept in halves.
 */
module Pressure {
  import opened Field

  const VOLUME_THRESHOLD: int := 120
  /** The hotspot threshold 45, in tenths. */
  const HOTSPOT_THRESHOLD_TENTHS: int := 450

  /** The filter of `countRelated`, `updateMeters` and `computeLocalSeverity`: same method group or same contract group. */
  predicate Related(tile: Tile, t: Tile) {
    t.methodGroup == tile.methodGroup || t.contractGroup == tile.contractGroup
  }

  /** Positions of `ts` holding a tile related to `tile`. */
  ghost function RelatedPositions(ts: seq<Tile>, tile: Tile): set<nat> {
    set k: nat | k < |ts| && Related(tile, ts[k])
  }

  /** The length of the filtered list: how many of `ts` are related to `tile`. */
  function CountRelated(ts: seq<Tile>, tile: Tile): (r: nat)
    ensures r <= |ts|
  {
    if ts == [] then 0
    else CountRelated(ts[..|ts| - 1], tile) + (if Related(tile, ts[|ts| - 1]) then 1 else 0)
  }

  /** The count is the number of related positions, the list's own order aside. */
  lemma {:induction false} CountRelatedIsSize(ts: seq<Tile>, tile: Tile)
    ensures CountRelated(ts, tile) == |RelatedPositions(ts, tile)|
  {
    if ts != [] {
      var n := |ts| - 1;
      CountRelatedIsSize(ts[..n], tile);
      var before := RelatedPositions(ts[..n], tile);
      assert n !in before;
      if Related(tile, ts[n]) {
        assert RelatedPositions(ts, tile) == before + {n};
      } else {
        assert RelatedPositions(ts, tile) == before;
      }
    }
  }

  /** A tile is related to itself, so a tile among `ts` counts at least itself. */
  lemma {:induction false} CountRelatedSelf(ts: seq<Tile>, tile: Tile)
    requires tile in ts
    ensures CountRelated(ts, tile) >= 1
  {
    var n := |ts| - 1;
    if ts[n] != tile {
      assert tile in ts[..n];
      CountRelatedSelf(ts[..n], tile);
    }
  }

  /** The count only grows as tiles are appended. */
  lemma CountRelatedAppend(ts: seq<Tile>, t: Tile, tile: Tile)
    ensures CountRelated(ts + [t], tile) == CountRelated(ts, tile) + (if Related(tile, t) then 1 else 0)
  {
    assert (ts + [t])[..|ts|] == ts;
  }

  /** The count depends on the tile's groups only, not on its lifecycle fields. */
  lemma {:induction false} CountRelatedClassified(ts: seq<Tile>, us: seq<Tile>, tile: Tile)
    requires SameClassification(ts, us)
    ensures CountRelated(ts, tile) == CountRelated(us, tile)
  {
    if ts != [] {
      var n := |ts| - 1;
      assert Classification(ts[n]) == Classification(us[n]);
      CountRelatedClassified(ts[..n], us[..n], tile);
    }
  }

  /** The volume meter for the tiles approved so far: the sum of their volume weights. */
  function VolumeSum(ts: seq<Tile>): int {
    if ts == [] then 0 else VolumeSum(ts[..|ts| - 1]) + ts[|ts| - 1].volumeWeight
  }

  /**
   * The hotspot meter in tenths for the tiles approved so far, in approval
   * order: each approval adds its hotspot weight and 0.3 for every approved
   * tile related to it at that moment, itself included.
   */
  function HotspotSum(ts: seq<Tile>): int {
    if ts == [] then 0
    else
      var n := |ts| - 1;
      HotspotSum(ts[..n]) + 10 * ts[n].hotspotWeight + 3 * CountRelated(ts, ts[n])
  }

  /** Tiles with weights in the generated ranges. */
  predicate InRange(ts: seq<Tile>) {
    forall k :: 0 <= k < |ts| ==> 1 <= ts[k].volumeWeight <= 4 && 0 <= ts[k].hotspotWeight <= 3
  }

  /**
   * Each approval adds 1 to 4 to the volume meter, so the volume threshold
   * of 120 cannot be reached before the 30th approval.
   */
  lemma {:induction false} VolumeBounds(ts: seq<Tile>)
    requires InRange(ts)
    ensures |ts| <= VolumeSum(ts) <= 4 * |ts|
  {
    if ts != [] {
      VolumeBounds(ts[..|ts| - 1]);
    }
  }

  /**
   * Each approval adds at least 0.3 to the hotspot meter, since the tile
   * counts as related to itself, and at most 3 plus 0.3 for each approval
   * up to and including it.
   */
  lemma {:induction false} HotspotBounds(ts: seq<Tile>)
    requires InRange(ts)
    ensures 3 * |ts| <= HotspotSum(ts)
    ensures ts != [] ==> HotspotSum(ts) <= HotspotSum(ts[..|ts| - 1]) + 30 + 3 * |ts|
  {
    if ts != [] {
      var n := |ts| - 1;
      HotspotBounds(ts[..n]);
      assert ts[n] in ts;
      CountRelatedSelf(ts, ts[n]);
    }
  }

  /**
   * The hotspot meter after `n` approvals is at most `30n + 3n(n + 1)/2`
   * tenths: approval number `k` adds at most 3 plus 0.3 for each of the
   * `k` approvals so far.
   */
  lemma {:induction false} HotspotCeiling(ts: seq<Tile>)
    requires InRange(ts)
    ensures 2 * HotspotSum(ts) <= 60 * |ts| + 3 * |ts| * (|ts| + 1)
  {
    if ts != [] {
      var n := |ts| - 1;
      assert InRange(ts[..n]);
      HotspotCeiling(ts[..n]);
      HotspotBounds(ts);
      assert 3 * (n + 1) * (n + 2) == 3 * n * (n + 1) + 6 * (n + 1);
    }
  }

  /** Both meters only grow with each approval. */
  lemma MetersGrow(ts: seq<Tile>, t: Tile)
    requires InRange([t])
    ensures VolumeSum(ts + [t]) >= VolumeSum(ts) + 1
    ensures HotspotSum(ts + [t]) >= HotspotSum(ts) + 3
  {
    var us := ts + [t];
    assert us[..|ts|] == ts;
    assert us[|ts|] == t;
    CountRelatedSelf(us, t);
  }

  // ------------------------------------------------------------- severity

  /** `hotspotWeight + 0.5 * related`, in halves. */
  function RawScoreHalves(tile: Tile, approvedTiles: seq<Tile>): int {
    2 * tile.hotspotWeight + CountRelated(approvedTiles, tile)
  }

  function Clamp(x: int, lo: int, hi: int): int
    requires lo <= hi
  {
    if x < lo then lo else if hi < x then hi else x
  }

  /**
   * `computeLocalSeverity`: the breakpoints 1.5, 3.0 and 4.5 split the raw
   * score into four bands, so the severity is how many breakpoints the
   * score has reached: `floor(raw / 1.5)` kept within 0..3.
   */
  function LocalSeverity(tile: Tile, approvedTiles: seq<Tile>): (severity: int)
    ensures 0 <= severity <= 3
    ensures severity == Clamp(RawScoreHalves(tile, approvedTiles) / 3, 0, 3)
  {
    var raw := RawScoreHalves(tile, approvedTiles);
    if raw < 3 then 0
    else if raw < 6 then 1
    else if raw < 9 then 2
    else 3
  }

  /** More approvals never lower a tile's severity. */
  lemma SeverityMonotone(tile: Tile, approvedTiles: seq<Tile>, t: Tile)
    ensures LocalSeverity(tile, approvedTiles) <= LocalSeverity(tile, approvedTiles + [t])
  {
    CountRelatedAppend(approvedTiles, t, tile);
  }

  const SIGNAL_LOGS: seq<string> := ["ok", "retry-after: 1s", "429: Too Many Requests", "rate limit exceeded (burst)"]

  /** `getLogSnippet`: the log line for a severity, and "ok" where the table has none. */
  function LogSnippet(severity: int): (line: string)
    ensures line in SIGNAL_LOGS
    ensures 0 <= severity < |SIGNAL_LOGS| ==> line == SIGNAL_LOGS[severity]
    ensures line == "ok" <==> !(1 <= severity <= 3)
  {
    if 0 <= severity < |SIGNAL_LOGS| then SIGNAL_LOGS[severity] else "ok"
  }

  // --------------------------------------------------------------- status

  datatype StatusLabel = Stable | Warm | Hot | Critical

  /** The status table: each band's label and its `max` ratio in hundredths. */
  const STATUS_THRESHOLDS: seq<(StatusLabel, nat)> := [(Stable, 25), (Warm, 50), (Hot, 75), (Critical, 110)]

  /**
   * `max(volume / 120, hotspot / 45) < max / 100`, with the hotspot meter in
   * tenths, cleared of fractions.
   */
  predicate RatioBelow(volume: int, hotspotTenths: int, max: nat) {
    100 * volume < 120 * max && 100 * hotspotTenths < 450 * max
  }

  /** The `find` over the status table from entry `i` on. */
  function FindBand(volume: int, hotspotTenths: int, i: nat): (band: nat)
    requires i <= |STATUS_THRESHOLDS|
    ensures i <= band <= |STATUS_THRESHOLDS|
    decreases |STATUS_THRESHOLDS| - i
  {
    if i == |STATUS_THRESHOLDS| then i
    else if RatioBelow(volume, hotspotTenths, STATUS_THRESHOLDS[i].1) then i
    else FindBand(volume, hotspotTenths, i + 1)
  }

  /** The table entry `getGlobalStatus` settles on: the first band found, else the last. */
  function StatusBand(volume: int, hotspotTenths: int): (band: nat)
    ensures band < |STATUS_THRESHOLDS|
  {
    var found := FindBand(volume, hotspotTenths, 0);
    if found < |STATUS_THRESHOLDS| then found else |STATUS_THRESHOLDS| - 1
  }

  /**
   * `getGlobalStatus()` for the given meters: "Stable" below a ratio of
   * 0.25, "Warm" below 0.5, "Hot" below 0.75 (and "Critical" from there on,
   * as `CriticalIff` states).
   */
  function GlobalStatus(volume: int, hotspotTenths: int): (status: StatusLabel)
    ensures status == Stable <==> RatioBelow(volume, hotspotTenths, 25)
    ensures status == Warm <==> !RatioBelow(volume, hotspotTenths, 25) && RatioBelow(volume, hotspotTenths, 50)
    ensures status == Hot <==> !RatioBelow(volume, hotspotTenths, 50) && RatioBelow(volume, hotspotTenths, 75)
  {
    StatusBandIsFirst(volume, hotspotTenths);
    STATUS_THRESHOLDS[StatusBand(volume, hotspotTenths)].0
  }

  /**
   * The status band is the first one whose bound the larger meter ratio is
   * below; bands before it are not, and "Critical" is the fallback when the
   * ratio reaches even 1.1.
   */
  lemma {:induction false} StatusBandIsFirst(volume: int, hotspotTenths: int)
    ensures var band := StatusBand(volume, hotspotTenths);
      && (forall j :: 0 <= j < band ==> !RatioBelow(volume, hotspotTenths, STATUS_THRESHOLDS[j].1))
      && (band < |STATUS_THRESHOLDS| - 1 ==> RatioBelow(volume, hotspotTenths, STATUS_THRESHOLDS[band].1))
  {
    FindBandScan(volume, hotspotTenths, 0);
  }

  lemma {:induction false} FindBandScan(volume: int, hotspotTenths: int, i: nat)
    requires i <= |STATUS_THRESHOLDS|
    ensures var band := FindBand(volume, hotspotTenths, i);
      && (forall j :: i <= j < band ==> !RatioBelow(volume, hotspotTenths, STATUS_THRESHOLDS[j].1))
      && (band < |STATUS_THRESHOLDS| ==> RatioBelow(volume, hotspotTenths, STATUS_THRESHOLDS[band].1))
    decreases |STATUS_THRESHOLDS| - i
  {
    if i < |STATUS_THRESHOLDS| && !RatioBelow(volume, hotspotTenths, STATUS_THRESHOLDS[i].1) {
      FindBandScan(volume, hotspotTenths, i + 1);
    }
  }

  /** The status is "Critical" exactly when the larger meter ratio has reached 0.75. */
  lemma CriticalIff(volume: int, hotspotTenths: int)
    ensures GlobalStatus(volume, hotspotTenths) == Critical <==> !RatioBelow(volume, hotspotTenths, 75)
  {
    StatusBandIsFirst(volume, hotspotTenths);
  }

  /** Fuller meters never show a calmer status. */
  lemma StatusMonotone(volume: int, hotspotTenths: int, volume': int, hotspotTenths': int)
    requires volume <= volume' && hotspotTenths <= hotspotTenths'
    ensures StatusBand(volume, hotspotTenths) <= StatusBand(volume', hotspotTenths')
  {
    StatusBandIsFirst(volume, hotspotTenths);
    StatusBandIsFirst(volume', hotspotTenths');
  }
}
