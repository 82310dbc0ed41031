/**
 * Incident attribution: each approved tile's contribution score, the stable
 * descending sort of the approved tiles by score, and the contributor list
 * cut to the length the round's generator draws.
 *
 * Scores are kept in halves, so that `0.5 * countRelated` is exact; the sort
 * compares scores only, so scaling them does not change its result.
 */
module Attribution {
  import opened Field
  import opened Pressure

  datatype IncidentType = VolumeIncident | HotspotIncident

  /**
   * `scoreContribution(tile, type)` in halves, with `approvedTiles` the tiles
   * `countRelated` filters.
   */
  function ScoreHalves(tile: Tile, kind: IncidentType, approvedTiles: seq<Tile>): (score: int)
    ensures kind == HotspotIncident ==>
      2 * (tile.volumeWeight + tile.hotspotWeight) <= score <= 2 * (tile.volumeWeight + tile.hotspotWeight) + |approvedTiles|
  {
    2 * tile.volumeWeight
      + (if kind == HotspotIncident then 2 * tile.hotspotWeight + CountRelated(approvedTiles, tile) else 0)
  }

  /**
   * A volume incident scores by volume weight alone; a hotspot incident adds
   * the hotspot weight and half a point per related approval, so an approved
   * tile never scores lower in a hotspot incident than in a volume incident,
   * and scores at least half a point more.
   */
  lemma HotspotScoresMore(tile: Tile, approvedTiles: seq<Tile>)
    requires tile in approvedTiles && tile.hotspotWeight >= 0
    ensures ScoreHalves(tile, VolumeIncident, approvedTiles) == 2 * tile.volumeWeight
    ensures ScoreHalves(tile, HotspotIncident, approvedTiles) >= ScoreHalves(tile, VolumeIncident, approvedTiles) + 1
  {
    CountRelatedSelf(approvedTiles, tile);
  }

  /** An entry of the mapped list: the tile's position in `approvedTiles` and its score. */
  datatype Scored = Scored(pos: nat, score: int)

  /** The `map` step: each approved tile with its score, in approval order. */
  function ScoredTiles(approvedTiles: seq<Tile>, kind: IncidentType): (entries: seq<Scored>)
    ensures |entries| == |approvedTiles|
    ensures forall k :: 0 <= k < |entries| ==> entries[k] == Scored(k, ScoreHalves(approvedTiles[k], kind, approvedTiles))
  {
    seq(|approvedTiles|, k requires 0 <= k < |approvedTiles| => Scored(k, ScoreHalves(approvedTiles[k], kind, approvedTiles)))
  }

  /**
   * The order a stable sort with comparator `b.score - a.score` leaves two
   * entries in: higher score first, and on equal scores the earlier entry first.
   */
  predicate RankedBefore(x: Scored, y: Scored) {
    x.score > y.score || (x.score == y.score && x.pos < y.pos)
  }

  /** Every entry is ranked before every later one. */
  predicate Ranked(entries: seq<Scored>) {
    forall i, j :: 0 <= i < j < |entries| ==> RankedBefore(entries[i], entries[j])
  }

  /** Every entry of `entries` comes from a position below `bound`. */
  predicate PositionsBelow(entries: seq<Scored>, bound: nat) {
    forall k :: 0 <= k < |entries| ==> entries[k].pos < bound
  }

  /**
   * Insert `x` into a sorted list after every entry scoring at least as much,
   * which is where a stable sort leaves an entry that comes later than all of them.
   */
  function Insert(sorted: seq<Scored>, x: Scored): (r: seq<Scored>)
    ensures |r| == |sorted| + 1
    ensures multiset(r) == multiset(sorted) + multiset{x}
  {
    if sorted == [] then [x]
    else if sorted[0].score >= x.score then
      assert sorted == [sorted[0]] + sorted[1..];
      [sorted[0]] + Insert(sorted[1..], x)
    else [x] + sorted
  }

  /** The stable descending sort, as insertion of the entries in their order. */
  function SortByScore(entries: seq<Scored>): (r: seq<Scored>)
    ensures |r| == |entries|
    ensures multiset(r) == multiset(entries)
  {
    if entries == [] then []
    else
      var n := |entries| - 1;
      assert entries == entries[..n] + [entries[n]];
      Insert(SortByScore(entries[..n]), entries[n])
  }

  /** Inserting an entry from a later position than all others keeps the list ranked. */
  lemma {:induction false} InsertRanked(sorted: seq<Scored>, x: Scored)
    requires Ranked(sorted)
    requires forall k :: 0 <= k < |sorted| ==> sorted[k].pos < x.pos
    ensures Ranked(Insert(sorted, x))
  {
    if sorted != [] {
      var r := Insert(sorted, x);
      if sorted[0].score >= x.score {
        var rest := sorted[1..];
        InsertRanked(rest, x);
        var tail := Insert(rest, x);
        assert multiset(tail) == multiset(rest) + multiset{x};
        forall j | 0 < j < |r|
          ensures RankedBefore(r[0], r[j])
        {
          assert r[j] == tail[j - 1];
          assert r[j] in multiset(tail);
          if r[j] != x {
            assert r[j] in multiset(rest);
            var k :| 0 <= k < |rest| && rest[k] == r[j];
            assert sorted[k + 1] == r[j];
          }
        }
      } else {
        forall j | 0 < j < |r|
          ensures RankedBefore(r[0], r[j])
        {
          assert r[j] == sorted[j - 1];
          if j > 1 {
            assert RankedBefore(sorted[0], sorted[j - 1]);
          }
        }
      }
    }
  }

  /** Entries at increasing positions come out ranked. */
  lemma {:induction false} SortRanked(entries: seq<Scored>)
    requires forall i, j :: 0 <= i < j < |entries| ==> entries[i].pos < entries[j].pos
    ensures Ranked(SortByScore(entries))
  {
    if entries != [] {
      var n := |entries| - 1;
      SortRanked(entries[..n]);
      var sorted := SortByScore(entries[..n]);
      forall k | 0 <= k < |sorted|
        ensures sorted[k].pos < entries[n].pos
      {
        assert sorted[k] in multiset(entries[..n]);
        var i :| 0 <= i < n && entries[..n][i] == sorted[k];
      }
      InsertRanked(sorted, entries[n]);
    }
  }

  /** The approved tiles sorted by score, highest first and ties in approval order. */
  function RankedTiles(approvedTiles: seq<Tile>, kind: IncidentType): (r: seq<Scored>)
    ensures |r| == |approvedTiles|
    ensures multiset(r) == multiset(ScoredTiles(approvedTiles, kind))
    ensures Ranked(r)
    ensures PositionsBelow(r, |approvedTiles|)
    ensures forall k :: 0 <= k < |r| ==> r[k].score == ScoreHalves(approvedTiles[r[k].pos], kind, approvedTiles)
  {
    var entries := ScoredTiles(approvedTiles, kind);
    SortRanked(entries);
    var r := SortByScore(entries);
    assert forall k :: 0 <= k < |r| ==>
      r[k].pos < |approvedTiles| && r[k].score == ScoreHalves(approvedTiles[r[k].pos], kind, approvedTiles) by {
      forall k | 0 <= k < |r|
        ensures r[k].pos < |approvedTiles| && r[k].score == ScoreHalves(approvedTiles[r[k].pos], kind, approvedTiles)
      {
        assert r[k] in multiset(entries);
      }
    }
    r
  }

  function Min(a: int, b: int): int {
    if a <= b then a else b
  }

  /** The final `map` of `pickContributors`: each entry's tile. */
  function TilesOf(approvedTiles: seq<Tile>, entries: seq<Scored>): (r: seq<Tile>)
    requires PositionsBelow(entries, |approvedTiles|)
    ensures |r| == |entries|
    ensures forall j :: 0 <= j < |r| ==> r[j] in approvedTiles
  {
    seq(|entries|, j requires 0 <= j < |entries| => approvedTiles[entries[j].pos])
  }

  /**
   * `pickContributors(kind)` once `randomInt(8, 12)` has drawn `count`: the
   * first `count` ranked entries (all of them when there are fewer), as tiles.
   */
  function Contributors(approvedTiles: seq<Tile>, kind: IncidentType, count: int): (r: seq<Tile>)
    requires count >= 0
    ensures |r| == Min(count, |approvedTiles|)
    ensures forall j :: 0 <= j < |r| ==> r[j] in approvedTiles
  {
    TilesOf(approvedTiles, RankedTiles(approvedTiles, kind)[..Min(count, |approvedTiles|)])
  }

  /** The positions the first `m` entries name. */
  function Positions(entries: seq<Scored>, m: nat): set<nat>
    requires m <= |entries|
  {
    set k | 0 <= k < m :: entries[k].pos
  }

  /**
   * The contributors are the top of the ranking: they come in non-increasing
   * score order, tiles with equal scores in approval order, and every
   * approved tile left out scores no more than any chosen one.
   */
  lemma ContributorsAreTop(approvedTiles: seq<Tile>, kind: IncidentType, count: nat)
    ensures var ranked := RankedTiles(approvedTiles, kind);
      var r := Contributors(approvedTiles, kind, count);
      var chosen := Positions(ranked, |r|);
      && (forall j :: 0 <= j < |r| ==> r[j] == approvedTiles[ranked[j].pos])
      && (forall i, j :: 0 <= i < j < |r| ==>
            ScoreHalves(r[i], kind, approvedTiles) > ScoreHalves(r[j], kind, approvedTiles)
            || (ScoreHalves(r[i], kind, approvedTiles) == ScoreHalves(r[j], kind, approvedTiles) && ranked[i].pos < ranked[j].pos))
      && (forall p, i :: 0 <= p < |approvedTiles| && p !in chosen && 0 <= i < |r| ==>
            ScoreHalves(approvedTiles[p], kind, approvedTiles) <= ScoreHalves(r[i], kind, approvedTiles))
  {
    LeftOutScoreNoMore(approvedTiles, kind, count);
  }

  /** The third part of `ContributorsAreTop`: no approved tile left out outscores a chosen one. */
  lemma LeftOutScoreNoMore(approvedTiles: seq<Tile>, kind: IncidentType, count: nat)
    ensures var r := Contributors(approvedTiles, kind, count);
      var chosen := Positions(RankedTiles(approvedTiles, kind), |r|);
      forall p, i :: 0 <= p < |approvedTiles| && p !in chosen && 0 <= i < |r| ==>
        ScoreHalves(approvedTiles[p], kind, approvedTiles) <= ScoreHalves(r[i], kind, approvedTiles)
  {
    var ranked := RankedTiles(approvedTiles, kind);
    var entries := ScoredTiles(approvedTiles, kind);
    var r := Contributors(approvedTiles, kind, count);
    var m := |r|;
    var chosen := Positions(ranked, m);
    forall p, i | 0 <= p < |approvedTiles| && p !in chosen && 0 <= i < m
      ensures ScoreHalves(approvedTiles[p], kind, approvedTiles) <= ScoreHalves(r[i], kind, approvedTiles)
    {
      assert entries[p] in multiset(ranked);
      var k :| 0 <= k < |ranked| && ranked[k] == entries[p];
      assert RankedBefore(ranked[i], ranked[k]);
    }
  }
}
