/**
 * The game's data model (tiles and their classification) and the tile field
 * generator: a 12 x 12 grid in row-major order, each tile taking four draws
 * from the round's generator in a fixed order (method group, contract group,
 * volume weight, hotspot weight).
 */
module Field {
  import opened Wrappers
  import opened JsStrings
  import opened Prng

  const GRID_SIZE: nat := 12
  const CELL_COUNT: nat := 144

  datatype MethodGroup = EthCall | GetLogs | TraceCall | SendRawTransaction | GetBlock

  datatype ContractGroup = A | B | C | D | E

  const CONTRACT_GROUPS: seq<ContractGroup> := [A, B, C, D, E]

  /**
   * The method-group table in its key order, with the weights 0.25, 0.2,
   * 0.15, 0.25 and 0.15 written in hundredths.
   */
  const METHOD_WEIGHTS: seq<(MethodGroup, nat)> :=
    [(EthCall, 25), (GetLogs, 20), (TraceCall, 15), (SendRawTransaction, 25), (GetBlock, 15)]

  datatype TileState = Hidden | Inspected | Approved

  /** What inspecting a tile reveals. */
  datatype Signal = Signal(symptom: string, severity: int, logSnippet: string)

  datatype Tile = Tile(
    row: int,
    col: int,
    methodGroup: MethodGroup,
    contractGroup: ContractGroup,
    volumeWeight: int,
    hotspotWeight: int,
    state: TileState,
    revealedSignal: Option<Signal>)

  /** The part of a tile fixed at generation: everything but its lifecycle fields. */
  function Classification(t: Tile): Tile {
    t.(state := Hidden, revealedSignal := None)
  }

  /** Two tile sequences that differ at most in the tiles' lifecycle fields. */
  predicate SameClassification(a: seq<Tile>, b: seq<Tile>) {
    |a| == |b| && forall j :: 0 <= j < |a| ==> Classification(a[j]) == Classification(b[j])
  }

  /** A generated field: its tiles and the generator's accumulator afterwards. */
  datatype Generated = Generated(tiles: seq<Tile>, rng: bv32)

  /** `weightedRandom` over the method-group table for the draw `u`. */
  function MethodGroupOf(u: bv32): MethodGroup {
    WeightedOf(u, METHOD_WEIGHTS).value
  }

  /** `randomPick(CONTRACT_GROUPS)` for the draw `u`. */
  function ContractGroupOf(u: bv32): (g: ContractGroup)
    ensures g in CONTRACT_GROUPS
  {
    PickOf(u, CONTRACT_GROUPS).value
  }

  /** Draws the field takes in all: four per cell. */
  const FIELD_DRAWS: nat := 576

  /**
   * Tile number `i` in row-major order, for a generator started at
   * accumulator `a`: it sits at (`i / 12`, `i % 12`) and takes draws `4i` to
   * `4i + 3`, for the method group, the contract group, the volume weight and
   * the hotspot weight in that order.
   */
  function TileAt(a: bv32, i: nat): (t: Tile)
    ensures t.row == i / 12 && t.col == i % 12
    ensures t.state == Hidden && t.revealedSignal == None
    ensures 1 <= t.volumeWeight <= 4 && 0 <= t.hotspotWeight <= 3
    ensures t.contractGroup in CONTRACT_GROUPS
  {
    Tile(i / 12, i % 12,
         MethodGroupOf(DrawValue(a, 4 * i)),
         ContractGroupOf(DrawValue(a, 4 * i + 1)),
         RandomIntOf(DrawValue(a, 4 * i + 2), 1, 4),
         RandomIntOf(DrawValue(a, 4 * i + 3), 0, 3),
         Hidden, None)
  }

  /** The first `n` tiles, in push order. */
  function FieldTiles(a: bv32, n: nat): (tiles: seq<Tile>)
    ensures |tiles| == n
    ensures forall i :: 0 <= i < n ==> tiles[i] == TileAt(a, i)
  {
    seq(n, i requires 0 <= i => TileAt(a, i))
  }

  /** Pushing the next tile extends the prefix by one. */
  lemma FieldTilesPush(a: bv32, n: nat)
    ensures FieldTiles(a, n + 1) == FieldTiles(a, n) + [TileAt(a, n)]
  {
  }

  /**
   * A well-formed field: tile `i` sits at row `i / 12`, column `i % 12`, is
   * hidden, and has weights and contract group in range.
   */
  ghost predicate WellFormed(tiles: seq<Tile>) {
    forall i :: 0 <= i < |tiles| ==>
      && tiles[i].row == i / 12 && tiles[i].col == i % 12
      && tiles[i].state == Hidden && tiles[i].revealedSignal == None
      && 1 <= tiles[i].volumeWeight <= 4 && 0 <= tiles[i].hotspotWeight <= 3
      && tiles[i].contractGroup in CONTRACT_GROUPS
  }

  /**
   * The whole field a seed produces, and where it leaves the generator:
   * exactly 144 well-formed tiles, after 576 draws in all.
   */
  function GeneratedField(seed: JsString): (g: Generated)
    ensures |g.tiles| == CELL_COUNT && WellFormed(g.tiles)
    ensures g.rng == Accumulator(SeedHash(seed), FIELD_DRAWS)
  {
    Generated(FieldTiles(SeedHash(seed), CELL_COUNT), Accumulator(SeedHash(seed), FIELD_DRAWS))
  }

  /** Tile `i` of a seed's field is built from draws `4i` to `4i + 3` of the seed's generator. */
  lemma GeneratedFieldTiles(seed: JsString)
    ensures forall i :: 0 <= i < CELL_COUNT ==> GeneratedField(seed).tiles[i] == TileAt(SeedHash(seed), i)
  {
  }

  /** Cell (`row`, `col`) is number `row * 12 + col` in row-major order. */
  lemma CellNumber(n: nat, row: nat, col: nat)
    requires col < GRID_SIZE && n == row * 12 + col
    ensures n / 12 == row && n % 12 == col
  {
  }

  /**
   * The object literal pushed for the cell (`row`, `col`): with the generator
   * at the start of tile number `n`'s draws, the four draws build that tile
   * and leave the generator at the start of the next tile's.
   */
  method NextTile(rng: SeededRng, row: nat, col: nat, ghost n: nat) returns (tile: Tile)
    requires rng.Valid() && col < GRID_SIZE && n == row * 12 + col && rng.drawn == 4 * n
    modifies rng
    ensures rng.Valid() && rng.start == old(rng.start) && rng.drawn == old(rng.drawn) + 4
    ensures tile == TileAt(rng.start, n)
  {
    var methodGroup := rng.WeightedRandom(METHOD_WEIGHTS);
    var contractGroup := rng.RandomPick(CONTRACT_GROUPS);
    var volumeWeight := rng.RandomInt(1, 4);
    var hotspotWeight := rng.RandomInt(0, 3);
    tile := Tile(row, col, methodGroup.value, contractGroup.value, volumeWeight, hotspotWeight, Hidden, None);
    CellNumber(n, row, col);
  }

  /**
   * `generateTiles(seed)`: a fresh generator for the seed, then the nested
   * row/column loops pushing one tile per cell. Returns the tiles and the
   * generator, left where the last draw put it.
   */
  method GenerateTiles(seed: JsString) returns (tiles: seq<Tile>, rng: SeededRng)
    ensures fresh(rng) && rng.Valid()
    ensures rng.start == SeedHash(seed) && rng.drawn == FIELD_DRAWS
    ensures Generated(tiles, rng.a) == GeneratedField(seed)
  {
    rng := new SeededRng(seed);
    tiles := PushTiles(rng);
  }

  /** The row/column loops of `generateTiles`, drawing from `rng`. */
  method PushTiles(rng: SeededRng) returns (tiles: seq<Tile>)
    requires rng.Valid() && rng.drawn == 0
    modifies rng
    ensures rng.Valid() && rng.start == old(rng.start) && rng.drawn == FIELD_DRAWS
    ensures tiles == FieldTiles(rng.start, CELL_COUNT)
  {
    tiles := [];
    ghost var start := rng.start;
    ghost var n := 0;
    for row := 0 to GRID_SIZE
      invariant n == row * 12 && rng.drawn == 4 * n
      invariant rng.Valid() && rng.start == start
      invariant tiles == FieldTiles(start, n)
    {
      for col := 0 to GRID_SIZE
        invariant n == row * 12 + col && rng.drawn == 4 * n
        invariant rng.Valid() && rng.start == start
        invariant tiles == FieldTiles(start, n)
      {
        var tile := NextTile(rng, row, col, n);
        FieldTilesPush(start, n);
        tiles := tiles + [tile];
        n := n + 1;
      }
    }
  }
}
