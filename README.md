# Rate-limit incident game, Snake engine and leaderboard API: a Dafny model

This project models the deterministic core of a small browser-game repository.
It also proves properties of that core. There are four parts.

- **The rate-limit incident game** (`app.js`). A round is a 12 x 12 field of RPC "tiles".
  - The field is drawn from a seeded generator: the xmur3 string hash feeds mulberry32.
  - The player inspects tiles, which reveals a local severity, and approves them.
  - Each approval raises a request-volume meter and a hotspot meter.
  - Once a meter crosses its threshold, a one-shot incident is raised. It names the top-scoring approved tiles as its contributors.

  The round is the class `Session.Game`, and the generator is the class `Prng.SeededRng`. Generation is in `Field`, and the pure scoring and status functions are in `Pressure` and `Attribution`.
- **The Snake engine** (`snake-logic.js`).
  - The generator is the Park-Miller Lehmer generator, `Snake.LehmerRng`.
  - The direction queue has a guard against reversing.
  - Food goes to a free cell, chosen from the free cells listed row by row.
  - `step` handles wall and self collisions, growth, and the "filled" end.

  The game is the class `Snake.SnakeGame`. `SnakeScenarios` replays the repository's four unit tests as verified methods.
- **Score submission** (`api/submit-score.js`). It normalises the display name: trim, collapse white-space runs, cut to 20 UTF-16 code units. Then it checks the method, the configuration and the submitted numbers, in order (`SubmitScore`).
- **The leaderboard** (`api/leaderboard.js`). It checks the method and the configuration, then reads the `limit` parameter the way `parseInt(limit, 10) || 10` does. It clamps the limit to 1 .. 20 and builds the query string (`Leaderboard`).

## Shared modelling choices

- JavaScript strings are sequences of UTF-16 code units (`JsStrings`). White space is the set `trim`, `\s` and `parseInt` share, written out in `JsStrings.IsWhiteSpace`.
- All 32-bit arithmetic of xmur3 and mulberry32 is on `bv32`. This covers `Math.imul`, the shifts and the rotate.
  - `random()` is `u / 2^32` for the 32-bit draw `u`.
  - So `randomInt` and `randomPick` are exact integer divisions.
- Fractional game constants are scaled to integers:
  - the hotspot meter is kept in tenths (the 0.3 step);
  - the local-severity raw score and the contribution score are kept in halves (the 0.5 step);
  - `weightedRandom`'s weights 0.25/0.2/0.15/0.25/0.15 are the integers 25/20/15/25/15.
- Clock readings (`Date.now()`) are parameters: the seed of `resetGame`, `createRng` and `createState`.
- The storage configuration of the two endpoints is a boolean parameter.
- The submitted numbers arrive already coerced by `Number(...)`. A finite number is `Some(x)`, and `NaN` or an infinity is `None`.
- The approved list of a round holds the tiles themselves. An approved tile is not changed again until the next reset, so the model keeps the approved tiles' positions in the field, in approval order. `Session.Game.ApprovedTiles` gives back the tiles.

## Behaviour of the code worth knowing

- `app.js` has no timer and no meter decay. It also has no burst multiplier, hold action or victory condition. The meters only grow within a round, and the only incident types are volume and hotspot.
- `approveTile` pushes the tile onto the approved list before `updateMeters` runs (app.js:239-241). So the tile counts among its own related tiles, and hotspot always rises by the hotspot weight plus 0.3 per related tile, the tile included.
- `getGlobalStatus` picks the first band whose `max` is strictly above the ratio (app.js:210).
- `pickContributors` takes the first `randomInt(8, 12)` ranked approved tiles (app.js:192). A round with fewer approvals than that has fewer contributors.

## Model

| member | source | states |
|---|---|---|
| Prng.Xmur3 | app.js:64-76 | the hashing loop over the code units followed by the first output of the returned generator equals `SeedHash` of the string, xmur3's fold and final avalanche |
| Prng.SeededRng.constructor | app.js:87-88 | `createSeededRng(seed)` starts mulberry32 at the xmur3 hash of the seed string, with no draw taken |
| Prng.SeededRng.Random | app.js:79-84 | `random()` returns draw number `drawn` of the stream started at the seed hash (its value is `u / 2^32`) and moves the accumulator on by one step |
| Prng.SeededRng.RandomInt | app.js:91-93 | `randomInt(min, max)` takes exactly one draw and returns a value in `[min, max]` whenever `min <= max` |
| Prng.SeededRng.RandomPick | app.js:94-96 | `randomPick(list)` takes one draw; it yields an element of the list, and `undefined` exactly for an empty list |
| Prng.SeededRng.WeightedRandom | app.js:97-106 | `weightedRandom` takes one draw and returns the roulette choice for it over the table |
| Prng.AccumulatorStep | app.js:80 | every draw adds the constant 0x6d2b79f5 to the accumulator, modulo 2^32 |
| Prng.Mulberry32Mix | app.js:80-83 | the output mix of mulberry32 on 32-bit words (`Math.imul` as wrapping `bv32` multiplication, `>>>` as a logical shift); it carries no contract of its own, and `DrawValueMixes` states that draw `k` is this mix of the accumulator after `k + 1` steps |
| Prng.DrawValueMixes | app.js:80-83 | draw `k` is the mulberry32 output mix of the accumulator after `k + 1` steps |
| Prng.NextDrawAt | app.js:79-84 | taking a draw after `k` earlier ones gives draw number `k` of the stream |
| Prng.Scaled | app.js:92-95 | `Math.floor(random() * n)` lies in `[0, n)` for positive `n`, because `random()` is below 1 |
| Prng.FractionBelowOne | app.js:83 | `v / 2^32` for a 32-bit `v` is below one, so scaling by `n` stays below `n` |
| Prng.ProductBounds | app.js:92 | a 32-bit draw times `n` lies between 0 and `(2^32 - 1) * n` |
| Prng.ScaledBounds | app.js:92-95 | the floor of `u * n / 2^32` is in `[0, n)`, and 0 when `n` is 0 |
| Prng.RandomIntOf | app.js:91-93 | `randomInt` lies in `[min, max]` whenever `min <= max` |
| Prng.PickOf | app.js:94-96 | `randomPick` returns an element of the list exactly when the list is not empty |
| Prng.WeightedOf | app.js:97-106 | `weightedRandom` returns a key exactly when the table is not empty |
| Prng.WeightedIsFirstCover | app.js:100-105 | the key returned is the first one whose running sum of weights reaches the roll, or the last key when none does |
| Prng.RouletteScan | app.js:101-105 | the subtract-and-test loop stops at the first entry whose cumulative weight covers the roll |
| Field.ContractGroupOf | app.js:126 | a tile's contract group is one of `CONTRACT_GROUPS` |
| Field.TileAt | app.js:113-131 | tile `i` sits at row `i / 12`, column `i % 12`; it is hidden with no signal; its volume weight is in [1, 4], its hotspot weight in [0, 3] and its contract group in `CONTRACT_GROUPS` |
| Field.FieldTiles | app.js:113-133 | the first `n` tiles pushed are tiles `0 .. n - 1` of the stream, in push order |
| Field.FieldTilesPush | app.js:115 | pushing the next tile extends the prefix by exactly that tile |
| Field.GeneratedField | app.js:110-135 | a seed's field has exactly 144 well-formed tiles in row-major order, and leaves the generator 576 draws past the seed hash; it depends on the seed alone |
| Field.GeneratedFieldTiles | app.js:113-131 | tile `i` of the field is built from draws `4i` to `4i + 3` of the seed's generator |
| Field.CellNumber | app.js:113-114 | cell (`row`, `col`) is number `row * 12 + col` in row-major order |
| Field.NextTile | app.js:115-131 | one loop body takes exactly four draws (method group, contract group, volume weight, hotspot weight) and builds tile `row * 12 + col` |
| Field.PushTiles | app.js:113-133 | the nested row and column loops push the 144 tiles of the stream and take 576 draws |
| Field.GenerateTiles | app.js:110-135 | `generateTiles(seed)` returns the seed's field and a generator 576 draws past the seed hash |
| Pressure.CountRelated | app.js:181-185 | the related count is at most the number of approved tiles |
| Pressure.CountRelatedIsSize | app.js:182-184 | `countRelated` is the number of approved tiles sharing the method group or the contract group |
| Pressure.CountRelatedSelf | app.js:239-241 | a tile already on the approved list counts itself, so the related count is at least 1 |
| Pressure.CountRelatedAppend | app.js:239 | pushing a tile adds one to the related count exactly when the pushed tile is related |
| Pressure.CountRelatedClassified | app.js:138-140 | the related count depends only on the tiles' groups, not on their lifecycle |
| Pressure.VolumeBounds | app.js:155 | the volume meter lies between one and four times the number of approvals |
| Pressure.HotspotBounds | app.js:159-160 | each approval adds at least 0.3 to the hotspot meter, and at most 3 plus 0.3 per approval so far |
| Pressure.HotspotCeiling | app.js:159-160 | hotspot is at most `3n + 0.15 n (n + 1)` after `n` approvals |
| Pressure.MetersGrow | app.js:154-161 | an approval raises volume by at least 1 and hotspot by at least 0.3: the meters never decrease |
| Pressure.LocalSeverity | app.js:137-148 | severity is in {0, 1, 2, 3}, with breakpoints 1.5, 3.0 and 4.5 on `hotspotWeight + 0.5 * related` |
| Pressure.SeverityMonotone | app.js:137-148 | more approvals never lower a tile's severity |
| Pressure.LogSnippet | app.js:150-152 | the snippet is the `SIGNAL_LOGS` line for severities 0 to 3, and "ok" otherwise |
| Pressure.FindBand | app.js:209-211 | the `find` over the status thresholds returns a band at or after where it starts |
| Pressure.StatusBand | app.js:205-213 | the status is always one of the four bands |
| Pressure.StatusBandIsFirst | app.js:209-211 | the band chosen is the first whose `max` exceeds `max(volume / 120, hotspot / 45)`, and Critical when none does |
| Pressure.FindBandScan | app.js:210 | the scan passes over every band whose `max` the ratio reaches |
| Pressure.CriticalIff | app.js:205-213 | the status is Critical exactly when the larger ratio is at least 0.75 |
| Pressure.StatusMonotone | app.js:205-213 | higher meters never give a lower status band |
| Pressure.GlobalStatus | app.js:205-213 | `getGlobalStatus` on meter values: Stable exactly below ratio 0.25, Warm exactly from 0.25 to below 0.5, Hot exactly from 0.5 to below 0.75 (the larger of `volume / 120` and `hotspot / 45`); `CriticalIff` gives Critical from 0.75 on, `StatusBandIsFirst` the band choice and `StatusMonotone` the ordering |
| Attribution.HotspotScoresMore | app.js:172-179 | a volume incident scores a tile by its volume weight; a hotspot incident adds its hotspot weight and 0.5 per related tile, so at least 0.5 more |
| Attribution.ScoreHalves | app.js:172-179 | `scoreContribution` in halves: a hotspot incident scores between twice the volume and hotspot weights and that plus the number of approvals (the related count is at most that number); `HotspotScoresMore` gives the volume score exactly and shows that a hotspot incident scores an approved tile higher |
| Attribution.ScoredTiles | app.js:189-190 | the `map` pairs each approved tile, by position, with its contribution score |
| Attribution.Insert | app.js:191 | one insertion step of the sort adds exactly the new entry |
| Attribution.SortByScore | app.js:191 | the sort is a permutation of its input |
| Attribution.InsertRanked | app.js:191 | inserting an entry later in approval order keeps the list ranked by score, descending, ties in approval order |
| Attribution.SortRanked | app.js:191 | the stable sort ranks by score, descending, equal scores in approval order |
| Attribution.RankedTiles | app.js:189-191 | the ranked list is a permutation of the scored tiles, ranked, each entry carrying its tile's score |
| Attribution.TilesOf | app.js:193 | the final `map` returns approved tiles, one per entry |
| Attribution.Contributors | app.js:187-194 | the contributors are `min(K, number of approvals)` approved tiles |
| Attribution.ContributorsAreTop | app.js:187-194 | the contributors are the first `K` of the ranked list; no approved tile left out scores more than any tile kept |
| Attribution.LeftOutScoreNoMore | app.js:189-193 | no approved tile outside the first `K` of the ranked list scores more than a contributor (the third part of `ContributorsAreTop`) |
| Session.IncidentDue | app.js:163-170 | volume at or above 120 calls for a volume incident; otherwise hotspot at or above 45 calls for a hotspot incident; otherwise none |
| Session.TilesAt | app.js:239 | the approved tiles are one per listed position |
| Session.TilesAtAppend | app.js:239 | pushing a tile appends exactly that tile to the approved tiles |
| Session.TilesAtUpdate | app.js:229-238 | changing a tile that is not approved leaves the approved tiles unchanged |
| Session.TilesAtFrom | app.js:239 | each approved tile is the field's tile at its listed position |
| Session.FreshBookkeeping | app.js:322-327 | a freshly generated field with nothing approved satisfies the round's bookkeeping invariant |
| Session.ApproveBookkeeping | app.js:238-239 | approving a tile that is not yet approved keeps the bookkeeping invariant: no duplicates, and a tile is approved exactly when listed |
| Session.InspectBookkeeping | app.js:229-230 | inspecting a tile that is not approved keeps the bookkeeping invariant and the approved tiles |
| Session.TileInRange | app.js:127-128 | a tile of the field keeps its generated weights, whatever its lifecycle |
| Session.SumsAppend | app.js:154-161 | an approval adds its volume weight to the volume sum, and its hotspot weight plus 0.3 per related approved tile (itself included) to the hotspot sum |
| Session.Game.ApprovedTiles | app.js:239 | the approved tiles are one per approval |
| Session.Game.constructor | app.js:342-345 | `init()` gives the seed's field and generator; the rest is `appState`'s initial value (app.js:35-45): nothing approved, zero meters and count, no incident and no last signal. It establishes the round invariant |
| Session.Game.UpdateMeters | app.js:154-161 | `updateMeters` raises volume by the volume weight, and hotspot by the hotspot weight plus 0.3 per related approved tile (itself included) |
| Session.Game.RecordApproval | app.js:238-241 | marks the tile approved, appends it once, adds one to the count and updates the meters, keeping the count and meter invariant |
| Session.Game.PickContributors | app.js:187-194 | takes exactly one draw `K = randomInt(8, 12)` and returns the first `K` tiles of the ranked approved tiles |
| Session.Game.TriggerIncident | app.js:196-201 | raises the incident of the given kind with the contributors picked by the next draw |
| Session.Game.CheckForIncident | app.js:163-170 | does nothing once an incident exists or while no meter is due; otherwise raises the incident the meters call for, volume before hotspot; the meters, the tiles and the approvals stay unchanged |
| Session.Game.ApproveTile | app.js:236-245 | when the tile is already approved or an incident exists, nothing changes. Otherwise the tile is approved and appended once, the count rises by 1, volume rises by its volume weight and hotspot by its hotspot weight plus 0.3 per related tile, and an incident exists exactly when one is due. That incident is the due kind, and its contributors are the first `randomInt(8, 12)` of the ranking, drawn from the generator's first draw after the field. The invariant is kept |
| Session.Game.InspectTile | app.js:221-234 | when the tile is already approved or an incident exists, nothing changes. Otherwise the tile turns inspected and shows the signal for its severity, which becomes the last signal. The meters, approvals and incident never change |
| Session.Game.ResetGame | app.js:319-328 | `resetGame` uses the given seed, or the clock when it is missing or empty. It regenerates that seed's field, zeroes the meters and the count, empties the approvals and clears the incident and the last signal |
| Session.Game.Restart | app.js:320-328 | the assignments of `resetGame` once the field is generated restore the round invariant |
| Session.Game.ApprovedInRange | app.js:127-128 | the approved tiles keep the weights they were generated with |
| Session.Game.MetersBounds | app.js:154-161 | from any reset on, count <= volume <= 4 * count, hotspot >= 0.3 * count, and hotspot is bounded by the count; neither meter is negative |
| Session.Game.IncidentNeedsApprovals | app.js:163-170 | no incident is due before the 10th approval, and no volume incident before the 30th |
| Session.Game.Status | app.js:205-213 | `getGlobalStatus` on the game's meters: Stable with both meters at zero, and Critical exactly when volume is at least 90 or hotspot at least 33.75 (three quarters of each threshold) |
| Snake.TruncMod | snake-logic.js:18 | JavaScript's `%` takes the sign of the dividend and stays strictly inside `(-m, m)` |
| Snake.SeedValueAsWritten | snake-logic.js:17-19 | the seed normalisation as written lands in `[0, M)`, and on 0 exactly when `seed % M` is `-(M - 1)` |
| Snake.SeedValueAsWrittenStuck | snake-logic.js:17-23 | seeds -2147483646 and -4294967293 normalise to 0, and a generator at 0 stays at 0 |
| Snake.SeedValue | snake-logic.js:17-19 | the corrected normalisation lands in `[1, M - 1]` and agrees with the code wherever the code does not give 0 |
| Snake.NextValueInRange | snake-logic.js:21 | `value * 16807 mod M` stays in `[1, M - 1]`, because M is prime and 16807 is invertible modulo M |
| Snake.NextValue | snake-logic.js:21 | one step of the generator is a residue in `[0, M)`, and 0 is a fixed point; `NextValueInRange` keeps a value in `[1, M - 1]` there |
| Snake.LehmerRng.constructor | snake-logic.js:17-19 | `createRng(seed)` starts at the corrected normalised seed, in `[1, M - 1]`; it equals the value as written on every seed where that is not 0 |
| Snake.LehmerRng.AsWritten | snake-logic.js:17-19 | `createRng(seed)` as written starts at `seed % M` (truncating), moved up by `M - 1` when not positive, which can be 0 |
| Snake.LehmerRng.Next | snake-logic.js:20-23 | `next()` moves the value to `value * 16807 mod M` and returns it (as the numerator of `value / M`). From any residue modulo M it stays a residue; from `[1, M - 1]` it stays in `[1, M - 1]`, and from 0 it stays 0 |
| Snake.ProductBelow | snake-logic.js:74 | a draw times `n` stays below `M * n` |
| Snake.ScaledInRange | snake-logic.js:74 | `floor(value / M * n)` is a valid index into `n` open cells |
| Snake.DirectionNamed | snake-logic.js:10-15 | a name denotes a direction exactly when it is "up", "down", "left" or "right" |
| Snake.IsOpposite | snake-logic.js:48-55 | `isOpposite` holds for the four pairs up/down, down/up, left/right and right/left; it carries no contract of its own, and `OppositeCancels` states that these are exactly the pairs whose deltas cancel, symmetrically |
| Snake.OppositeCancels | snake-logic.js:48-55 | two directions are opposite exactly when their deltas cancel and they differ; being opposite is symmetric |
| Snake.RowOpenFacts | snake-logic.js:68-71 | the inner loop lists the free cells of row `y` left of `x`, in increasing `x` |
| Snake.GridOpenFacts | snake-logic.js:67-72 | the outer loop lists the free cells of the rows above `y`, in row-major order |
| Snake.OpenCellsFacts | snake-logic.js:65-72 | the open cells are exactly the grid cells not on the snake, listed row-major |
| Snake.FoodIsFree | snake-logic.js:73-75 | there is no food exactly when every cell is occupied; any food is a grid cell off the snake |
| Snake.FoodInLastCell | snake-logic.js:73-75 | with one free cell, the food goes there whatever the draw |
| Snake.SnakeGame.constructor | snake-logic.js:30-46 | `createState` gives one segment at (`floor(n/2)`, `floor(n/2)`), heading right with right queued, score 0, idle, food placed by `placeFood` |
| Snake.SnakeGame.QueueDirection | snake-logic.js:57-62 | the queued direction stays for an unknown name or the opposite of the current direction, and otherwise becomes the request; the queue is returned; it never queues a reversal |
| Snake.SnakeGame.PlaceFood | snake-logic.js:64-76 | `placeFood` draws once when some cell is free and not at all otherwise, and returns the food that draw picks among the open cells |
| Snake.SnakeGame.Step | snake-logic.js:78-116 | a finished game changes nothing. Otherwise the queued direction is taken. A move into the wall or a segment (the tail included) ends the game, "wall" first. Onto the food, the snake grows by the head, scores 1 and gets new food. Elsewhere it moves on at the same length and score. No food left ends as "filled", else it is running. Every state keeps the segments and food inside the grid and apart |
| Snake.SnakeGame.Advance | snake-logic.js:100-115 | once the next head is free: grow, score and re-place food on the food, or move on at the same length; report "filled" or running |
| Snake.SlidePlaced | snake-logic.js:100-107 | moving the head onto a free cell that holds no food and dropping the tail keeps the segments in the grid and apart, and the food off the snake |
| Snake.GrowPlaced | snake-logic.js:100-105 | growing onto the food and placing new food keeps the segments in the grid and apart, and the new food in the grid off the snake |
| SnakeScenarios.MovesForward | snake-logic.test.js:4-13 | on a 5 x 5 grid a one-segment snake at (2, 2) heading right moves to (3, 2), stays length 1 and is running |
| SnakeScenarios.EatsAndGrows | snake-logic.test.js:15-25 | a snake at (1, 1) heading right onto food at (2, 1) eats, scores 1, grows to 2 and gets food |
| SnakeScenarios.HitsItself | snake-logic.test.js:27-41 | a snake turning left into its own body ends the game with reason "self" |
| SnakeScenarios.OnlyFreeCell | snake-logic.test.js:43-54 | the test's 3 x 3 snake leaves (2, 2) as the only free cell |
| SnakeScenarios.FoodInLastFreeCell | snake-logic.test.js:43-57 | on that grid `placeFood` returns (2, 2) |
| JsStrings.TrimStart | api/submit-score.js:20 | leading trimming removes a blank prefix, and what is left does not start with white space |
| JsStrings.TrimEnd | api/submit-score.js:20 | trailing trimming removes a blank suffix, and what is left does not end with white space |
| JsStrings.TrimBlank | api/submit-score.js:20 | `trim()` leaves nothing exactly when the string is all white space |
| JsStrings.TrimKeepsLetters | api/submit-score.js:20 | trimming removes white space only |
| JsStrings.Collapse | api/submit-score.js:20 | `replace(/\s+/g, " ")`; it carries no contract of its own: `CollapseWord`, `CollapseRun` and `CollapseAppend` fix its value on every string, and `CollapseShape` and `CollapseKeepsLetters` state its shape and that letters survive |
| JsStrings.CollapseShape | api/submit-score.js:20 | after `replace(/\s+/g, " ")` the only white space is single spaces, and a string that starts with a non-space still does |
| JsStrings.CollapseKeepsLetters | api/submit-score.js:20 | collapsing changes white space only: the other code units stay, in order |
| JsStrings.TrimStartAt | api/submit-score.js:20 | `trimStart` drops exactly the white space in front of the first other code unit |
| JsStrings.TrimEndAt | api/submit-score.js:20 | `trimEnd` keeps exactly the code units up to the last one that is not white space |
| JsStrings.TrimStartAfterBlank | api/submit-score.js:20 | white space in front of a word is all that `trimStart` drops |
| JsStrings.TrimStartAppend | api/submit-score.js:20 | when a string is not blank, `trimStart` of it followed by more text stops inside it |
| JsStrings.CollapseWord | api/submit-score.js:20 | `replace(/\s+/g, " ")` leaves a string with no white space unchanged |
| JsStrings.CollapseRun | api/submit-score.js:20 | a white-space run in front of a word or at the end becomes exactly one space |
| JsStrings.CollapseAppend | api/submit-score.js:20 | the replacement works piece by piece wherever the cut is not inside a white-space run; with the two rows above this fixes its result on every string |
| JsStrings.CollapseJoin | api/submit-score.js:20 | the white-space run between two words becomes exactly one space, and the words are collapsed on their own |
| SubmitScore.NormalizeName | api/submit-score.js:19-22 | the normalised name has at most 20 code units |
| SubmitScore.Cut | api/submit-score.js:21 | `slice(0, 20)` is the prefix of length `min(20, length)` |
| SubmitScore.IsNumber | api/submit-score.js:24-26 | `Number.isFinite` on a coerced field: a present finite number passes; it carries no contract of its own, and `FirstFailureDecides` and `Validate` state how the checks that use it refuse |
| SubmitScore.NormalizeNameShape | api/submit-score.js:19-22 | the name never starts with white space, holds only single spaces as white space, and is empty exactly when the name is missing, empty or all white space |
| SubmitScore.NormalizeNameLetters | api/submit-score.js:19-22 | the name's non-space code units are kept in order, all of them when the collapsed name fits in 20 |
| SubmitScore.NormalizeNameJoin | api/submit-score.js:19-22 | two words with white space around and between them come out joined by one space, cut to 20 code units ("  Ada \t Lovelace " gives "Ada Lovelace") |
| SubmitScore.Validate | api/submit-score.js:56-80 | every refusal from the checks is a 400 with one of the five messages and no `Allow` header |
| SubmitScore.Checks | api/submit-score.js:56-73 | there are five checks, one per message |
| SubmitScore.FirstFailureDecides | api/submit-score.js:56-73 | a submission gets message `k` exactly when checks `0 .. k-1` pass and check `k` fails, and is accepted exactly when all five pass; a non-finite round limit skips its check |
| SubmitScore.AcceptedPayload | api/submit-score.js:75-80 | the row carries the normalised name, the approvals unchanged (any value in [1, 100]), the time rounded to a whole second in [0, 600] and the ratio rounded to within 0.0005, in [0, 2] |
| SubmitScore.FractionalApprovalsAccepted | api/submit-score.js:59 | approvals of 1.5 pass: the check is a range check, not an integer check |
| SubmitScore.Handle | api/submit-score.js:40-73 | anything but POST gets 405 with `Allow: POST`; then a missing configuration gets 500; only then is the body validated |
| SubmitScore.BodyReadLast | api/submit-score.js:41-47 | before the configuration passes, the reply does not depend on the body and is never a 400 |
| Leaderboard.DigitPrefix | api/leaderboard.js:28 | `parseInt` reads the longest prefix of decimal digits |
| Leaderboard.SignOf | api/leaderboard.js:28 | the sign read is a prefix of the text |
| Leaderboard.Decimal | api/leaderboard.js:32 | `${n}` is a non-empty numeral with no leading zero |
| Leaderboard.DecimalValue | api/leaderboard.js:28-32 | reading a numeral back gives the number |
| Leaderboard.DigitPrefixOf | api/leaderboard.js:28 | parsing stops at the first non-digit |
| Leaderboard.ParseSignedValue | api/leaderboard.js:28 | a minus sign negates the digits read, and a plus sign is skipped |
| Leaderboard.ParseAfterBlank | api/leaderboard.js:28 | leading white space is skipped |
| Leaderboard.ParseDigits | api/leaderboard.js:28 | `parseInt` reads the digits after white space and an optional sign, ignoring any text after them |
| Leaderboard.ParseNumeral | api/leaderboard.js:28-32 | `parseInt` reads back a written numeral: the inverse of `${n}` |
| Leaderboard.ParseInt | api/leaderboard.js:28 | `Number.parseInt(text, 10)`: blank text gives NaN, and text whose first code unit after white space is a digit gives a number; `ParseDigits` and `ParseNumeral` give the value read |
| Leaderboard.SafeLimit | api/leaderboard.js:28-29 | the row count is always in 1 .. 20 |
| Leaderboard.SafeLimitCases | api/leaderboard.js:28-29 | no number, and 0, give 10 (both falsy under `\|\|`); a negative number gives 1; 1 .. 20 is kept; above 20 gives 20 |
| Leaderboard.NumeralLimit | api/leaderboard.js:28-29 | for a numeral after white space and a sign, before any non-digit: "7abc" gives 7, "0" and "-0" give 10, "-3" gives 1, " 50" gives 20 |
| Leaderboard.Query | api/leaderboard.js:30-32 | the query starts with the five columns and the ascending order on time, pressure and creation time; what follows `limit=` reads back as exactly the row count |
| Leaderboard.Handle | api/leaderboard.js:19-32 | anything but GET gets 405 with `Allow: GET`; then a missing configuration gets 500; only then is a query built |
| Leaderboard.FetchAsksForSafeLimit | api/leaderboard.js:28-35 | a configured GET fetches with the query for the clamped row count |

## Left out

- The page: `elements`, `setMode`, the `render*` functions, `bindEvents` and the click listeners of `app.js`. They draw the state and route clicks; the input mode is not part of the model.
- Prng.SeededRng.WeightedRandom: the float roll `random() * total` over the weights 0.25/0.2/0.15/0.25/0.15 is modelled exactly with the integer weights 25/20/15/25/15. A roll that falls within a rounding error of a boundary may pick the neighbouring group in the browser.
- Prng.SeededRng.Random: mulberry32's accumulator is a growing JavaScript number. It is wrapped to 32 bits, which is exact while it stays below 2^53, far beyond one round's 577 draws.
- Session.Game.UpdateMeters: the hotspot meter is kept exactly in tenths; the floating-point sums of 0.3 are not modelled.
- Pressure.LocalSeverity: the raw score is kept exactly in halves, with no floating point.
- Session.Game.ResetGame: `Date.now()` is the `clock` parameter; `resetGame` called with a non-string seed is not modelled.
- Session.Game.TriggerIncident: only the state part; `renderIncident` is left out.
- Session.Game.constructor: models `init()` and the first `generateTiles`, with the seed as a parameter standing for the clock's digits.
- Snake.LehmerRng.constructor: starts at the corrected `SeedValue`, as does `Snake.SnakeGame.constructor`. The code as written starts at 0 when the truncating `seed % M` is `-(M - 1)`, for example for seeds -2147483646 and -4294967293. On those seeds the model's generator starts at 1 and draws 16807 first, while the code's draws are all 0. `Snake.LehmerRng.AsWritten` builds the code's start value, and every method of the class also accepts the value 0.
- Snake.SnakeGame.constructor: its generator is the corrected one, so on the seeds above its food and later draws differ from `createState`'s.
- Field.TileAt: the tile's `id` string (`${row}-${col}-${seed}`) is left out. Only rendering reads it; a tile's position in `tiles` stands for its identity.
- Snake.LehmerRng.Next: returns the numerator `value` of the draw `value / M`; callers scale it as `floor(value * n / M)`, and the floating-point rounding of `rng() * n` is not modelled.
- Snake.SnakeGame.constructor: the seed and the grid size are whole numbers; non-integer seeds or grid sizes, and the `Date.now()` default, are not modelled.
- Snake.SnakeGame.QueueDirection: a name inherited from `Object.prototype` (such as "toString") passes the `DIRECTIONS[requested]` test in JavaScript. The model treats only the four direction names as directions.
- `clonePoint`: points are values here, so there is nothing to copy.
- SubmitScore.Handle: `parseBody`, the JSON parsing of the request body, and `String(name)` of non-string names are not modelled; the body arrives as already-coerced fields.
- SubmitScore.AcceptedPayload: `Math.round` and `Number(x.toFixed(3))` are exact rational rounding, half up; floating-point representation effects are not modelled.
- The storage request of both endpoints (`fetch`, the 502 and 200 replies, the `Cache-Control` header) is not part of this model.
- Leaderboard.SafeLimit: a `limit` parameter given several times (an array) is not modelled. `parseInt`'s `-0` is the integer 0 here, which `||` treats the same way.
- `api/alchemy-rpc.js` is not part of this model; it only relays requests to an external service.

## Findings

| source | as written | input that shows it | evidently intended | confidence | as-written member | corrected member |
|---|---|---|---|---|---|---|
| snake-logic.js:18-19 | `value = seed % M; if (value <= 0) value += M - 1` with JavaScript's truncating `%` | seed -2147483646: `seed % M` is -2147483646, and adding 2147483646 gives 0; `next()` then returns 0 forever | a starting value in [1, M - 1], so that the generator never sticks at 0; `Snake.LehmerRng` and `Snake.SnakeGame` start from it | not executed | Snake.SeedValueAsWritten, Snake.SeedValueAsWrittenStuck | Snake.SeedValue |
