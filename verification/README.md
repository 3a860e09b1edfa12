# World of bits: the game logic in Dafny

A model of the deterministic core of a location-based collect-and-merge game.
The player stands in a cell of an infinite grid laid over latitude and
longitude. Cells hold numeric tokens. The player picks tokens up, drops them,
combines two tokens on a special *craft* cell, and cashes tokens in for score
on a special *score* cell. A cell's content is generated procedurally from
its id unless the player has changed it. Player changes are kept as
*overrides*: a map from the cell's key string `"x,y"` to the cell. The whole
state can be saved as a flat snapshot and loaded back, with defaults for
missing fields.

Modules, one per source file, plus three helpers:

- `Wrappers`: `Option`, for every JavaScript value that may be `undefined`.
- `Decimal`: the base-10 text of an integer, as JavaScript prints it, with a
  parser that inverts it.
- `OrderedMap`: a JavaScript `Map` as an insertion-ordered list of entries.
  `Set` replaces an existing key's value in place, or appends a new key.
- `State` (src/state.ts): cell ids, tokens, cells, the game state, and `CellKey`.
- `Grid` (src/grid.ts): point to cell, cell bounds, viewport enumeration, and Manhattan distance.
- `Rng` (src/rng.ts): threshold classification of a roll into a token, and `BaseCell`.
- `World` (src/world.ts): the override resolver `GetCell`, the render-distance filter, and the cell label.
- `Interaction` (src/main.ts): cell clicks, keyboard moves, and reset.
- `Persistence` (src/persistance.ts): the save payload, loading with defaults and repair, and the initial state.

Inputs the model cannot see are parameters:

- `noise: CellId -> real` stands for `Math.sin(seed) * 43758.5453123` with the
  seed `x*73856093 ^ y*19349663`.
- `applyScoreDelta: (Scoreboard, int) -> Scoreboard` is the score engine.
  It is taken to change only `score`, `bestScore` and `status`.
- A keyboard event is its key string.
- A stored snapshot is an `Option<SavedState>`. `None` means no save, or a save that cannot be parsed.

The declared `GameState` type in src/state.ts:22-30 lacks `bestScore`,
`status` and `headingDeg`. The code reads and writes all three, so the model's
`GameState` has them.

Three behaviours of the code that the model keeps:

- The code does not normalise the heading and has no absolute "move to" action.
  The heading is only stored and reloaded.
- `loadState` returns `undefined` when `overrides` or `playerLL` is missing,
  because reading them throws inside its `try`, and not only when the payload
  cannot be parsed. `LoadState` returns `None` in exactly those cases.
- Nothing forces the craft and score cells apart after a load. When a snapshot
  gives them the same id, the score-cell branch runs, because `isScore` is
  checked first. Only the fresh state is proved to have them distinct.

The main proved properties:

- `CellKey` is reversible and therefore injective. This is what makes a string-keyed override map sound.
- `GetCell` of a valid state always returns the cell that was asked for.
- Every click conserves token value, except a cash-in.
- A click changes only `held`, the clicked cell's override, and (on the score cell) the scoreboard.
- Every operation preserves the state invariant `Valid`: every override is
  stored under the key of its own id, no key appears twice, and both special
  cells are present.
- Loading a saved valid state gives back exactly that state.
- When a load sees several saved cells with the same id, the last one wins.
- The viewport enumeration lists exactly the cells that meet the viewport, in strict row-major order.

## Model

| member | source | states |
|---|---|---|
| `Decimal.ParseIntToString` | src/state.ts:38-40 | printing an integer in base 10 and parsing the text gives back the same integer |
| `Decimal.IntToStringInjective` | src/state.ts:38-40 | two integers print the same way exactly when they are equal |
| `State.DecodeCellKey` | src/state.ts:38-40 | splitting `cellKey(id)` at its first comma and parsing both halves recovers `id` |
| `State.CellKeyInjective` | src/state.ts:38-40 | `cellKey(a) == cellKey(b)` exactly when `a.x == b.x` and `a.y == b.y` |
| `State.CellKeyHasOneComma` | src/state.ts:38-40 | every key contains exactly one `','` |
| `State.WellKeyedGet` | src/main.ts:188-194 | in an override map where each cell sits under its own key, the override found under `cellKey(id)` is the cell `id` |
| `State.SetKeepsWellKeyed` | src/main.ts:188-194 | setting `cellKey(id)` to a cell whose id is `id` keeps every entry under its own key |
| `Grid.LatLngToCellId` | src/grid.ts:5-10 | with exact reals, the resulting cell satisfies `x*CELL <= lng < (x+1)*CELL` and `y*CELL <= lat < (y+1)*CELL` |
| `Grid.CellIdToBounds` | src/grid.ts:12-23 | the bounds are one `CELL_SIZE_DEG` high and wide, and their south-west corner maps back to the same cell |
| `Grid.PointInCellBounds` | src/grid.ts:5-23 | a point maps to cell `id` exactly when it lies in `id`'s bounds, with the south and west edges included and the north and east edges excluded |
| `Grid.Manhattan` | src/grid.ts:51-53 | the distance is a natural number, and it is 0 exactly when the two ids are equal |
| `Grid.ManhattanSymmetric` | src/grid.ts:51-53 | the distance is symmetric |
| `Grid.ManhattanTriangle` | src/grid.ts:51-53 | the distance satisfies the triangle inequality |
| `Grid.CornerRectIsViewport` | src/grid.ts:39-40 | a cell lies in the rectangle between the two corner cells exactly when its box meets the viewport |
| `Grid.RowsLength` | src/grid.ts:43-47 | the rectangle's listing has `width * height` cells, and none when `min > max` on either axis |
| `Grid.RowsMembers` | src/grid.ts:43-47 | the rectangle's listing holds exactly the cells with `min.x <= x <= max.x` and `min.y <= y <= max.y` |
| `Grid.RowsOrdered` | src/grid.ts:43-47 | the listing is strictly increasing in row-major order: y first, then x |
| `Grid.EnumerateCellsInBounds` | src/grid.ts:33-49 | the result lists exactly the cells that meet the viewport, in strict row-major order, and there are `(max.x-min.x+1)*(max.y-min.y+1)` of them |
| `Grid.OrderedHasNoDuplicates` | src/grid.ts:43-47 | a listing in strict row-major order has no duplicates |
| `Rng.Frac` | src/rng.ts:5-8 | `x - floor(x)` lies in `[0,1)` and differs from `x` by an integer |
| `Rng.Luck` | src/rng.ts:5-8 | the roll of every cell lies in `[0,1)` |
| `Rng.TokenForRoll` | src/rng.ts:15-18 | there is no token exactly when the roll is below 0.5; any token has value 1, 2 or 4 |
| `Rng.TokenForRollBands` | src/rng.ts:15-18 | a roll in `[0.5,0.8)` gives 1, a roll in `[0.8,0.95)` gives 2, and a roll of at least 0.95 gives 4 |
| `Rng.TokenForRollMonotone` | src/rng.ts:15-18 | a larger roll never gives a smaller value, counting no token as 0 |
| `Rng.BaseTokenForCell` | src/rng.ts:11-19 | every generated token is positive |
| `Rng.BaseCell` | src/rng.ts:21-24 | the base cell keeps the id it was asked for, and its token is 1, 2 or 4 if present |
| `Rng.BaseCellDependsOnlyOnOwnNoise` | src/rng.ts:11-13 | the base content depends only on the hash of the cell's own id |
| `World.GetCell` | src/world.ts:95-99 | in a well-keyed state the resolved cell is the cell `id` |
| `World.OverrideShadowsBase` | src/world.ts:96-98 | a present override is returned, and an override with no token hides a token that the base cell would show |
| `World.LabelOf` | src/world.ts:120-142 | the label drawn for a cell of a state: the value of the token shown there (with or without an override), else "C" on the craft cell, else a star on the score cell, else nothing |
| `World.NoOverrideShowsBase` | src/world.ts:98 | without an override, the base cell is returned |
| `World.OverridePrecedence` | src/world.ts:95-99 | after an override is written at `id`, `getCell(id)` returns it whatever the generator gives, and every other cell resolves as before |
| `World.RenderedIds` | src/world.ts:113-118 | a cell is drawn exactly when it is in the enumerated list and within 20 cells of the player on both axes |
| `World.CellLabel` | src/world.ts:135-142 | a cell with a token shows its value, and that text parses back to the value; otherwise the craft cell shows "C" and then the score cell a star; otherwise there is no label |
| `Interaction.SameCell` | src/main.ts:108-110 | comparing components agrees with comparing `cellKey`s |
| `Interaction.SetOverrideEmpty` | src/main.ts:188-190 | the override at `cellKey(id)` becomes an empty cell `id`; no other key and no other field changes; the state invariant is kept |
| `Interaction.SetOverrideToken` | src/main.ts:192-194 | the override at `cellKey(id)` becomes cell `id` holding `value`; no other key and no other field changes; the state invariant is kept |
| `Interaction.HandleCellClick` | src/main.ts:112-184 | a click after winning or out of range changes nothing. Every click leaves the position, heading, special ids and every other cell's override alone. Off the score cell it keeps the scoreboard and conserves held value plus cell value. It preserves the state invariant |
| `Interaction.ScoreCellClick` | src/main.ts:125-136 | on the score cell, a held token is passed to `applyScoreDelta`, the hand is emptied and the cell is left empty; with nothing held nothing changes |
| `Interaction.CraftCellClick` | src/main.ts:143-165 | on the craft cell: pickup empties the cell into the hand; drop puts the held token there; combine stores the sum and empties the hand; with neither, nothing changes |
| `Interaction.OrdinaryCellClick` | src/main.ts:169-184 | on an ordinary cell, only pickup and drop happen; when both or neither of hand and cell hold a token, nothing changes |
| `Interaction.CombineOnCraftCell` | src/main.ts:152-156 | combining a held `a` with a craft cell holding `b` leaves `a + b` in the cell and an empty hand |
| `Interaction.CombineCommutes` | src/main.ts:152-156 | the combined cell is the same whichever of the two tokens was held |
| `Interaction.PickUpThenDrop` | src/main.ts:143-184 | picking a token up and clicking the same cell again puts the same token back and empties the hand |
| `Interaction.ClickKeepsTokensPositive` | src/main.ts:143-184 | if every held or overridden token is positive before a click, the same holds after it |
| `Interaction.KeyStep` | src/main.ts:61-84 | ArrowUp/w/W step north (0, 1), ArrowDown/s/S south (0, -1), ArrowLeft/a/A west (-1, 0), ArrowRight/d/D east (1, 0); every other key gives no step |
| `Interaction.MoveByKey` | src/main.ts:56-92 | an up key adds `CELL_SIZE_DEG` to the latitude and leaves the longitude, so the player's cell moves one row north; down, left and right move one cell south, west and east the same way; only `playerLL` changes, and every other key changes nothing |
| `Interaction.Reset` | src/main.ts:36-46 | after reset, every field equals the initial state's except `headingDeg`, which is kept; the result is valid |
| `Persistence.SaveCells` | src/persistance.ts:34-40 | one saved cell per override entry, in insertion order, with the same id and token |
| `Persistence.SaveState` | src/persistance.ts:33-52 | the payload lists every override's id and token in order, and carries `headingDeg` exactly when it is defined, with the same value |
| `Persistence.RebuildOverrides` | src/persistance.ts:68-74 | the rebuilt map stores each cell under its own key, with no key twice |
| `Persistence.RebuildLastWins` | src/persistance.ts:68-74 | the rebuilt override for `id` is the last saved cell with that id, or none if there is none |
| `Persistence.EnsureOverride` | src/persistance.ts:85-96 | afterwards the special id is an override key; an existing entry for it is not overwritten; a missing one becomes an empty cell; no other key changes |
| `Persistence.LoadState` | src/persistance.ts:61-117 | a state is produced exactly when a payload with `overrides` and `playerLL` is given, and every produced state is valid |
| `Persistence.LoadDefaults` | src/persistance.ts:76-113 | a missing `score` becomes 0, a missing `bestScore` the loaded score, and a missing `status` "playing"; missing craft and score ids become the player's cell plus (1,0) and plus (0,1); present fields are copied |
| `Persistence.LoadedOverrides` | src/persistance.ts:68-96 | after load, each cell's override is the last saved one; if none was saved, it is an empty cell for the two special ids and absent otherwise |
| `Persistence.RebuildSaved` | src/persistance.ts:33-74 | rebuilding the saved override list of a well-keyed map with distinct keys gives back the same map, in the same order |
| `Persistence.LoadSaveRoundTrip` | src/persistance.ts:33-113 | loading the payload saved from a valid state gives back that state |
| `Persistence.LoadSaveLoadStable` | src/persistance.ts:33-113 | saving and reloading a loaded state changes nothing |
| `Persistence.OriginCell` | src/state.ts:33-36 | with exact reals, the starting location lies in cell (-610315, 184948) |
| `Persistence.CreateInitialState` | src/persistance.ts:119-141 | the player is at the origin. The craft cell is the player's cell plus (1,0) and the score cell plus (0,1), and they differ. The overrides are exactly those two empty cells. Score and best score are 0, status is "playing", and held and heading are absent. The state is valid |
| `Persistence.StartState` | src/main.ts:26 | the session starts from the loaded state if there is one, otherwise from a fresh state, and it is valid either way |

## Left out

- Leaflet and the DOM are left out: the map, tiles, markers, tooltips, rectangles, event wiring and the HUD (`updateHud`). These are calls into libraries and the page.
- `World.renderCells` is modelled only through its pure parts: the distance filter and the label. The write-only `visible` map and the drawing calls are left out.
- `localStorage`, `JSON.stringify`, `JSON.parse` and their `try`/`catch` are left out. The payload is the `SavedState` record, and an unreadable save is `None`. `clearSavedState` only removes the stored string, so it is left out too.
- The floating-point hash in `luck` (`Math.sin`) and the seed's JavaScript integer coercion (`*` then `^`) are the `noise` parameter. Only its fractional part and the thresholds are modelled.
- IEEE rounding is left out. `Grid.LatLngToCellId`, `Grid.CellIdToBounds`, `Grid.PointInCellBounds`, `Interaction.MoveByKey` and `Persistence.OriginCell` hold for exact reals. The source divides and multiplies doubles.
- Integers are unbounded. JavaScript prints integers of magnitude 1e21 or more in exponent form, which `CellKey` does not model.
- `applyScoreDelta` and `TARGET_SCORE` are not part of this model. No property about best score or winning is proved.
- `Interaction.HandleCellClick` states no conservation of token value for a cash-in. The held value goes into the score engine, whose arithmetic is not modelled.
- `World.GetCell` promises that the returned cell has the requested id only for well-keyed override maps. A hand-built map that stores a cell under another cell's key can break this. Every state built by the modelled operations is well-keyed.
- Heading normalisation is left out because the code does not do any.
