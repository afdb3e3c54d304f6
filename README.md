# market-craft build engine and hotbar, in Dafny

This project models two parts of market-craft.

The first is the grid build engine that `Builder.create` returns (`build.js`). The world is cut into one-metre cells. Two maps record what is built:
- `solids` maps each cell to the placement that occupies it;
- `placed` maps each placement's reference key to the placement itself.

Placing a block or a piece of furniture is checked against the parcel bounds, the height limit, free cells and support. A successful placement takes one unit of the item from the shared inventory counts, and breaking gives that unit back. When it is created, the builder lays a starter platform: a 6 x 6 floor, one wall and one glass block.

The second part is the inventory and hotbar (`inventory.js`). It holds the list of items and a count of 99 for each. It also tracks the selected index, kept inside the item range, and the ten-slot page that holds it.

The model is organised by module:
- `Catalog` holds the item ids and the furniture footprint table that the engine reads.
- `Hotbar` holds the item list and the `Inventory` class.
- `Grid` states the engine's state, its placement rules and its place and break transitions as functions on values.
- `GridProofs` proves the engine's invariant, stock conservation and the fact that break undoes place.
- `Build` holds the `Builder` class. Its fields are the closure state of `create`, and its methods are proved against the `Grid` transitions.
- `JsNumbers` holds the JavaScript integer operations the code relies on: `clamp`, `|0` and `%`.

## Model

| member | source | states |
|---|---|---|
| JsNumbers.Clamp | inventory.js:7 | The result lies in [lo, hi] when the range is non-empty. A value inside the range is returned unchanged, and values below or above it go to the nearer bound. For an empty range (hi < lo) the result is lo, as `Math.max` decides last. |
| JsNumbers.ToInt32 | inventory.js:46 | `idx\|0` is a signed 32-bit integer congruent to idx modulo 2^32. It equals idx when idx already fits in 32 bits. |
| JsNumbers.JsRem | inventory.js:61 | JavaScript `%` takes the sign of the dividend. A non-negative dividend gives a result in [0, n), a negative one a result in (-n, 0]. The dividend minus the result is a multiple of n, which together with the range fixes the truncated remainder. |
| Catalog.FindDef | catalog.js:104-105 | A lookup in the table built from `FURNITURE` finds nothing exactly when no entry has the id. What it finds is an entry of the list that has that id. |
| Catalog.FindDefLast | catalog.js:104-105 | The entry found is the last one with that id, because later entries overwrite earlier ones when the table is built. |
| Catalog.FurnById | catalog.js:46-105 | A known id yields a catalog entry with that id and a footprint of at least 1 x 1. |
| Catalog.FurnByIdTable | catalog.js:46-105 | Every catalog entry is found under its own id, and none of the six block ids is known to the table. |
| Catalog.FurnByIdKnows | catalog.js:104-105 | The table knows an id exactly when it is not a block id. |
| Catalog.HeightCells | build.js:201 | `max(1, ceil(height))` is the least whole number of one-metre layers, at least one, that covers the piece's height. |
| Catalog.Quarter | build.js:190 | The quarter index `& 3` is in 0..3 and congruent to the rotation count modulo 4. |
| Catalog.FootprintRotation | build.js:191-192 | A half turn keeps the footprint, and a quarter turn swaps width and depth. The footprint area never changes. |
| Catalog.CatalogGeometry | catalog.js:46-102 | Gives the footprint and height layers of each of the six pieces, e.g. the cashier counter is 3 x 2 and two layers high and the aisle shelf 2 x 1 and three layers high. |
| Hotbar.ItemsLayout | inventory.js:11-28 | The hotbar has twelve items: the six block items, then one furniture item per catalog entry in catalog order. |
| Hotbar.EveryIdListed | inventory.js:28-31 | Every item id of the game appears in the hotbar, so every id gets a count. |
| Hotbar.ItemsListed | inventory.js:11-28 | The hotbar written out in full, in order. |
| Hotbar.ItemKindsMatchCatalog | inventory.js:11-28 | An item is of the block kind exactly when the furniture catalog does not know its id. |
| Hotbar.PageStartOf | inventory.js:37-39 | The page start is a multiple of the page size 10, and the selection lies within that page. |
| Hotbar.CycleInRange | inventory.js:59-63 | From a valid index, a step of at least -n leads to a valid index, and that index is the residue of sel + dir modulo n: adding n before the JavaScript remainder repairs its sign. |
| Hotbar.CycleStep | inventory.js:59-63 | On the twelve items, a step forward or back reaches the neighbour and wraps at either end. |
| Hotbar.CycleWraps | inventory.js:59-63 | Forward from the last item wraps to the first and back from the first wraps to the last. A step forward then back, or back then forward, returns to the start. |
| Hotbar.Inventory.constructor | inventory.js:28-35 | Every item id has a count of 99, the first item is selected and the first page is shown. |
| Hotbar.Inventory.UpdatePage | inventory.js:37-39 | The page start becomes the multiple of 10 whose page holds the selection. |
| Hotbar.Inventory.SelectedItem | inventory.js:41-43 | The selected item is always one of the hotbar items, the one at the selected index. |
| Hotbar.Inventory.SetSelected | inventory.js:45-48 | The selection becomes the index truncated to 32 bits and clamped to the item range. An index already in range is taken as is. The page follows the selection. |
| Hotbar.Inventory.SetSelectedInPage | inventory.js:50-57 | Succeeds exactly when page start plus slot is a valid index, and then selects it. Otherwise selection and page are unchanged. |
| Hotbar.Inventory.Cycle | inventory.js:59-63 | The selection becomes the wrapped index `(sel + dir + n) % n`, and the selection and page invariant is kept. |
| Grid.MaxY | build.js:148 | `parcel.maxY \|\| 24`: a zero limit (a missing one is modelled as 0) reads as 24, a non-zero limit is taken as given, so the limit is never 0. |
| Grid.ParcelColumns | build.js:111-113 | `cellInParcel`: only a non-empty parcel holds a column, and there a column is in the parcel exactly when clamping it into the bounds leaves it where it is. |
| Grid.MarkAll | build.js:119-123 | After marking, the marked cells map to the new occupant and every other cell keeps its entry. |
| Grid.UnmarkAll | build.js:125-129 | After unmarking, exactly the listed cells are gone and every other entry is unchanged. |
| Grid.PlaceBlock | build.js:153-177 | A block placement succeeds exactly when the block rule holds and the count is positive. On failure nothing changes. On success one unit is taken and exactly the one cell is added to the occupancy. |
| Grid.PlaceFurniture | build.js:218-262 | A furniture placement succeeds exactly when the id is in the catalog, the furniture rule holds and the count is positive. On failure nothing changes. On success one unit is taken. |
| Grid.BreakByRefKey | build.js:264-277 | Breaking succeeds exactly when the key is placed. On failure nothing changes. On success exactly that key leaves `placed`, exactly the instance's cells leave `solids` with every other entry kept, and one unit of its item is credited, starting from 0 when the count is missing. |
| GridProofs.ColumnCellsExact | build.js:250-252 | The y loop collects exactly the cells of the column from the origin height up to h layers. |
| GridProofs.RowCellsExact | build.js:249-253 | The z and y loops collect exactly the cells of the fd columns at one x offset. |
| GridProofs.BoxCellsExact | build.js:248-255 | The cells a piece occupies are exactly those of the fw x h x fd box at its origin. |
| GridProofs.ColumnCellsCount | build.js:250-252 | A column has h cells. |
| GridProofs.RowCellsCount | build.js:249-253 | A row of columns has fd * h cells. |
| GridProofs.BoxCellsCount | build.js:248-255 | The loops collect fw * fd * h cells, as many as the box holds, so with `BoxCellsExact` each box cell is listed once. |
| GridProofs.FootprintCellsFree | build.js:195-212 | When the furniture rule holds, every cell the piece will occupy is free, and the origin is one of them. |
| GridProofs.FurnitureNeedsCellBeneath | build.js:207-209 | Above the ground, furniture whose origin has nothing directly beneath it cannot be placed. Side neighbours do not support furniture. |
| GridProofs.AnchorMarked | build.js:166-174 | In a valid state, the cell a key names is occupied, and occupied under that key. |
| GridProofs.FreshKey | build.js:166-174 | In a valid state, a key whose cell is free is not placed, so a successful placement never overwrites a live instance. |
| GridProofs.SolidIffCovered | build.js:115-117 | In a valid state, a cell is solid exactly when some live instance lists it among its cells. |
| GridProofs.AddInstanceKeepsValid | build.js:170-174 | Recording a new well-keyed instance on free cells and taking one unit keeps the engine invariant. |
| GridProofs.PlaceBlockKeepsValid | build.js:153-177 | Block placement keeps the engine invariant: occupancy and placements agree both ways and counts stay non-negative. |
| GridProofs.PlaceFurnitureKeepsValid | build.js:218-262 | Furniture placement keeps the engine invariant. |
| GridProofs.BreakKeepsValid | build.js:264-277 | Breaking keeps the engine invariant. |
| GridProofs.LiveCountInsert | build.js:171 | Adding a new key adds one live placement to its item only. |
| GridProofs.LiveCountRemove | build.js:268 | Removing a key takes one live placement from its item only. |
| GridProofs.PlaceBlockConserves | build.js:153-177 | For every item, units in the register plus units standing in the world are the same before and after a block placement. |
| GridProofs.PlaceFurnitureConserves | build.js:218-262 | The same conservation of stock holds for furniture placement. |
| GridProofs.BreakConserves | build.js:264-277 | The same conservation of stock holds for breaking. |
| GridProofs.UnmarkAfterMark | build.js:119-129 | Unmarking cells that were free before they were marked restores the occupancy map. |
| GridProofs.MarkAllSnoc | build.js:119-123 | Marking one more cell is one more map update. |
| GridProofs.UnmarkAllSnoc | build.js:125-129 | Unmarking one more cell is one more removal. |
| GridProofs.RefundUndoesTake | build.js:264-277 | Crediting a unit after taking one restores the counts. |
| GridProofs.BreakUndoesRecord | build.js:264-277 | Breaking a freshly recorded instance on free cells restores the exact prior state. |
| GridProofs.PlaceFurnitureCommits | build.js:245-261 | A furniture placement that passes its checks records the instance under its key, with the box cells, and takes one unit. |
| GridProofs.BreakUndoesPlaceBlock | build.js:153-177 | In a valid state, breaking the key of a block just placed restores occupancy, placements and counts exactly. |
| GridProofs.BreakUndoesPlaceFurniture | build.js:218-277 | In a valid state, breaking the key of furniture just placed restores the state exactly. |
| GridProofs.BreakUndoesFreshFurniture | build.js:218-277 | The same round trip holds when only the key and the cells are known to be fresh. |
| GridProofs.PlaceBlockMarksCell | build.js:166-174 | A successful block placement maps its one cell to the block's own key and records the block instance under that key; everything else is kept. |
| GridProofs.PlaceFurnitureMarksBox | build.js:248-259 | After a furniture placement, each cell of the rotated box is occupied under the new key. |
| Build.TurnsUndo | build.js:369-370 | A left turn and a right turn undo each other, and both keep the index in 0..3. |
| Build.ResidueStep | build.js:369-370 | Taking the residue first does not change the next residue, so turns compose. |
| Build.TurnTimes | build.js:369-370 | n right turns add n quarters and n left turns subtract n quarters, modulo 4. |
| Build.QuarterCircle | build.js:369-370 | Four quarters either way is a whole circle. |
| Build.FourTurns | build.js:369-370 | Four turns in the same direction return to the starting rotation. |
| Build.ClampCell | build.js:335-337 | Each coordinate is clamped on its own to its nearer bound: x into [minX, maxX], z into [minZ, maxZ], y into [0, maxY]. The result therefore lies in the parcel and the height range, and a candidate already inside is left as it is. |
| Build.BlockItemsAreBlockTypes | build.js:289-292 | Every block item of the hotbar carries a block type id. |
| Build.ItemPlaceable | build.js:289-297 | The `can` of the selected definition, the block rule or the furniture rule by item kind. Whatever it accepts is a free cell in the parcel within the height limit. |
| Build.PlaceItem | build.js:289-297 | Placing the selected definition succeeds only where its own rule held. |
| Build.FloorCellAt | build.js:387-391 | The n-th floor cell of the two loops is (minX + n/6, 0, minZ + n%6). |
| Build.FloorState | build.js:387-391 | Laying floors keeps every item's count present. |
| Build.StarterState | build.js:387-394 | The starter platform keeps every item's count present. |
| Build.TopState | build.js:392-393 | Placing the wall and the glass keeps every item's count present. |
| Build.FloorStep | build.js:387-391 | With stock and the earlier floors laid, the next floor placement succeeds, adds its cell and takes one floor. |
| Build.FloorStateLays | build.js:387-391 | n floor placements on empty ground occupy exactly the first n floor cells and take n floors. |
| Build.FloorStateKeepsValid | build.js:387-391 | The floor loops keep the engine invariant. |
| Build.WallOnFloor | build.js:392 | With the floor laid and a wall in stock, the wall placement at (minX+2, 1, minZ+2) succeeds, because the floor supports it. |
| Build.GlassBesideWall | build.js:393 | Next, the glass placement at (minX+3, 1, minZ+2) succeeds, supported by the floor. |
| Build.TopOnFloor | build.js:392-393 | On the finished floor, the wall and the glass add exactly their two cells and take one unit each. |
| Build.StarterPlatform | build.js:387-394 | On an empty grid with enough stock, the platform occupies exactly the 36 floor cells, the wall cell and the glass cell. It uses 36 floors, 1 wall and 1 glass. |
| Build.StarterKeepsValid | build.js:387-394 | The starter platform keeps the engine invariant whatever the stock. |
| Build.Builder.constructor | build.js:70-103 | `create` starts with build mode off, rotation 0 and the ghost invalid, then lays the starter platform over the given inventory. The invariant holds, and with enough stock the exact cells and counts of `StarterPlatform` follow. |
| Build.Builder.LayStarterPlatform | build.js:387-394 | The two floor loops and the two single placements produce the starter state. |
| Build.Builder.LayFloor | build.js:387-391 | The two nested loops perform the 36 floor placements in order. |
| Build.Builder.LayFloorRow | build.js:388-390 | One pass of the z loop performs six more floor placements. |
| Build.Builder.LayFloorCell | build.js:389 | One floor placement, the next in order. |
| Build.Builder.SetBuildMode | build.js:104-109 | Build mode becomes the flag given, and the builder invariant is kept. |
| Build.Builder.IsSolidAt | build.js:115-117 | A cell is solid exactly when some live instance covers it. |
| Build.Builder.MarkCells | build.js:119-123 | The loop marks every listed cell with the occupant and keeps every other entry. |
| Build.Builder.UnmarkCells | build.js:125-129 | The loop removes exactly the listed cells. |
| Build.Builder.ComputeSupportOK | build.js:131-144 | Returns true exactly when the cell is on the ground or one of its five neighbours (below, plus or minus x, plus or minus z) is occupied. |
| Build.Builder.CanPlaceBlock | build.js:146-151 | Returns true exactly when the column is in the parcel, the height is 0..maxY, the cell is free and the cell is supported. |
| Build.Builder.Record | build.js:170-176 | Stores the instance, marks its cells and takes one unit. |
| Build.Builder.PlaceBlock | build.js:153-177 | New state and result are exactly the block transition of `Grid.PlaceBlock`. |
| Build.Builder.FurnitureCells | build.js:248-255 | The three nested loops collect exactly the box cells in loop order. |
| Build.Builder.PushRow | build.js:249-253 | One x iteration appends that row's columns. |
| Build.Builder.PushColumn | build.js:250-252 | One z iteration appends that column's layers. |
| Build.Builder.CanPlaceFurniture | build.js:179-216 | The early-return loops decide exactly the furniture rule: a known id, origin in the parcel at height 0..maxY, every footprint column in the parcel with all layers free, and above the ground a solid cell beneath every column. |
| Build.Builder.PlaceFurniture | build.js:218-262 | New state and result are exactly the furniture transition of `Grid.PlaceFurniture`. |
| Build.Builder.BreakByRefKey | build.js:264-277 | New state and result are exactly the break transition of `Grid.BreakByRefKey`. |
| Build.Builder.RotateLeft | build.js:369 | The rotation index takes one left turn and stays in 0..3. |
| Build.Builder.RotateRight | build.js:370 | The rotation index takes one right turn and stays in 0..3. |
| Build.Builder.UpdateGhost | build.js:299-349 | Outside build mode nothing changes. With no hit the ghost becomes invalid. Otherwise the ghost takes the clamped cell, the selected item, the current quarter, and the validity of that item's rule at that cell. |
| Build.Builder.TryPlace | build.js:351-355 | Outside build mode or with an invalid ghost, nothing happens. Otherwise the ghost's item is placed at the ghost's cell and rotation, rechecked against the current state. The invariant is kept. |
| Build.Builder.TryBreak | build.js:357-367 | Outside build mode, or when the ray hit nothing placed, nothing happens. Otherwise the hit key is broken and the invariant is kept. |
| Build.StarterScenario | main.js:27-63 | The game's start-up, a fresh inventory on the parcel [-10, 10] x [-10, 10] with maxY 16, leaves 63 floors, 98 walls and 98 glass blocks. |

## Left out

- Rendering is not modelled: meshes, materials, the grid helper, the parcel boundary box and the ghost's scale, position and colour. None of it affects the occupancy state.
- Raycasting is not modelled (`getIntersections`, and the face-normal offset and `Math.floor` snapping of `updateGhost`, build.js:279-285 and 316-332). It is floating-point scene geometry. `UpdateGhost` takes the snapped integer candidate cell as a parameter, and `TryBreak` takes what the ray hit as a parameter.
- `updateDynamic` and the automatic sliding door (build.js:372-380, catalog.js) are not modelled. They animate meshes and do not touch occupancy or counts.
- `hasSolidAt` (build.js:383-385) is the same membership test as `isSolidAt`. `Build.Builder.IsSolidAt` stands for both.
- main.js, world.js and ui.js are not modelled beyond the start-up in `StarterScenario`. Parcel expansion (main.js:118-119) is left out: the parcel is a constant of the builder.
- String keys are not modelled as strings. `gx|gy|gz` cell keys and `...|f|id|r|q` reference keys are datatypes, which name each cell and each placement exactly once. Item id strings are an enumeration of the twelve ids.
- The hotbar is fixed at the twelve items the catalog defines. The fallback of inventory.js:21, under which a missing furniture catalog leaves only the six block items, is not modelled: the model takes the catalog as present.
- Item names and icons are left out, and so are catalog prices and mesh builders.
- Furniture heights are whole centimetres rather than floating-point metres. All six catalog heights (1.05, 2.2, 0.22, 1.65 m) are exact in centimetres.
- The `def` stored in the ghost is modelled as the selected hotbar item. The place function it carries follows from the item's kind.
- Furniture rotation is modelled as a whole number of quarter turns, which is all the game produces. `Math.round(rotY / (pi/2)) & 3` is then the quarter modulo 4.
- Hotbar.Inventory.Cycle: requires `dir >= -n`. For a more negative `dir` the JavaScript `%` yields a negative index, which the model does not follow. The game only passes +1 and -1.
- Build.Builder.PlaceBlock: requires a block type id. With any other id the source returns false as usual when `canPlaceBlock` fails or the count is not positive (build.js:154-155), but once both checks pass it throws in `makeBlockMesh` (build.js:21-22), a path the model does not follow. The only callers are the starter platform and block items, and `BlockItemsAreBlockTypes` proves that every block item satisfies this.
- Build.Builder.PlaceBlock: the engine invariant is not part of its contract, and the same holds for `Build.Builder.PlaceFurniture` and `Build.Builder.BreakByRefKey`. Their callers `TryPlace` and `TryBreak` keep it, through `PlaceBlockKeepsValid`, `PlaceFurnitureKeepsValid` and `BreakKeepsValid`.
- Grid.PlaceBlock: its contract states the success condition, the counts and which cells are occupied. The exact map entries are stated by `PlaceBlockMarksCell`.
- Grid.PlaceFurniture: its contract states the success condition and the counts. Which cells are occupied is stated by `PlaceFurnitureCommits` and `PlaceFurnitureMarksBox`.
- Counts that are `undefined` or `NaN` are not modelled. Every id has a count from the start, and the model keeps counts as integers. `BreakByRefKey` still models the `|| 0` default.
