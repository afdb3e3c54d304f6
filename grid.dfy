/**
 * The occupancy model of the build engine as values: integer cells, the
 * `solids` map from a cell to the placement occupying it, the `placed` map
 * from a reference key to the placement instance, and the inventory count
 * register. The placement rules and the place/break transitions are stated
 * here as functions; the Builder class proves its imperative steps against them.
 */
module Grid {
  import opened Wrappers
  import opened Catalog
  import opened JsNumbers

  /** A one-metre grid cell. It replaces the string key `gx|gy|gz`, which names each cell exactly once. */
  datatype Cell = Cell(x: int, y: int, z: int)

  /** The buildable parcel: inclusive x and z bounds and the height limit as given by the caller. */
  datatype Parcel = Parcel(minX: int, maxX: int, minZ: int, maxZ: int, maxY: int)

  /** `parcel.maxY || 24`: a zero height limit reads as 24; a missing limit is modelled as 0. */
  function MaxY(p: Parcel): (m: int)
    ensures m != 0
    ensures p.maxY != 0 ==> m == p.maxY
    ensures p.maxY == 0 ==> m == 24
  {
    if p.maxY == 0 then 24 else p.maxY
  }

  /** `cellInParcel`: the column (x, z) lies inside the inclusive parcel bounds. */
  predicate CellInParcel(p: Parcel, x: int, z: int)
  {
    p.minX <= x <= p.maxX && p.minZ <= z <= p.maxZ
  }

  /**
   * Only a non-empty parcel holds a column, and there the columns it holds are
   * exactly those that clamping into its bounds leaves where they are.
   */
  lemma ParcelColumns(p: Parcel, x: int, z: int)
    ensures CellInParcel(p, x, z) ==> p.minX <= p.maxX && p.minZ <= p.maxZ
    ensures p.minX <= p.maxX && p.minZ <= p.maxZ ==>
              (CellInParcel(p, x, z) <==> Clamp(x, p.minX, p.maxX) == x && Clamp(z, p.minZ, p.maxZ) == z)
  {
  }

  /** The `type` / `kind` tag of an occupancy entry and of an instance. */
  datatype PlacementKind = Block | Furniture

  /**
   * A placement's reference key: a block is keyed by its cell; a piece of
   * furniture by its origin cell, its id and its quarter rotation
   * (`gx|gy|gz|f|id|r|q`).
   */
  datatype RefKey = BlockRef(cell: Cell) | FurnRef(origin: Cell, id: ItemId, quarter: int)

  /** A `solids` entry: `{refKey, type}`. */
  datatype Occupant = Occupant(refKey: RefKey, kind: PlacementKind)

  /** A `placed` entry: `{kind, id, cells, rotY}` with `rotY = rot * pi/2`. */
  datatype Instance = Instance(kind: PlacementKind, id: ItemId, cells: seq<Cell>, rot: int)

  /** The state the engine mutates: `solids`, `placed` and the shared `inventory.counts`. */
  datatype GridState = GridState(solids: map<Cell, Occupant>, placed: map<RefKey, Instance>, counts: map<ItemId, int>)

  /** `counts[id] || 0`. */
  function CountOf(counts: map<ItemId, int>, id: ItemId): int
  {
    if id in counts then counts[id] else 0
  }

  // ---------------------------------------------------------------- markCells / unmarkCells

  /** `markCells`: every cell of `cells` now maps to `occ`; every other entry is kept. */
  function MarkAll(m: map<Cell, Occupant>, occ: Occupant, cells: seq<Cell>): (r: map<Cell, Occupant>)
    ensures forall c :: c in r <==> c in m || c in cells
    ensures forall c :: c in cells ==> r[c] == occ
    ensures forall c :: c in m && c !in cells ==> r[c] == m[c]
  {
    m + map c | c in cells :: occ
  }

  /** `unmarkCells`: every cell of `cells` is removed; every other entry is kept. */
  function UnmarkAll(m: map<Cell, Occupant>, cells: seq<Cell>): (r: map<Cell, Occupant>)
    ensures forall c :: c in r <==> c in m && c !in cells
    ensures forall c :: c in r ==> r[c] == m[c]
  {
    m - set c | c in cells
  }

  // ---------------------------------------------------------------- block rule

  /** The five cells that can support a block: below, +x, -x, +z, -z, in the order the code tries them. */
  function SupportCells(c: Cell): seq<Cell>
  {
    [Cell(c.x, c.y - 1, c.z), Cell(c.x + 1, c.y, c.z), Cell(c.x - 1, c.y, c.z),
     Cell(c.x, c.y, c.z + 1), Cell(c.x, c.y, c.z - 1)]
  }

  /** Block support: on the ground, or next to an occupied cell below or at the same height on x or z. */
  predicate BlockSupported(solids: map<Cell, Occupant>, c: Cell)
  {
    || c.y == 0
    || Cell(c.x, c.y - 1, c.z) in solids
    || Cell(c.x + 1, c.y, c.z) in solids
    || Cell(c.x - 1, c.y, c.z) in solids
    || Cell(c.x, c.y, c.z + 1) in solids
    || Cell(c.x, c.y, c.z - 1) in solids
  }

  /** A block may go at `c`: column in the parcel, 0 <= y <= maxY, cell free, and supported. */
  predicate BlockPlaceable(p: Parcel, solids: map<Cell, Occupant>, c: Cell)
  {
    CellInParcel(p, c.x, c.z) && 0 <= c.y <= MaxY(p) && c !in solids && BlockSupported(solids, c)
  }

  // ---------------------------------------------------------------- furniture rule

  /**
   * One footprint column of a piece with origin `o` and `h` height layers:
   * inside the parcel, all its layers free, and, above the ground, the cell
   * directly beneath it occupied (neighbours at the side do not count).
   */
  predicate ColumnClear(p: Parcel, solids: map<Cell, Occupant>, o: Cell, cx: int, cz: int, h: nat)
  {
    && CellInParcel(p, cx, cz)
    && (forall cy :: o.y <= cy < o.y + h ==> Cell(cx, cy, cz) !in solids)
    && (o.y > 0 ==> Cell(cx, o.y - 1, cz) in solids)
  }

  /** Every column of the `fw` x `fd` footprint anchored at `o` is clear. */
  predicate FootprintClear(p: Parcel, solids: map<Cell, Occupant>, o: Cell, fw: nat, fd: nat, h: nat)
  {
    forall cx, cz :: o.x <= cx < o.x + fw && o.z <= cz < o.z + fd ==> ColumnClear(p, solids, o, cx, cz, h)
  }

  /**
   * A piece of furniture may go at origin `o` with rotation `rot`: its id is in
   * the catalog, the origin column is in the parcel, 0 <= o.y <= maxY (upper
   * layers are not checked against maxY), and the rotated footprint is clear.
   */
  predicate FurniturePlaceable(p: Parcel, solids: map<Cell, Occupant>, id: ItemId, o: Cell, rot: int)
  {
    match FurnById(id)
    case None => false
    case Some(def) =>
      var q := Quarter(rot);
      && CellInParcel(p, o.x, o.z)
      && 0 <= o.y <= MaxY(p)
      && FootprintClear(p, solids, o, RotatedWidth(def, q), RotatedDepth(def, q), HeightCells(def.heightCm))
  }

  /** The cells of one column, bottom to top. */
  function ColumnCells(o: Cell, dx: int, dz: int, h: nat): seq<Cell>
  {
    if h == 0 then [] else ColumnCells(o, dx, dz, h - 1) + [Cell(o.x + dx, o.y + h - 1, o.z + dz)]
  }

  /** The columns at offset `dx`, for z offsets 0 .. fd-1. */
  function RowCells(o: Cell, dx: int, fd: nat, h: nat): seq<Cell>
  {
    if fd == 0 then [] else RowCells(o, dx, fd - 1, h) + ColumnCells(o, dx, fd - 1, h)
  }

  /** The cells a piece occupies, in the order of the x, z, y loops that collect them. */
  function BoxCells(o: Cell, fw: nat, fd: nat, h: nat): seq<Cell>
  {
    if fw == 0 then [] else BoxCells(o, fw - 1, fd, h) + RowCells(o, fw - 1, fd, h)
  }

  /** `c` lies in [o.x, o.x+fw) x [o.y, o.y+h) x [o.z, o.z+fd). */
  predicate InBox(o: Cell, fw: int, fd: int, h: int, c: Cell)
  {
    o.x <= c.x < o.x + fw && o.y <= c.y < o.y + h && o.z <= c.z < o.z + fd
  }

  /** The reference key and cells a piece of furniture would get at `o` with rotation `rot`. */
  function FurnitureKey(id: ItemId, o: Cell, rot: int): RefKey
  {
    FurnRef(o, id, Quarter(rot))
  }

  function FurnitureCellsOf(def: FurnDef, o: Cell, rot: int): seq<Cell>
  {
    var q := Quarter(rot);
    BoxCells(o, RotatedWidth(def, q), RotatedDepth(def, q), HeightCells(def.heightCm))
  }

  // ---------------------------------------------------------------- transitions

  /**
   * `placeBlock`: validate, check the count, then record the instance, mark its
   * cell and take one unit. Any failed check leaves the state as it was.
   */
  function PlaceBlock(p: Parcel, g: GridState, t: ItemId, c: Cell, rot: int): (r: (GridState, bool))
    requires t in g.counts
    ensures r.1 <==> BlockPlaceable(p, g.solids, c) && g.counts[t] > 0
    ensures !r.1 ==> r.0 == g
    ensures r.1 ==> r.0.counts == g.counts[t := g.counts[t] - 1]
    ensures r.1 ==> forall d :: d in r.0.solids <==> d in g.solids || d == c
  {
    if !BlockPlaceable(p, g.solids, c) then (g, false)
    else if g.counts[t] <= 0 then (g, false)
    else
      var k := BlockRef(c);
      (GridState(MarkAll(g.solids, Occupant(k, Block), [c]),
                 g.placed[k := Instance(Block, t, [c], rot)],
                 g.counts[t := g.counts[t] - 1]), true)
  }

  /**
   * `placeFurniture`: an unknown id, an invalid placement or an empty count
   * fails with no change; otherwise the instance is recorded, its cells marked
   * and one unit taken.
   */
  function PlaceFurniture(p: Parcel, g: GridState, id: ItemId, o: Cell, rot: int): (r: (GridState, bool))
    requires id in g.counts
    ensures r.1 <==> FurniturePlaceable(p, g.solids, id, o, rot) && g.counts[id] > 0
    ensures !r.1 ==> r.0 == g
    ensures r.1 ==> r.0.counts == g.counts[id := g.counts[id] - 1]
  {
    match FurnById(id)
    case None => (g, false)
    case Some(def) =>
      if !FurniturePlaceable(p, g.solids, id, o, rot) then (g, false)
      else if g.counts[id] <= 0 then (g, false)
      else
        var k := FurnitureKey(id, o, rot);
        var cells := FurnitureCellsOf(def, o, rot);
        (GridState(MarkAll(g.solids, Occupant(k, Furniture), cells),
                   g.placed[k := Instance(Furniture, id, cells, rot)],
                   g.counts[id := g.counts[id] - 1]), true)
  }

  /**
   * `breakByRefKey`: an unknown key fails with no change; otherwise the
   * instance's cells are unmarked, the instance deleted and one unit of its id
   * given back.
   */
  function BreakByRefKey(g: GridState, k: RefKey): (r: (GridState, bool))
    ensures r.1 <==> k in g.placed
    ensures !r.1 ==> r.0 == g
    ensures r.1 ==> forall j :: j in r.0.placed <==> j in g.placed && j != k
    ensures r.1 ==> r.0.placed == g.placed - {k}
    ensures r.1 ==> forall c :: c in r.0.solids <==> c in g.solids && c !in g.placed[k].cells
    ensures r.1 ==> forall c :: c in r.0.solids ==> r.0.solids[c] == g.solids[c]
    ensures r.1 ==> r.0.counts == g.counts[g.placed[k].id := CountOf(g.counts, g.placed[k].id) + 1]
  {
    if k !in g.placed then (g, false)
    else
      var inst := g.placed[k];
      (GridState(UnmarkAll(g.solids, inst.cells),
                 g.placed - {k},
                 g.counts[inst.id := CountOf(g.counts, inst.id) + 1]), true)
  }

  // ---------------------------------------------------------------- invariants

  /** The occupant recorded at `c` is a live instance of the same kind that lists `c` among its cells. */
  ghost predicate OccupantLive(g: GridState, c: Cell)
  {
    c in g.solids ==>
      var occ := g.solids[c];
      occ.refKey in g.placed && c in g.placed[occ.refKey].cells && g.placed[occ.refKey].kind == occ.kind
  }

  /** Every cell of the instance under `k` is marked in `solids` under `k`. */
  ghost predicate InstanceMarked(g: GridState, k: RefKey)
  {
    k in g.placed ==>
      forall c :: c in g.placed[k].cells ==> c in g.solids && g.solids[c].refKey == k
  }

  /** The key names the instance: a block key its one cell, a furniture key its id and a cell it covers. */
  predicate WellKeyed(k: RefKey, inst: Instance)
  {
    match k
    case BlockRef(c) => inst.kind == Block && inst.cells == [c]
    case FurnRef(o, id, q) => inst.kind == Furniture && inst.id == id && o in inst.cells
  }

  /** The engine's invariant: occupancy and placements agree both ways, keys name their instances, counts are total and never negative. */
  ghost predicate GridValid(g: GridState)
  {
    && (forall id: ItemId :: id in g.counts && g.counts[id] >= 0)
    && (forall c :: OccupantLive(g, c))
    && (forall k :: InstanceMarked(g, k))
    && (forall k :: k in g.placed ==> WellKeyed(k, g.placed[k]))
  }

  /** The keys of the live placements of item `id`. */
  function LiveKeys(placed: map<RefKey, Instance>, id: ItemId): set<RefKey>
  {
    set k | k in placed && placed[k].id == id
  }

  /** Number of live placements of item `id`. */
  function LiveCount(placed: map<RefKey, Instance>, id: ItemId): nat
  {
    |LiveKeys(placed, id)|
  }

  /** Units of `id` in the register plus units standing in the world. */
  function Stock(g: GridState, id: ItemId): int
  {
    CountOf(g.counts, id) + LiveCount(g.placed, id)
  }
}
