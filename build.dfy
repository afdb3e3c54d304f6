/**
 * The grid build engine returned by `Builder.create`: the closure state
 * (`solids`, `placed`, `buildMode`, `rotIndex`, `ghostCell`) as the fields of a
 * class, the shared inventory it debits and credits, and the operations as
 * methods proved against the transitions of module Grid.
 */
module Build {
  import opened Wrappers
  import opened Catalog
  import opened JsNumbers
  import opened Hotbar
  import opened Grid
  import opened GridProofs

  /** What the centre ray of the camera hit when breaking: nothing, scenery, or a placed object with its reference key. */
  datatype BreakTarget = NoHit | Scenery | Placement(refKey: RefKey)

  /** `ghostCell`: candidate cell, validity flag, the item it was computed for (`def`) and its quarter rotation (`rotY = rot * pi/2`). */
  datatype GhostCell = GhostCell(cell: Cell, valid: bool, item: Option<Item>, rot: int)

  const InitialGhost: GhostCell := GhostCell(Cell(0, 0, 0), false, None, 0)

  /** `rotIndex = (rotIndex + 3) % 4`. */
  function TurnLeft(i: int): int
  {
    (i + 3) % 4
  }

  /** `rotIndex = (rotIndex + 1) % 4`. */
  function TurnRight(i: int): int
  {
    (i + 1) % 4
  }

  function TurnRightTimes(i: int, n: nat): int
  {
    if n == 0 then i else TurnRight(TurnRightTimes(i, n - 1))
  }

  function TurnLeftTimes(i: int, n: nat): int
  {
    if n == 0 then i else TurnLeft(TurnLeftTimes(i, n - 1))
  }

  /** Each turn undoes the other and both stay in 0..3. */
  lemma TurnsUndo(i: int)
    requires 0 <= i < 4
    ensures 0 <= TurnLeft(i) < 4 && 0 <= TurnRight(i) < 4
    ensures TurnLeft(TurnRight(i)) == i && TurnRight(TurnLeft(i)) == i
  {
  }

  /** Taking the residue first does not change the next residue. */
  lemma ResidueStep(a: int)
    ensures (a % 4 + 1) % 4 == (a + 1) % 4
    ensures (a % 4 + 3) % 4 == (a - 1) % 4
  {
    var q, r := a / 4, a % 4;
    assert a == 4 * q + r && 0 <= r < 4;
    assert a + 1 == 4 * q + (r + 1);
    assert a - 1 == 4 * (q - 1) + (r + 3);
  }

  /** n right turns add n quarters, n left turns take n quarters away, modulo 4. */
  lemma {:induction false} TurnTimes(i: int, n: nat)
    requires 0 <= i < 4
    ensures TurnRightTimes(i, n) == (i + n) % 4
    ensures TurnLeftTimes(i, n) == (i - n) % 4
  {
    if n > 0 {
      TurnTimes(i, n - 1);
      ResidueStep(i + n - 1);
      ResidueStep(i - n + 1);
    }
  }

  /** Four quarters either way is a full circle. */
  lemma QuarterCircle(i: int)
    requires 0 <= i < 4
    ensures (i + 4) % 4 == i && (i - 4) % 4 == i
  {
    if i == 0 {
    } else if i == 1 {
    } else if i == 2 {
    } else {
      assert i == 3;
    }
  }

  /** Four turns in one direction return to the start. */
  lemma FourTurns(i: int)
    requires 0 <= i < 4
    ensures TurnRightTimes(i, 4) == i && TurnLeftTimes(i, 4) == i
  {
    TurnTimes(i, 4);
    QuarterCircle(i);
  }

  /** The integer part of `updateGhost`: clamp the candidate into the parcel columns and into heights 0 .. maxY. */
  function ClampCell(p: Parcel, c: Cell): (r: Cell)
    ensures r.x == Clamp(c.x, p.minX, p.maxX) && r.z == Clamp(c.z, p.minZ, p.maxZ)
    ensures r.y == Clamp(c.y, 0, MaxY(p))
    ensures p.minX <= p.maxX && p.minZ <= p.maxZ ==> CellInParcel(p, r.x, r.z)
    ensures 0 <= MaxY(p) ==> 0 <= r.y <= MaxY(p)
    ensures CellInParcel(p, c.x, c.z) && 0 <= c.y <= MaxY(p) ==> r == c
  {
    Cell(Clamp(c.x, p.minX, p.maxX), Clamp(c.y, 0, MaxY(p)), Clamp(c.z, p.minZ, p.maxZ))
  }

  /** Hotbar items of the block kind carry block type ids, the only ids `placeBlock` accepts. */
  lemma BlockItemsAreBlockTypes(it: Item)
    requires it in Items
    ensures it.kind == BlockItem ==> IsBlockId(it.id)
  {
    ItemsLayout();
    var i :| 0 <= i < |Items| && Items[i] == it;
    if i < 6 {
      assert it == BaseItems[i];
    } else {
      assert it.kind == FurnitureItem by {
        assert Items[6 + (i - 6)] == Item(Catalog.Furniture[i - 6].id, FurnitureItem);
      }
    }
  }

  /**
   * The `can` of the selected definition: the block rule for block items, the
   * furniture rule otherwise. Either way the ghost only turns valid on a free
   * cell of the parcel within the height limit.
   */
  predicate ItemPlaceable(p: Parcel, solids: map<Cell, Occupant>, it: Item, c: Cell, rot: int)
    ensures ItemPlaceable(p, solids, it, c, rot) ==> CellInParcel(p, c.x, c.z) && 0 <= c.y <= MaxY(p) && c !in solids
  {
    match it.kind
    case BlockItem => BlockPlaceable(p, solids, c)
    case FurnitureItem =>
      if FurnById(it.id).Some? && FurniturePlaceable(p, solids, it.id, c, rot) then
        FootprintCellsFree(p, solids, it.id, FurnById(it.id).value, c, rot);
        true
      else
        false
  }

  /** The `place` of the selected definition. */
  function PlaceItem(p: Parcel, g: GridState, it: Item, c: Cell, rot: int): (r: (GridState, bool))
    requires it.id in g.counts
    ensures r.1 ==> ItemPlaceable(p, g.solids, it, c, rot)
  {
    match it.kind
    case BlockItem => PlaceBlock(p, g, it.id, c, rot)
    case FurnitureItem => PlaceFurniture(p, g, it.id, c, rot)
  }

  /** The starter platform fits: at least six columns each way and room for one layer above the ground. */
  predicate StarterFits(p: Parcel)
  {
    p.maxX >= p.minX + 5 && p.maxZ >= p.minZ + 5 && MaxY(p) >= 1
  }

  /** Enough room in the parcel and enough stock in the register for the whole starter platform. */
  predicate StarterStock(p: Parcel, counts: map<ItemId, int>)
  {
    && StarterFits(p)
    && Floor in counts && Wall in counts && Glass in counts
    && counts[Floor] >= 36 && counts[Wall] >= 1 && counts[Glass] >= 1
  }

  /** The n-th cell visited by the floor loops (x outer, z inner, six each). */
  function FloorCell(p: Parcel, n: nat): Cell
  {
    Cell(p.minX + n / 6, 0, p.minZ + n % 6)
  }

  /** The loops reach cell (x, 0, z) at step (x - minX) * 6 + (z - minZ). */
  lemma FloorCellAt(p: Parcel, x: int, z: int, n: nat)
    requires p.minX <= x && p.minZ <= z < p.minZ + 6
    requires n == (x - p.minX) * 6 + (z - p.minZ)
    ensures FloorCell(p, n) == Cell(x, 0, z)
  {
    var i, j := x - p.minX, z - p.minZ;
    assert (i * 6 + j) / 6 == i && (i * 6 + j) % 6 == j;
  }

  /** The state after the first n floor placements of the starter platform. */
  function FloorState(p: Parcel, g: GridState, n: nat): (r: GridState)
    requires Floor in g.counts
    ensures forall id :: id in g.counts ==> id in r.counts
  {
    if n == 0 then g else PlaceBlock(p, FloorState(p, g, n - 1), Floor, FloorCell(p, n - 1), 0).0
  }

  /** The wall placed on the floor after the loops. */
  function WallCell(p: Parcel): Cell
  {
    Cell(p.minX + 2, 1, p.minZ + 2)
  }

  /** The glass block placed beside the wall. */
  function GlassCell(p: Parcel): Cell
  {
    Cell(p.minX + 3, 1, p.minZ + 2)
  }

  /** The whole starter platform: 36 floor placements, then the wall, then the glass block. */
  function StarterState(p: Parcel, g: GridState): (r: GridState)
    requires Floor in g.counts && Wall in g.counts && Glass in g.counts
    ensures forall id :: id in g.counts ==> id in r.counts
  {
    TopState(p, FloorState(p, g, 36))
  }

  /** The two placements after the floor loops: the wall, then the glass block. */
  function TopState(p: Parcel, f: GridState): (r: GridState)
    requires Wall in f.counts && Glass in f.counts
    ensures forall id :: id in f.counts ==> id in r.counts
  {
    var w := PlaceBlock(p, f, Wall, WallCell(p), 0).0;
    PlaceBlock(p, w, Glass, GlassCell(p), 0).0
  }

  /** The first n floor cells, in the order the loops visit them. */
  predicate FloorLaid(p: Parcel, c: Cell, n: int)
  {
    && c.y == 0
    && p.minX <= c.x
    && p.minZ <= c.z < p.minZ + 6
    && (c.x - p.minX) * 6 + (c.z - p.minZ) < n
  }

  /** Units of each item the starter platform uses: 36 floors, one wall, one glass block. */
  function StarterUse(id: ItemId): nat
  {
    match id
    case Floor => 36
    case Wall => 1
    case Glass => 1
    case _ => 0
  }

  /** The cells of the starter platform: a 6 x 6 floor at the parcel corner, a wall and a glass block on it. */
  predicate StarterCell(p: Parcel, c: Cell)
  {
    FloorLaid(p, c, 36) || c == WallCell(p) || c == GlassCell(p)
  }

  /** Placing floor cell n - 1 after the first n - 1 succeeds and takes one floor unit. */
  lemma FloorStep(p: Parcel, prev: GridState, n: nat)
    requires StarterFits(p) && 0 < n <= 36
    requires Floor in prev.counts && prev.counts[Floor] > 0
    requires forall c :: c in prev.solids <==> FloorLaid(p, c, n - 1)
    ensures var r := PlaceBlock(p, prev, Floor, FloorCell(p, n - 1), 0);
            && r.1
            && r.0.counts == prev.counts[Floor := prev.counts[Floor] - 1]
            && forall c :: c in r.0.solids <==> FloorLaid(p, c, n)
  {
    var c := FloorCell(p, n - 1);
    assert c.x - p.minX == (n - 1) / 6 && c.z - p.minZ == (n - 1) % 6;
    assert (c.x - p.minX) * 6 + (c.z - p.minZ) == n - 1;
    assert c !in prev.solids;
    assert BlockPlaceable(p, prev.solids, c);
    assert forall d :: FloorLaid(p, d, n) <==> FloorLaid(p, d, n - 1) || d == c;
  }

  /** Each floor placement succeeds on an empty start: n floors laid, n units taken. */
  lemma {:induction false} FloorStateLays(p: Parcel, g: GridState, n: nat)
    requires StarterFits(p) && n <= 36
    requires Floor in g.counts && g.counts[Floor] >= n && g.solids == map[]
    ensures forall c :: c in FloorState(p, g, n).solids <==> FloorLaid(p, c, n)
    ensures forall id :: id in g.counts ==> FloorState(p, g, n).counts[id] == g.counts[id] - (if id == Floor then n else 0)
  {
    if n > 0 {
      FloorStateLays(p, g, n - 1);
      FloorStep(p, FloorState(p, g, n - 1), n);
    }
  }

  /** Floor placements keep the grid invariant. */
  lemma {:induction false} FloorStateKeepsValid(p: Parcel, g: GridState, n: nat)
    requires GridValid(g)
    ensures GridValid(FloorState(p, g, n))
  {
    if n > 0 {
      FloorStateKeepsValid(p, g, n - 1);
      PlaceBlockKeepsValid(p, FloorState(p, g, n - 1), Floor, FloorCell(p, n - 1), 0);
    }
  }

  /** The wall stands on the finished floor. */
  lemma WallOnFloor(p: Parcel, g: GridState)
    requires StarterFits(p)
    requires Wall in g.counts && g.counts[Wall] > 0
    requires forall c :: c in g.solids <==> FloorLaid(p, c, 36)
    ensures var r := PlaceBlock(p, g, Wall, WallCell(p), 0);
            && r.1
            && r.0.counts == g.counts[Wall := g.counts[Wall] - 1]
            && forall c :: c in r.0.solids <==> FloorLaid(p, c, 36) || c == WallCell(p)
  {
    var c := WallCell(p);
    assert Cell(c.x, 0, c.z) in g.solids;
    assert BlockPlaceable(p, g.solids, c);
  }

  /** The glass block stands on the floor beside the wall. */
  lemma GlassBesideWall(p: Parcel, g: GridState)
    requires StarterFits(p)
    requires Glass in g.counts && g.counts[Glass] > 0
    requires forall c :: c in g.solids <==> FloorLaid(p, c, 36) || c == WallCell(p)
    ensures var r := PlaceBlock(p, g, Glass, GlassCell(p), 0);
            && r.1
            && r.0.counts == g.counts[Glass := g.counts[Glass] - 1]
            && forall c :: c in r.0.solids <==> StarterCell(p, c)
  {
    var c := GlassCell(p);
    assert Cell(c.x, 0, c.z) in g.solids;
    assert BlockPlaceable(p, g.solids, c);
  }

  /** On the finished floor the wall and the glass block both go in, each taking one unit. */
  lemma TopOnFloor(p: Parcel, f: GridState)
    requires StarterFits(p)
    requires Wall in f.counts && f.counts[Wall] > 0 && Glass in f.counts && f.counts[Glass] > 0
    requires forall c :: c in f.solids <==> FloorLaid(p, c, 36)
    ensures forall c :: c in TopState(p, f).solids <==> StarterCell(p, c)
    ensures forall id :: id in f.counts ==> TopState(p, f).counts[id] == f.counts[id] - (if id == Wall || id == Glass then 1 else 0)
  {
    WallOnFloor(p, f);
    GlassBesideWall(p, PlaceBlock(p, f, Wall, WallCell(p), 0).0);
  }

  /**
   * With room and stock, the starter platform lays exactly its 38 cells and
   * takes 36 floors, one wall and one glass block from the register.
   */
  lemma StarterPlatform(p: Parcel, g: GridState)
    requires StarterStock(p, g.counts) && g.solids == map[]
    ensures forall c :: c in StarterState(p, g).solids <==> StarterCell(p, c)
    ensures forall id :: id in g.counts ==> StarterState(p, g).counts[id] == g.counts[id] - StarterUse(id)
  {
    FloorStateLays(p, g, 36);
    TopOnFloor(p, FloorState(p, g, 36));
  }

  /** The starter platform keeps the grid invariant. */
  lemma StarterKeepsValid(p: Parcel, g: GridState)
    requires GridValid(g)
    ensures GridValid(StarterState(p, g))
  {
    FloorStateKeepsValid(p, g, 36);
    var f := FloorState(p, g, 36);
    PlaceBlockKeepsValid(p, f, Wall, WallCell(p), 0);
    PlaceBlockKeepsValid(p, PlaceBlock(p, f, Wall, WallCell(p), 0).0, Glass, GlassCell(p), 0);
  }

  class Builder {
    const parcel: Parcel
    const inventory: Inventory
    var solids: map<Cell, Occupant>
    var placed: map<RefKey, Instance>
    var buildMode: bool
    var rotIndex: int
    var ghostCell: GhostCell

    /** The part of the state the place and break operations change. */
    ghost function State(): GridState
      reads this, inventory
    {
      GridState(solids, placed, inventory.counts)
    }

    ghost predicate Valid()
      reads this, inventory
    {
      && GridValid(State())
      && inventory.Valid()
      && 0 <= rotIndex < 4
      && (ghostCell.valid ==> ghostCell.item.Some?)
      && (ghostCell.item.Some? ==> ghostCell.item.value in Items)
    }

    /**
     * `create`: empty occupancy, build mode off, rotation 0, then the starter
     * platform: 36 floors, a wall on the floor and a glass block beside it.
     */
    constructor (inv: Inventory, p: Parcel)
      requires inv.Valid()
      requires forall id: ItemId :: inv.counts[id] >= 0
      modifies inv`counts
      ensures Valid()
      ensures inventory == inv && parcel == p
      ensures !buildMode && rotIndex == 0 && ghostCell == InitialGhost
      ensures State() == StarterState(p, GridState(map[], map[], old(inv.counts)))
      ensures StarterStock(p, old(inv.counts)) ==> forall c :: c in solids <==> StarterCell(p, c)
      ensures StarterStock(p, old(inv.counts)) ==> forall id :: inv.counts[id] == old(inv.counts[id]) - StarterUse(id)
    {
      parcel := p;
      inventory := inv;
      solids := map[];
      placed := map[];
      buildMode := false;
      rotIndex := 0;
      ghostCell := InitialGhost;
      new;
      ghost var g0 := State();
      assert g0 == GridState(map[], map[], old(inv.counts));
      LayStarterPlatform();
      ghost var g1 := State();
      assert g1 == StarterState(p, g0);
      StarterKeepsValid(p, g0);
      assert GridValid(g1);
      assert inventory.Valid();
      if StarterStock(p, g0.counts) {
        StarterPlatform(p, g0);
      }
    }

    /** The two calls of `create` after the floor loops: the wall, then the glass block beside it. */
    method LayStarterPlatform()
      requires Floor in inventory.counts && Wall in inventory.counts && Glass in inventory.counts
      modifies this`solids, this`placed, inventory`counts
      ensures State() == StarterState(parcel, old(State()))
    {
      var p := parcel;
      ghost var g0 := State();
      LayFloor();
      ghost var f := State();
      assert f == FloorState(p, g0, 36);
      var _ := PlaceBlock(Wall, WallCell(p), 0);
      ghost var w := State();
      assert w == Grid.PlaceBlock(p, f, Wall, WallCell(p), 0).0;
      var _ := PlaceBlock(Glass, GlassCell(p), 0);
      assert State() == Grid.PlaceBlock(p, w, Glass, GlassCell(p), 0).0;
      assert State() == TopState(p, f);
      assert State() == StarterState(p, g0);
    }

    /** The floor loops of `create`: x outer, z inner, one `placeBlock` of a floor per cell. */
    method LayFloor()
      requires Floor in inventory.counts
      modifies this`solids, this`placed, inventory`counts
      ensures State() == FloorState(parcel, old(State()), 36)
    {
      ghost var g0 := State();
      ghost var n := 0;
      var x := parcel.minX;
      while x < parcel.minX + 6
        invariant parcel.minX <= x <= parcel.minX + 6 && n == (x - parcel.minX) * 6
        invariant State() == FloorState(parcel, g0, n)
      {
        LayFloorRow(x, g0, n);
        n := n + 6;
        x := x + 1;
      }
    }

    /** One pass of the inner z loop of `create`: the six floor cells of column x. */
    method LayFloorRow(x: int, ghost g0: GridState, ghost n0: nat)
      requires parcel.minX <= x && Floor in g0.counts && n0 == (x - parcel.minX) * 6
      requires State() == FloorState(parcel, g0, n0)
      modifies this`solids, this`placed, inventory`counts
      ensures State() == FloorState(parcel, g0, n0 + 6)
    {
      ghost var n := n0;
      var z := parcel.minZ;
      while z < parcel.minZ + 6
        invariant parcel.minZ <= z <= parcel.minZ + 6 && n == n0 + (z - parcel.minZ)
        invariant State() == FloorState(parcel, g0, n)
      {
        LayFloorCell(x, z, g0, n);
        n := n + 1;
        z := z + 1;
      }
    }

    /** One `placeBlock(Floor, {x, 0, z}, 0)` of the floor loops: floor cell (x - minX) * 6 + (z - minZ) of the platform. */
    method LayFloorCell(x: int, z: int, ghost g0: GridState, ghost n: nat)
      requires parcel.minX <= x && parcel.minZ <= z < parcel.minZ + 6 && Floor in g0.counts
      requires n == (x - parcel.minX) * 6 + (z - parcel.minZ)
      requires State() == FloorState(parcel, g0, n)
      modifies this`solids, this`placed, inventory`counts
      ensures State() == FloorState(parcel, g0, n + 1)
    {
      ghost var before := State();
      FloorCellAt(parcel, x, z, n);
      var _ := PlaceBlock(Floor, Cell(x, 0, z), 0);
      assert State() == Grid.PlaceBlock(parcel, before, Floor, FloorCell(parcel, n), 0).0;
    }

    /** `setBuildMode`. */
    method SetBuildMode(on: bool)
      requires Valid()
      modifies this`buildMode
      ensures Valid()
      ensures buildMode == on
    {
      buildMode := on;
    }

    /** `isSolidAt` / `hasSolidAt`: a cell is solid exactly when some live placement covers it. */
    function IsSolidAt(c: Cell): (r: bool)
      reads this, inventory
      requires Valid()
      ensures r <==> exists k :: k in placed && c in placed[k].cells
    {
      SolidIffCovered(State(), c);
      c in solids
    }

    /** `markCells`: write `{refKey, type}` into `solids` for each cell in turn. */
    method MarkCells(k: RefKey, kind: PlacementKind, cells: seq<Cell>)
      modifies this`solids
      ensures solids == MarkAll(old(solids), Occupant(k, kind), cells)
    {
      var i := 0;
      while i < |cells|
        invariant 0 <= i <= |cells|
        invariant solids == MarkAll(old(solids), Occupant(k, kind), cells[..i])
      {
        MarkAllSnoc(old(solids), Occupant(k, kind), cells[..i], cells[i]);
        assert cells[..i + 1] == cells[..i] + [cells[i]];
        solids := solids[cells[i] := Occupant(k, kind)];
        i := i + 1;
      }
      assert cells[..i] == cells;
    }

    /** `unmarkCells`: delete each cell from `solids` in turn. */
    method UnmarkCells(cells: seq<Cell>)
      modifies this`solids
      ensures solids == UnmarkAll(old(solids), cells)
    {
      var i := 0;
      while i < |cells|
        invariant 0 <= i <= |cells|
        invariant solids == UnmarkAll(old(solids), cells[..i])
      {
        UnmarkAllSnoc(old(solids), cells[..i], cells[i]);
        assert cells[..i + 1] == cells[..i] + [cells[i]];
        solids := solids - {cells[i]};
        i := i + 1;
      }
      assert cells[..i] == cells;
    }

    /** `computeSupportOK`: true on the ground, else true as soon as one of the five support cells is occupied. */
    method ComputeSupportOK(c: Cell) returns (ok: bool)
      ensures ok == BlockSupported(solids, c)
    {
      if c.y == 0 {
        return true;
      }
      var support := SupportCells(c);
      var i := 0;
      while i < |support|
        invariant 0 <= i <= |support|
        invariant forall j :: 0 <= j < i ==> support[j] !in solids
      {
        if support[i] in solids {
          return true;
        }
        i := i + 1;
      }
      assert support[0] !in solids && support[1] !in solids && support[2] !in solids;
      assert support[3] !in solids && support[4] !in solids;
      return false;
    }

    /** `canPlaceBlock`: parcel, height range, free cell, then support. */
    method CanPlaceBlock(t: ItemId, c: Cell) returns (ok: bool)
      ensures ok == BlockPlaceable(parcel, solids, c)
    {
      if !CellInParcel(parcel, c.x, c.z) {
        return false;
      }
      if c.y < 0 || c.y > MaxY(parcel) {
        return false;
      }
      if c in solids {
        return false;
      }
      ok := ComputeSupportOK(c);
    }

    /** The commit shared by `placeBlock` and `placeFurniture`: record the instance, mark its cells under its key, take one unit. */
    method Record(k: RefKey, inst: Instance)
      requires inst.id in inventory.counts
      modifies this`solids, this`placed, inventory`counts
      ensures State() == GridState(MarkAll(old(solids), Occupant(k, inst.kind), inst.cells),
                                   old(placed)[k := inst],
                                   old(inventory.counts)[inst.id := old(inventory.counts[inst.id]) - 1])
    {
      placed := placed[k := inst];
      MarkCells(k, inst.kind, inst.cells);
      inventory.counts := inventory.counts[inst.id := inventory.counts[inst.id] - 1];
    }

    /** `placeBlock`: all or nothing; on success the cell is marked, one instance added and one unit taken. */
    method PlaceBlock(t: ItemId, c: Cell, rot: int) returns (ok: bool)
      requires IsBlockId(t) && t in inventory.counts
      modifies this`solids, this`placed, inventory`counts
      ensures (State(), ok) == Grid.PlaceBlock(parcel, old(State()), t, c, rot)
    {
      ok := CanPlaceBlock(t, c);
      if !ok {
        return;
      }
      if inventory.counts[t] <= 0 {
        return false;
      }
      Record(BlockRef(c), Instance(Block, t, [c], rot));
    }

    /** The x, z, y loops of `placeFurniture` that collect the occupied cells. */
    method FurnitureCells(o: Cell, fw: nat, fd: nat, h: nat) returns (cells: seq<Cell>)
      ensures cells == BoxCells(o, fw, fd, h)
    {
      cells := [];
      var x := 0;
      while x < fw
        invariant 0 <= x <= fw
        invariant cells == BoxCells(o, x, fd, h)
      {
        cells := PushRow(cells, o, x, fd, h);
        x := x + 1;
      }
    }

    /** The z and y loops of `placeFurniture` for one x offset: append that offset's columns. */
    static method PushRow(acc: seq<Cell>, o: Cell, x: int, fd: nat, h: nat) returns (cells: seq<Cell>)
      ensures cells == acc + RowCells(o, x, fd, h)
    {
      cells := acc;
      var z := 0;
      while z < fd
        invariant 0 <= z <= fd
        invariant cells == acc + RowCells(o, x, z, h)
      {
        ghost var before := cells;
        cells := PushColumn(cells, o, x, z, h);
        assert before + ColumnCells(o, x, z, h) == acc + (RowCells(o, x, z, h) + ColumnCells(o, x, z, h));
        z := z + 1;
      }
    }

    /** The y loop of `placeFurniture` for one (x, z) offset: append the column bottom to top. */
    static method PushColumn(acc: seq<Cell>, o: Cell, x: int, z: int, h: nat) returns (cells: seq<Cell>)
      ensures cells == acc + ColumnCells(o, x, z, h)
    {
      cells := acc;
      var y := 0;
      while y < h
        invariant 0 <= y <= h
        invariant cells == acc + ColumnCells(o, x, z, y)
      {
        var c := Cell(o.x + x, o.y + y, o.z + z);
        assert acc + ColumnCells(o, x, z, y + 1) == (acc + ColumnCells(o, x, z, y)) + [c];
        cells := cells + [c];
        y := y + 1;
      }
    }

    /**
     * `canPlaceFurniture`: a known id, the origin column in the parcel,
     * 0 <= o.y <= maxY, then every column of the rotated footprint in the
     * parcel with all its layers free and, above the ground, the cell beneath it occupied.
     */
    method CanPlaceFurniture(id: ItemId, o: Cell, rot: int) returns (ok: bool)
      ensures ok == FurniturePlaceable(parcel, solids, id, o, rot)
    {
      var def := FurnById(id);
      if def.None? {
        return false;
      }
      if !CellInParcel(parcel, o.x, o.z) {
        return false;
      }
      if o.y < 0 || o.y > MaxY(parcel) {
        return false;
      }
      var q := Quarter(rot);
      var fw, fd := RotatedWidth(def.value, q), RotatedDepth(def.value, q);
      var h := HeightCells(def.value.heightCm);
      var x := 0;
      while x < fw
        invariant 0 <= x <= fw
        invariant forall cx, cz :: o.x <= cx < o.x + x && o.z <= cz < o.z + fd ==> ColumnClear(parcel, solids, o, cx, cz, h)
      {
        var cx := o.x + x;
        var z := 0;
        while z < fd
          invariant 0 <= z <= fd
          invariant forall cx, cz :: o.x <= cx < o.x + x && o.z <= cz < o.z + fd ==> ColumnClear(parcel, solids, o, cx, cz, h)
          invariant forall cz :: o.z <= cz < o.z + z ==> ColumnClear(parcel, solids, o, cx, cz, h)
        {
          var cz := o.z + z;
          if !CellInParcel(parcel, cx, cz) {
            assert !ColumnClear(parcel, solids, o, cx, cz, h);
            return false;
          }
          var y := 0;
          while y < h
            invariant 0 <= y <= h
            invariant forall cy :: o.y <= cy < o.y + y ==> Cell(cx, cy, cz) !in solids
          {
            if Cell(cx, o.y + y, cz) in solids {
              assert !ColumnClear(parcel, solids, o, cx, cz, h);
              return false;
            }
            y := y + 1;
          }
          if o.y > 0 && Cell(cx, o.y - 1, cz) !in solids {
            assert !ColumnClear(parcel, solids, o, cx, cz, h);
            return false;
          }
          assert ColumnClear(parcel, solids, o, cx, cz, h);
          z := z + 1;
        }
        x := x + 1;
      }
      return true;
    }

    /** `placeFurniture`: all or nothing; on success the box of cells is marked under the new key and one unit taken. */
    method PlaceFurniture(id: ItemId, o: Cell, rot: int) returns (ok: bool)
      requires id in inventory.counts
      modifies this`solids, this`placed, inventory`counts
      ensures (State(), ok) == Grid.PlaceFurniture(parcel, old(State()), id, o, rot)
    {
      ghost var g := State();
      var def := FurnById(id);
      if def.None? {
        assert Grid.PlaceFurniture(parcel, g, id, o, rot) == (g, false);
        return false;
      }
      ok := CanPlaceFurniture(id, o, rot);
      if !ok {
        assert Grid.PlaceFurniture(parcel, g, id, o, rot) == (g, false);
        return;
      }
      if inventory.counts[id] <= 0 {
        assert Grid.PlaceFurniture(parcel, g, id, o, rot) == (g, false);
        return false;
      }
      var q := Quarter(rot);
      var k := FurnRef(o, id, q);
      var cells := FurnitureCells(o, RotatedWidth(def.value, q), RotatedDepth(def.value, q), HeightCells(def.value.heightCm));
      assert k == FurnitureKey(id, o, rot) && cells == FurnitureCellsOf(def.value, o, rot);
      PlaceFurnitureCommits(parcel, g, id, o, rot);
      Record(k, Instance(Furniture, id, cells, rot));
    }

    /** `breakByRefKey`: an unknown key changes nothing; otherwise unmark, delete, and give one unit back. */
    method BreakByRefKey(k: RefKey) returns (ok: bool)
      modifies this`solids, this`placed, inventory`counts
      ensures (State(), ok) == Grid.BreakByRefKey(old(State()), k)
    {
      if k !in placed {
        return false;
      }
      var inst := placed[k];
      UnmarkCells(inst.cells);
      placed := placed - {k};
      inventory.counts := inventory.counts[inst.id := CountOf(inventory.counts, inst.id) + 1];
      return true;
    }

    /** `rotateLeft`. */
    method RotateLeft()
      requires Valid()
      modifies this`rotIndex
      ensures Valid()
      ensures rotIndex == TurnLeft(old(rotIndex))
    {
      rotIndex := (rotIndex + 3) % 4;
    }

    /** `rotateRight`. */
    method RotateRight()
      requires Valid()
      modifies this`rotIndex
      ensures Valid()
      ensures rotIndex == TurnRight(old(rotIndex))
    {
      rotIndex := (rotIndex + 1) % 4;
    }

    /**
     * The integer part of `updateGhost`, given the candidate cell already
     * snapped from the ray hit (None when the ray hit nothing): outside build
     * mode nothing changes; with no hit the ghost turns invalid; otherwise the
     * candidate is clamped and the selected item's rule decides validity.
     */
    method UpdateGhost(candidate: Option<Cell>)
      requires Valid()
      modifies this`ghostCell
      ensures Valid()
      ensures !buildMode ==> ghostCell == old(ghostCell)
      ensures buildMode && candidate.None? ==> ghostCell == old(ghostCell).(valid := false)
      ensures buildMode && candidate.Some? ==>
                var c := ClampCell(parcel, candidate.value);
                var it := inventory.SelectedItem();
                ghostCell == GhostCell(c, ItemPlaceable(parcel, solids, it, c, rotIndex % 4), Some(it), rotIndex % 4)
    {
      if !buildMode {
        return;
      }
      var it := inventory.SelectedItem();
      match candidate
      case None =>
        ghostCell := ghostCell.(valid := false);
      case Some(hit) =>
        var c := ClampCell(parcel, hit);
        var rot := rotIndex % 4;
        var valid;
        if it.kind == BlockItem {
          valid := CanPlaceBlock(it.id, c);
        } else {
          valid := CanPlaceFurniture(it.id, c, rot);
        }
        ghostCell := GhostCell(c, valid, Some(it), rot);
    }

    /** `tryPlace`: only in build mode with a valid ghost; the placement itself validates again against the current state. */
    method TryPlace() returns (ok: bool)
      requires Valid()
      modifies this`solids, this`placed, inventory`counts
      ensures Valid()
      ensures !(buildMode && ghostCell.valid) ==> !ok && State() == old(State())
      ensures buildMode && ghostCell.valid ==>
                (State(), ok) == PlaceItem(parcel, old(State()), ghostCell.item.value, ghostCell.cell, ghostCell.rot)
      ensures ok ==> ItemPlaceable(parcel, old(solids), ghostCell.item.value, ghostCell.cell, ghostCell.rot)
    {
      if !buildMode {
        return false;
      }
      if !ghostCell.valid {
        return false;
      }
      var it := ghostCell.item.value;
      ghost var g := State();
      BlockItemsAreBlockTypes(it);
      if it.kind == BlockItem {
        ok := PlaceBlock(it.id, ghostCell.cell, ghostCell.rot);
        PlaceBlockKeepsValid(parcel, g, it.id, ghostCell.cell, ghostCell.rot);
      } else {
        ok := PlaceFurniture(it.id, ghostCell.cell, ghostCell.rot);
        PlaceFurnitureKeepsValid(parcel, g, it.id, ghostCell.cell, ghostCell.rot);
      }
    }

    /** `tryBreak`: only in build mode and only when the ray hit a placed object. */
    method TryBreak(target: BreakTarget) returns (ok: bool)
      requires Valid()
      modifies this`solids, this`placed, inventory`counts
      ensures Valid()
      ensures !(buildMode && target.Placement?) ==> !ok && State() == old(State())
      ensures buildMode && target.Placement? ==> (State(), ok) == Grid.BreakByRefKey(old(State()), target.refKey)
    {
      if !buildMode {
        return false;
      }
      match target
      case NoHit =>
        return false;
      case Scenery =>
        return false;
      case Placement(k) =>
        ghost var g := State();
        ok := BreakByRefKey(k);
        BreakKeepsValid(g, k);
    }
  }

  /**
   * The game's start-up: a fresh inventory and a builder on the parcel
   * x, z in [-10, 10], maxY 16. The starter platform leaves 63 floors and 98
   * walls and glass blocks in the register.
   */
  method StarterScenario() returns (floors: int, walls: int, glass: int)
    ensures floors == 63 && walls == 98 && glass == 98
  {
    var inv := new Inventory();
    var p := Parcel(-10, 10, -10, 10, 16);
    assert StarterStock(p, inv.counts);
    var b := new Builder(inv, p);
    floors, walls, glass := inv.counts[Floor], inv.counts[Wall], inv.counts[Glass];
  }
}
