/**
 * Properties of the occupancy model: the cells a piece of furniture covers,
 * the engine invariant kept by every transition, conservation of items
 * between the register and the world, and break undoing place.
 */
module GridProofs {
  import opened Wrappers
  import opened Catalog
  import opened Grid

  // ---------------------------------------------------------------- the cells of a piece

  lemma {:induction false} ColumnCellsExact(o: Cell, dx: int, dz: int, h: nat, c: Cell)
    ensures c in ColumnCells(o, dx, dz, h) <==> c.x == o.x + dx && c.z == o.z + dz && o.y <= c.y < o.y + h
  {
    if h > 0 {
      var below := ColumnCells(o, dx, dz, h - 1);
      assert c in ColumnCells(o, dx, dz, h) <==> c in below || c == Cell(o.x + dx, o.y + h - 1, o.z + dz) by {
        assert ColumnCells(o, dx, dz, h) == below + [Cell(o.x + dx, o.y + h - 1, o.z + dz)];
      }
      assert c in below <==> c.x == o.x + dx && c.z == o.z + dz && o.y <= c.y < o.y + h - 1 by {
        ColumnCellsExact(o, dx, dz, h - 1, c);
      }
    }
  }

  lemma {:induction false} RowCellsExact(o: Cell, dx: int, fd: nat, h: nat, c: Cell)
    ensures c in RowCells(o, dx, fd, h) <==> c.x == o.x + dx && o.z <= c.z < o.z + fd && o.y <= c.y < o.y + h
  {
    if fd > 0 {
      var front, last := RowCells(o, dx, fd - 1, h), ColumnCells(o, dx, fd - 1, h);
      assert c in RowCells(o, dx, fd, h) <==> c in front || c in last by {
        assert RowCells(o, dx, fd, h) == front + last;
      }
      assert c in last <==> c.x == o.x + dx && c.z == o.z + (fd - 1) && o.y <= c.y < o.y + h by {
        ColumnCellsExact(o, dx, fd - 1, h, c);
      }
      assert c in front <==> c.x == o.x + dx && o.z <= c.z < o.z + (fd - 1) && o.y <= c.y < o.y + h by {
        RowCellsExact(o, dx, fd - 1, h, c);
      }
    }
  }

  /** The x, z, y loops of `placeFurniture` collect exactly the cells of the box [o.x, o.x+fw) x [o.y, o.y+h) x [o.z, o.z+fd). */
  lemma {:induction false} BoxCellsExact(o: Cell, fw: nat, fd: nat, h: nat, c: Cell)
    ensures c in BoxCells(o, fw, fd, h) <==> InBox(o, fw, fd, h, c)
  {
    if fw > 0 {
      var front, last := BoxCells(o, fw - 1, fd, h), RowCells(o, fw - 1, fd, h);
      assert c in BoxCells(o, fw, fd, h) <==> c in front || c in last by {
        assert BoxCells(o, fw, fd, h) == front + last;
      }
      assert c in last <==> c.x == o.x + (fw - 1) && o.z <= c.z < o.z + fd && o.y <= c.y < o.y + h by {
        RowCellsExact(o, fw - 1, fd, h, c);
      }
      assert c in front <==> InBox(o, fw - 1, fd, h, c) by {
        BoxCellsExact(o, fw - 1, fd, h, c);
      }
    }
  }

  lemma {:induction false} ColumnCellsCount(o: Cell, dx: int, dz: int, h: nat)
    ensures |ColumnCells(o, dx, dz, h)| == h
  {
    if h > 0 {
      ColumnCellsCount(o, dx, dz, h - 1);
    }
  }

  lemma {:induction false} RowCellsCount(o: Cell, dx: int, fd: nat, h: nat)
    ensures |RowCells(o, dx, fd, h)| == fd * h
  {
    if fd > 0 {
      RowCellsCount(o, dx, fd - 1, h);
      ColumnCellsCount(o, dx, fd - 1, h);
      assert (fd - 1) * h + h == fd * h;
    }
  }

  /** The loops list fw * fd * h cells. */
  lemma {:induction false} BoxCellsCount(o: Cell, fw: nat, fd: nat, h: nat)
    ensures |BoxCells(o, fw, fd, h)| == fw * (fd * h)
  {
    if fw > 0 {
      BoxCellsCount(o, fw - 1, fd, h);
      RowCellsCount(o, fw - 1, fd, h);
      var a := fd * h;
      assert (fw - 1) * a + a == fw * a;
    }
  }

  /** A valid furniture placement covers only free cells, and its origin is one of them. */
  lemma FootprintCellsFree(p: Parcel, solids: map<Cell, Occupant>, id: ItemId, def: FurnDef, o: Cell, rot: int)
    requires FurnById(id) == Some(def)
    requires FurniturePlaceable(p, solids, id, o, rot)
    ensures forall c :: c in FurnitureCellsOf(def, o, rot) ==> c !in solids
    ensures o in FurnitureCellsOf(def, o, rot)
  {
    var q := Quarter(rot);
    var fw, fd, h := RotatedWidth(def, q), RotatedDepth(def, q), HeightCells(def.heightCm);
    forall c | c in FurnitureCellsOf(def, o, rot)
      ensures c !in solids
    {
      BoxCellsExact(o, fw, fd, h, c);
      assert ColumnClear(p, solids, o, c.x, c.z, h);
      assert Cell(c.x, c.y, c.z) == c;
    }
    BoxCellsExact(o, fw, fd, h, o);
  }

  /** Above the ground, a piece with nothing directly beneath its origin column cannot be placed, whatever stands beside it. */
  lemma FurnitureNeedsCellBeneath(p: Parcel, solids: map<Cell, Occupant>, id: ItemId, o: Cell, rot: int)
    requires o.y > 0 && Cell(o.x, o.y - 1, o.z) !in solids
    ensures !FurniturePlaceable(p, solids, id, o, rot)
  {
    match FurnById(id)
    case None =>
    case Some(def) =>
      var q := Quarter(rot);
      assert RotatedWidth(def, q) >= 1 && RotatedDepth(def, q) >= 1;
      assert !ColumnClear(p, solids, o, o.x, o.z, HeightCells(def.heightCm));
  }

  // ---------------------------------------------------------------- the invariant

  /** The cell a reference key is anchored at. */
  function KeyCell(k: RefKey): Cell
  {
    match k
    case BlockRef(c) => c
    case FurnRef(o, _, _) => o
  }

  /** The anchor cell of every live placement is occupied. */
  lemma AnchorMarked(g: GridState, k: RefKey)
    requires GridValid(g)
    requires k in g.placed
    ensures KeyCell(k) in g.solids && g.solids[KeyCell(k)].refKey == k
  {
    assert WellKeyed(k, g.placed[k]);
    assert InstanceMarked(g, k);
  }

  /** A key whose anchor cell is free names no live placement, so a new placement never overwrites one. */
  lemma FreshKey(g: GridState, k: RefKey)
    requires GridValid(g)
    requires KeyCell(k) !in g.solids
    ensures k !in g.placed
  {
    if k in g.placed {
      AnchorMarked(g, k);
    }
  }

  /** `isSolidAt`: under the invariant a cell is occupied exactly when a live placement covers it. */
  lemma SolidIffCovered(g: GridState, c: Cell)
    requires GridValid(g)
    ensures c in g.solids <==> exists k :: k in g.placed && c in g.placed[k].cells
  {
    if c in g.solids {
      assert OccupantLive(g, c);
      var k := g.solids[c].refKey;
      assert k in g.placed && c in g.placed[k].cells;
    }
    if exists k :: k in g.placed && c in g.placed[k].cells {
      var k :| k in g.placed && c in g.placed[k].cells;
      assert InstanceMarked(g, k);
    }
  }

  /** Recording a fresh instance whose cells were all free, and marking them, keeps the invariant. */
  lemma AddInstanceKeepsValid(g: GridState, k: RefKey, inst: Instance, t: ItemId)
    requires GridValid(g)
    requires k !in g.placed && WellKeyed(k, inst)
    requires forall c :: c in inst.cells ==> c !in g.solids
    requires t in g.counts && g.counts[t] > 0
    ensures GridValid(GridState(MarkAll(g.solids, Occupant(k, inst.kind), inst.cells), g.placed[k := inst], g.counts[t := g.counts[t] - 1]))
  {
    var g' := GridState(MarkAll(g.solids, Occupant(k, inst.kind), inst.cells), g.placed[k := inst], g.counts[t := g.counts[t] - 1]);
    forall c
      ensures OccupantLive(g', c)
    {
      assert OccupantLive(g, c);
    }
    forall k'
      ensures InstanceMarked(g', k')
    {
      assert InstanceMarked(g, k');
    }
  }

  /** `placeBlock` keeps the engine invariant. */
  lemma PlaceBlockKeepsValid(p: Parcel, g: GridState, t: ItemId, c: Cell, rot: int)
    requires GridValid(g)
    ensures GridValid(PlaceBlock(p, g, t, c, rot).0)
  {
    if PlaceBlock(p, g, t, c, rot).1 {
      FreshKey(g, BlockRef(c));
      AddInstanceKeepsValid(g, BlockRef(c), Instance(Block, t, [c], rot), t);
    }
  }

  /** `placeFurniture` keeps the engine invariant. */
  lemma PlaceFurnitureKeepsValid(p: Parcel, g: GridState, id: ItemId, o: Cell, rot: int)
    requires GridValid(g)
    ensures GridValid(PlaceFurniture(p, g, id, o, rot).0)
  {
    if PlaceFurniture(p, g, id, o, rot).1 {
      var def := FurnById(id).value;
      var cells := FurnitureCellsOf(def, o, rot);
      FootprintCellsFree(p, g.solids, id, def, o, rot);
      FreshKey(g, FurnitureKey(id, o, rot));
      AddInstanceKeepsValid(g, FurnitureKey(id, o, rot), Instance(Furniture, id, cells, rot), id);
    }
  }

  /** `breakByRefKey` keeps the engine invariant: no other placement loses a cell and no stale entry is left. */
  lemma BreakKeepsValid(g: GridState, k: RefKey)
    requires GridValid(g)
    ensures GridValid(BreakByRefKey(g, k).0)
  {
    if k in g.placed {
      var g' := BreakByRefKey(g, k).0;
      var cells := g.placed[k].cells;
      assert InstanceMarked(g, k);
      forall c
        ensures OccupantLive(g', c)
      {
        if c in g'.solids {
          assert OccupantLive(g, c);
        }
      }
      forall k'
        ensures InstanceMarked(g', k')
      {
        if k' in g'.placed {
          assert InstanceMarked(g, k');
          forall c | c in g'.placed[k'].cells
            ensures c in g'.solids && g'.solids[c].refKey == k'
          {
            assert c !in cells;
          }
        }
      }
    }
  }

  // ---------------------------------------------------------------- conservation

  lemma LiveCountInsert(placed: map<RefKey, Instance>, k: RefKey, inst: Instance, id: ItemId)
    requires k !in placed
    ensures LiveCount(placed[k := inst], id) == LiveCount(placed, id) + (if inst.id == id then 1 else 0)
  {
    var s, s' := LiveKeys(placed, id), LiveKeys(placed[k := inst], id);
    var extra: set<RefKey> := if inst.id == id then {k} else {};
    assert s' == s + extra;
    assert s !! extra;
  }

  lemma LiveCountRemove(placed: map<RefKey, Instance>, k: RefKey, id: ItemId)
    requires k in placed
    ensures LiveCount(placed - {k}, id) == LiveCount(placed, id) - (if placed[k].id == id then 1 else 0)
  {
    var s, s' := LiveKeys(placed, id), LiveKeys(placed - {k}, id);
    if placed[k].id == id {
      assert s' == s - {k};
    } else {
      assert s' == s;
    }
  }

  /** `placeBlock` moves one unit from the register into the world: register plus live placements is unchanged for every id. */
  lemma PlaceBlockConserves(p: Parcel, g: GridState, t: ItemId, c: Cell, rot: int, id: ItemId)
    requires GridValid(g)
    ensures Stock(PlaceBlock(p, g, t, c, rot).0, id) == Stock(g, id)
  {
    if PlaceBlock(p, g, t, c, rot).1 {
      FreshKey(g, BlockRef(c));
      LiveCountInsert(g.placed, BlockRef(c), Instance(Block, t, [c], rot), id);
    }
  }

  /** `placeFurniture` moves one unit from the register into the world. */
  lemma PlaceFurnitureConserves(p: Parcel, g: GridState, fid: ItemId, o: Cell, rot: int, id: ItemId)
    requires GridValid(g)
    ensures Stock(PlaceFurniture(p, g, fid, o, rot).0, id) == Stock(g, id)
  {
    if PlaceFurniture(p, g, fid, o, rot).1 {
      var def := FurnById(fid).value;
      var cells := FurnitureCellsOf(def, o, rot);
      FootprintCellsFree(p, g.solids, fid, def, o, rot);
      FreshKey(g, FurnitureKey(fid, o, rot));
      LiveCountInsert(g.placed, FurnitureKey(fid, o, rot), Instance(Furniture, fid, cells, rot), id);
    }
  }

  /** `breakByRefKey` moves the unit back from the world into the register. */
  lemma BreakConserves(g: GridState, k: RefKey, id: ItemId)
    ensures Stock(BreakByRefKey(g, k).0, id) == Stock(g, id)
  {
    if k in g.placed {
      LiveCountRemove(g.placed, k, id);
    }
  }

  // ---------------------------------------------------------------- break undoes place

  lemma UnmarkAfterMark(m: map<Cell, Occupant>, occ: Occupant, cells: seq<Cell>)
    requires forall c :: c in cells ==> c !in m
    ensures UnmarkAll(MarkAll(m, occ, cells), cells) == m
  {
    var r := UnmarkAll(MarkAll(m, occ, cells), cells);
    assert r.Keys == m.Keys;
  }

  /** Marking one more cell is one more map update. */
  lemma MarkAllSnoc(m: map<Cell, Occupant>, occ: Occupant, cells: seq<Cell>, c: Cell)
    ensures MarkAll(m, occ, cells + [c]) == MarkAll(m, occ, cells)[c := occ]
  {
    var l, r := MarkAll(m, occ, cells + [c]), MarkAll(m, occ, cells)[c := occ];
    assert forall d :: d in cells + [c] <==> d in cells || d == c;
    assert l.Keys == r.Keys;
  }

  /** Unmarking one more cell is one more removal. */
  lemma UnmarkAllSnoc(m: map<Cell, Occupant>, cells: seq<Cell>, c: Cell)
    ensures UnmarkAll(m, cells + [c]) == UnmarkAll(m, cells) - {c}
  {
    var l, r := UnmarkAll(m, cells + [c]), UnmarkAll(m, cells) - {c};
    assert forall d :: d in cells + [c] <==> d in cells || d == c;
    assert l.Keys == r.Keys;
  }

  /** Breaking the block just placed restores occupancy, placements and counts exactly. */
  lemma BreakUndoesPlaceBlock(p: Parcel, g: GridState, t: ItemId, c: Cell, rot: int)
    requires GridValid(g)
    requires PlaceBlock(p, g, t, c, rot).1
    ensures BreakByRefKey(PlaceBlock(p, g, t, c, rot).0, BlockRef(c)) == (g, true)
  {
    var k := BlockRef(c);
    FreshKey(g, k);
    BreakUndoesRecord(g, k, Instance(Block, t, [c], rot));
  }

  /** Giving back the unit just taken restores the register. */
  lemma RefundUndoesTake(m: map<ItemId, int>, id: ItemId)
    requires id in m
    ensures var taken := m[id := m[id] - 1];
            taken[id := CountOf(taken, id) + 1] == m
  {
    var taken := m[id := m[id] - 1];
    assert CountOf(taken, id) + 1 == m[id];
  }

  /** Breaking a freshly recorded instance undoes the record: its cells, its key and its unit. */
  lemma BreakUndoesRecord(g: GridState, k: RefKey, inst: Instance)
    requires k !in g.placed && inst.id in g.counts
    requires forall c :: c in inst.cells ==> c !in g.solids
    ensures var g' := GridState(MarkAll(g.solids, Occupant(k, inst.kind), inst.cells),
                                g.placed[k := inst], g.counts[inst.id := g.counts[inst.id] - 1]);
            BreakByRefKey(g', k) == (g, true)
  {
    var g' := GridState(MarkAll(g.solids, Occupant(k, inst.kind), inst.cells),
                        g.placed[k := inst], g.counts[inst.id := g.counts[inst.id] - 1]);
    UnmarkAfterMark(g.solids, Occupant(k, inst.kind), inst.cells);
    assert g'.placed - {k} == g.placed;
    RefundUndoesTake(g.counts, inst.id);
  }

  /** A placeable piece with stock is recorded under its key with its footprint cells, and one unit is taken. */
  lemma PlaceFurnitureCommits(p: Parcel, g: GridState, id: ItemId, o: Cell, rot: int)
    requires id in g.counts && g.counts[id] > 0
    requires FurnById(id).Some? && FurniturePlaceable(p, g.solids, id, o, rot)
    ensures var k := FurnitureKey(id, o, rot);
            var cells := FurnitureCellsOf(FurnById(id).value, o, rot);
            PlaceFurniture(p, g, id, o, rot)
              == (GridState(MarkAll(g.solids, Occupant(k, Furniture), cells),
                            g.placed[k := Instance(Furniture, id, cells, rot)],
                            g.counts[id := g.counts[id] - 1]), true)
  {
  }

  /** Breaking the piece just placed restores occupancy, placements and counts exactly. */
  lemma BreakUndoesPlaceFurniture(p: Parcel, g: GridState, id: ItemId, o: Cell, rot: int)
    requires GridValid(g)
    requires PlaceFurniture(p, g, id, o, rot).1
    ensures BreakByRefKey(PlaceFurniture(p, g, id, o, rot).0, FurnitureKey(id, o, rot)) == (g, true)
  {
    FootprintCellsFree(p, g.solids, id, FurnById(id).value, o, rot);
    FreshKey(g, FurnitureKey(id, o, rot));
    BreakUndoesFreshFurniture(p, g, id, o, rot);
  }

  /** As above, once the new key is known to be fresh and the footprint free. */
  lemma BreakUndoesFreshFurniture(p: Parcel, g: GridState, id: ItemId, o: Cell, rot: int)
    requires id in g.counts && PlaceFurniture(p, g, id, o, rot).1
    requires FurnitureKey(id, o, rot) !in g.placed
    requires forall c :: c in FurnitureCellsOf(FurnById(id).value, o, rot) ==> c !in g.solids
    ensures BreakByRefKey(PlaceFurniture(p, g, id, o, rot).0, FurnitureKey(id, o, rot)) == (g, true)
  {
    var k := FurnitureKey(id, o, rot);
    var inst := Instance(Furniture, id, FurnitureCellsOf(FurnById(id).value, o, rot), rot);
    PlaceFurnitureCommits(p, g, id, o, rot);
    BreakUndoesRecord(g, k, inst);
  }

  /**
   * A successful `placeFurniture` marks under the new key exactly the cells of
   * [o.x, o.x+fw) x [o.y, o.y+h) x [o.z, o.z+fd) and leaves every other cell as it was.
   */
  lemma PlaceFurnitureMarksBox(p: Parcel, g: GridState, id: ItemId, o: Cell, rot: int, c: Cell)
    requires GridValid(g)
    requires PlaceFurniture(p, g, id, o, rot).1
    ensures var def := FurnById(id).value;
            var q := Quarter(rot);
            var box := InBox(o, RotatedWidth(def, q), RotatedDepth(def, q), HeightCells(def.heightCm), c);
            var s := PlaceFurniture(p, g, id, o, rot).0.solids;
            && (c in s && s[c].refKey == FurnitureKey(id, o, rot) <==> box)
            && (!box ==> (c in s <==> c in g.solids) && (c in s ==> s[c] == g.solids[c]))
  {
    var def := FurnById(id).value;
    var q := Quarter(rot);
    var k := FurnitureKey(id, o, rot);
    var cells := FurnitureCellsOf(def, o, rot);
    var s := PlaceFurniture(p, g, id, o, rot).0.solids;
    assert s == MarkAll(g.solids, Occupant(k, Furniture), cells);
    BoxCellsExact(o, RotatedWidth(def, q), RotatedDepth(def, q), HeightCells(def.heightCm), c);
    FootprintCellsFree(p, g.solids, id, def, o, rot);
    FreshKey(g, k);
    assert OccupantLive(g, c);
  }

  /** A successful block placement marks exactly its one cell under its own key and records the block under that key. */
  lemma PlaceBlockMarksCell(p: Parcel, g: GridState, t: ItemId, c: Cell, rot: int)
    requires t in g.counts && PlaceBlock(p, g, t, c, rot).1
    ensures var r := PlaceBlock(p, g, t, c, rot).0;
            && r.solids == g.solids[c := Occupant(BlockRef(c), Block)]
            && r.placed == g.placed[BlockRef(c) := Instance(Block, t, [c], rot)]
  {
    MarkAllSnoc(g.solids, Occupant(BlockRef(c), Block), [], c);
    assert [] + [c] == [c];
  }
}
