/**
 * The read-only tables the build engine consults: the item ids of the game and,
 * for each piece of furniture, the footprint in grid cells and the height that
 * decides how many height layers it occupies. Meshes, materials, prices and the
 * door animation of the catalog are not part of this model.
 */
module Catalog {
  import opened Wrappers

  /** Every item id the game defines: the six block types, then the six catalog furniture pieces. */
  datatype ItemId =
    | Floor | Wall | Slab | Glass | Window | Door
    | CashierCounter | AisleShelf | FridgeWall | Pallet | ProduceStand | GlassSlidingDoor

  /**
   * The part of a furniture definition the grid engine reads: `footprint[0]`,
   * `footprint[1]` (cells, before rotation) and `size[1]` (metres), here in centimetres.
   */
  datatype FurnDef = FurnDef(id: ItemId, width: nat, depth: nat, heightCm: nat)

  /** The furniture list, in catalog order. */
  const Furniture: seq<FurnDef> := [
    FurnDef(CashierCounter, 3, 2, 105),
    FurnDef(AisleShelf, 2, 1, 220),
    FurnDef(FridgeWall, 3, 1, 220),
    FurnDef(Pallet, 2, 2, 22),
    FurnDef(ProduceStand, 2, 2, 165),
    FurnDef(GlassSlidingDoor, 2, 1, 220)
  ]

  /**
   * Lookup in a dictionary filled by walking `defs` in order: a later entry
   * with the same id overwrites an earlier one, so the last match wins.
   */
  function FindDef(defs: seq<FurnDef>, id: ItemId): (r: Option<FurnDef>)
    ensures r.None? <==> forall i :: 0 <= i < |defs| ==> defs[i].id != id
    ensures r.Some? ==> r.value in defs && r.value.id == id
  {
    if defs == [] then None
    else if defs[|defs| - 1].id == id then Some(defs[|defs| - 1])
    else
      var front := defs[..|defs| - 1];
      assert forall i :: 0 <= i < |front| ==> front[i] == defs[i];
      FindDef(front, id)
  }

  /** The entry found is the last one in `defs` with that id. */
  lemma {:induction false} FindDefLast(defs: seq<FurnDef>, id: ItemId)
    requires FindDef(defs, id).Some?
    ensures exists i :: 0 <= i < |defs| && defs[i] == FindDef(defs, id).value
                        && forall j :: i < j < |defs| ==> defs[j].id != id
  {
    var last := |defs| - 1;
    if defs[last].id != id {
      var front := defs[..last];
      FindDefLast(front, id);
      var i :| 0 <= i < |front| && front[i] == FindDef(front, id).value
               && forall j :: i < j < |front| ==> front[j].id != id;
      forall j | i < j < |defs|
        ensures defs[j].id != id
      {
        if j < last {
          assert defs[j] == front[j];
        }
      }
      assert defs[i] == front[i];
    }
  }

  /** `FURN_BY_ID[id]`: the definition of a furniture id; block ids are unknown to it. */
  function FurnById(id: ItemId): (r: Option<FurnDef>)
    ensures r.Some? ==> r.value in Furniture && r.value.id == id
    ensures r.Some? ==> r.value.width >= 1 && r.value.depth >= 1
  {
    FindDef(Furniture, id)
  }

  /** Position of a furniture id in the catalog list (-1 for block ids). */
  function CatalogIndex(id: ItemId): int
  {
    match id
    case CashierCounter => 0
    case AisleShelf => 1
    case FridgeWall => 2
    case Pallet => 3
    case ProduceStand => 4
    case GlassSlidingDoor => 5
    case _ => -1
  }

  /** No two catalog entries share an id. */
  predicate DistinctIds(defs: seq<FurnDef>)
  {
    forall i, j :: 0 <= i < j < |defs| ==> defs[i].id != defs[j].id
  }

  /** Each catalog entry is found under its own id; the six block ids are unknown to the catalog. */
  lemma FurnByIdTable()
    ensures forall i :: 0 <= i < |Furniture| ==> FurnById(Furniture[i].id) == Some(Furniture[i])
    ensures forall id :: id in {Floor, Wall, Slab, Glass, Window, Door} ==> FurnById(id) == None
  {
    assert forall i :: 0 <= i < |Furniture| ==> CatalogIndex(Furniture[i].id) == i;
    assert DistinctIds(Furniture);
    forall i | 0 <= i < |Furniture|
      ensures FurnById(Furniture[i].id) == Some(Furniture[i])
    {
      var r := FindDef(Furniture, Furniture[i].id);
      assert r.Some?;
      var j :| 0 <= j < |Furniture| && Furniture[j] == r.value;
      assert j == i;
    }
    forall id | id in {Floor, Wall, Slab, Glass, Window, Door}
      ensures FurnById(id) == None
    {
      assert forall i :: 0 <= i < |Furniture| ==> Furniture[i].id != id;
    }
  }

  /** The ids of `BlockTypes`, the six block ids of the hotbar; every other id names a catalog piece. */
  predicate IsBlockId(id: ItemId)
  {
    id.Floor? || id.Wall? || id.Slab? || id.Glass? || id.Window? || id.Door?
  }

  /** The catalog knows exactly the ids that are not block ids. */
  lemma FurnByIdKnows(id: ItemId)
    ensures FurnById(id).None? <==> IsBlockId(id)
  {
    FurnByIdTable();
    if !IsBlockId(id) {
      var i := CatalogIndex(id);
      assert 0 <= i < |Furniture| && Furniture[i].id == id;
    }
  }

  /** `Math.max(1, Math.ceil(size[1]))`: the number of one-metre height layers a piece occupies. */
  function HeightCells(heightCm: nat): (h: nat)
    ensures h >= 1
    ensures heightCm <= 100 * h
    ensures h == 1 || 100 * (h - 1) < heightCm
  {
    if heightCm <= 100 then 1 else (heightCm + 99) / 100
  }

  /** `Math.round(...) & 3` of a rotation of `q` quarter turns: the quarter index 0..3. */
  function Quarter(q: int): (r: int)
    ensures 0 <= r < 4
    ensures (q - r) % 4 == 0
  {
    q % 4
  }

  /** Width (x extent) of the footprint at quarter `r`: width and depth swap on odd quarters. */
  function RotatedWidth(def: FurnDef, r: int): nat
  {
    if r % 2 == 0 then def.width else def.depth
  }

  /** Depth (z extent) of the footprint at quarter `r`. */
  function RotatedDepth(def: FurnDef, r: int): nat
  {
    if r % 2 == 0 then def.depth else def.width
  }

  /** A half turn leaves the footprint as it is, a quarter turn swaps its sides; the area never changes. */
  lemma FootprintRotation(def: FurnDef, r: int)
    ensures RotatedWidth(def, r + 2) == RotatedWidth(def, r) && RotatedDepth(def, r + 2) == RotatedDepth(def, r)
    ensures RotatedWidth(def, r + 1) == RotatedDepth(def, r) && RotatedDepth(def, r + 1) == RotatedWidth(def, r)
    ensures RotatedWidth(def, r) * RotatedDepth(def, r) == def.width * def.depth
  {
  }

  /** The table the placement rules read: footprint w x d and height layers of every piece. */
  lemma CatalogGeometry()
    ensures FurnById(CashierCounter) == Some(FurnDef(CashierCounter, 3, 2, 105)) && HeightCells(105) == 2
    ensures FurnById(AisleShelf) == Some(FurnDef(AisleShelf, 2, 1, 220)) && HeightCells(220) == 3
    ensures FurnById(FridgeWall) == Some(FurnDef(FridgeWall, 3, 1, 220))
    ensures FurnById(Pallet) == Some(FurnDef(Pallet, 2, 2, 22)) && HeightCells(22) == 1
    ensures FurnById(ProduceStand) == Some(FurnDef(ProduceStand, 2, 2, 165)) && HeightCells(165) == 2
    ensures FurnById(GlassSlidingDoor) == Some(FurnDef(GlassSlidingDoor, 2, 1, 220))
  {
    FurnByIdTable();
    assert Furniture[0].id == CashierCounter && Furniture[1].id == AisleShelf && Furniture[2].id == FridgeWall;
    assert Furniture[3].id == Pallet && Furniture[4].id == ProduceStand && Furniture[5].id == GlassSlidingDoor;
  }
}
