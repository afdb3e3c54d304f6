/**
 * The inventory and hotbar of the game: the list of items, the per-item count
 * register the build engine debits and credits, and the hotbar selection with
 * its ten-slot page.
 */
module Hotbar {
  import opened Catalog
  import opened JsNumbers

  datatype ItemKind = BlockItem | FurnitureItem

  /** A hotbar entry; its display name and icon are left out. */
  datatype Item = Item(id: ItemId, kind: ItemKind)

  /** The six block items, in hotbar order. */
  const BaseItems: seq<Item> := [
    Item(Floor, BlockItem), Item(Wall, BlockItem), Item(Slab, BlockItem),
    Item(Glass, BlockItem), Item(Window, BlockItem), Item(Door, BlockItem)
  ]

  /** `ITEMS`: the block items followed by one furniture item per catalog entry, in catalog order. */
  const Items: seq<Item> :=
    BaseItems + seq(|Furniture|, i requires 0 <= i < |Furniture| => Item(Furniture[i].id, FurnitureItem))

  const PageSize: int := 10
  const StartCount: int := 99

  /** The hotbar lists the six block items, then the catalog furniture in order: twelve items in all. */
  lemma ItemsLayout()
    ensures |Items| == 12
    ensures Items[..6] == BaseItems
    ensures forall i :: 0 <= i < |Furniture| ==> Items[6 + i] == Item(Furniture[i].id, FurnitureItem)
  {
  }

  /** Every item id of the game appears in the hotbar. */
  lemma EveryIdListed(id: ItemId)
    ensures exists i :: 0 <= i < |Items| && Items[i].id == id
  {
    var i := match id
      case Floor => 0 case Wall => 1 case Slab => 2 case Glass => 3 case Window => 4 case Door => 5
      case CashierCounter => 6 case AisleShelf => 7 case FridgeWall => 8 case Pallet => 9
      case ProduceStand => 10 case GlassSlidingDoor => 11;
    assert Items[i].id == id;
  }

  /** The hotbar written out: six block items, then the six catalog pieces. */
  lemma ItemsListed()
    ensures Items == [
      Item(Floor, BlockItem), Item(Wall, BlockItem), Item(Slab, BlockItem),
      Item(Glass, BlockItem), Item(Window, BlockItem), Item(Door, BlockItem),
      Item(CashierCounter, FurnitureItem), Item(AisleShelf, FurnitureItem), Item(FridgeWall, FurnitureItem),
      Item(Pallet, FurnitureItem), Item(ProduceStand, FurnitureItem), Item(GlassSlidingDoor, FurnitureItem)]
  {
    ItemsLayout();
  }

  /** Block items carry block ids, furniture items carry ids the catalog knows. */
  lemma ItemKindsMatchCatalog(it: Item)
    requires it in Items
    ensures it.kind == BlockItem <==> FurnById(it.id).None?
  {
    ItemsListed();
    FurnByIdKnows(it.id);
  }

  /** `Math.floor(selected / pageSize) * pageSize`: the first index of the page holding `sel`. */
  function PageStartOf(sel: int): (p: int)
    ensures p % PageSize == 0
    ensures p <= sel < p + PageSize
  {
    (sel / PageSize) * PageSize
  }

  /** `(selected + dir + n) % n` with JavaScript's remainder. */
  function CycleIndex(sel: int, dir: int, n: int): int
    requires n > 0
  {
    JsRem(sel + dir + n, n)
  }

  /**
   * A step of at least `-n` from a valid index stays a valid index: it is the
   * residue of `sel + dir` modulo `n`, so adding `n` before JavaScript's `%`
   * repairs its sign for every such step.
   */
  lemma CycleInRange(sel: int, dir: int, n: int)
    requires n > 0 && 0 <= sel < n && dir >= -n
    ensures 0 <= CycleIndex(sel, dir, n) < n
    ensures CycleIndex(sel, dir, n) == (sel + dir) % n
  {
    var a := sel + dir + n;
    assert a == n * (a / n) + a % n;
    assert sel + dir == n * (a / n - 1) + a % n;
    Residue(sel + dir, n, a / n - 1, a % n);
  }

  /** One step forward or back from a valid index of the twelve-item hotbar: the neighbour, wrapping at either end. */
  lemma CycleStep(sel: int)
    requires 0 <= sel < 12
    ensures CycleIndex(sel, 1, 12) == if sel == 11 then 0 else sel + 1
    ensures CycleIndex(sel, -1, 12) == if sel == 0 then 11 else sel - 1
  {
    if sel == 11 {
      assert (sel + 1 + 12) % 12 == 0;
    } else {
      assert (sel + 1 + 12) % 12 == sel + 1;
    }
    if sel == 0 {
      assert (sel - 1 + 12) % 12 == 11;
    } else {
      assert (sel - 1 + 12) % 12 == sel - 1;
    }
  }

  /**
   * On the twelve-item hotbar (`ItemsLayout`): forward from the last wraps to
   * the first, back from the first wraps to the last, and a step forward then
   * back (or back then forward) returns.
   */
  lemma CycleWraps(sel: int)
    requires 0 <= sel < 12
    ensures CycleIndex(11, 1, 12) == 0
    ensures CycleIndex(0, -1, 12) == 11
    ensures CycleIndex(CycleIndex(sel, 1, 12), -1, 12) == sel
    ensures CycleIndex(CycleIndex(sel, -1, 12), 1, 12) == sel
  {
    CycleStep(sel);
    CycleStep(CycleIndex(sel, 1, 12));
    CycleStep(CycleIndex(sel, -1, 12));
  }

  class Inventory {
    /** `counts`: units held per item id. */
    var counts: map<ItemId, int>
    var selected: int
    var pageStart: int

    /** The selection is a valid index, the page is the one holding it, and every item has a count. */
    ghost predicate Valid()
      reads this
    {
      && 0 <= selected < |Items|
      && pageStart == PageStartOf(selected)
      && forall id: ItemId :: id in counts
    }

    /** `create`: a count of 99 for every item, the first item selected, the first page shown. */
    constructor ()
      ensures Valid()
      ensures forall id: ItemId :: id in counts && counts[id] == StartCount
      ensures selected == 0 && pageStart == 0
    {
      var c: map<ItemId, int> := map[];
      var i := 0;
      while i < |Items|
        invariant 0 <= i <= |Items|
        invariant forall id :: id in c ==> c[id] == StartCount
        invariant forall j :: 0 <= j < i ==> Items[j].id in c
      {
        c := c[Items[i].id := StartCount];
        i := i + 1;
      }
      forall id: ItemId
        ensures id in c
      {
        EveryIdListed(id);
      }
      counts := c;
      selected := 0;
      pageStart := PageStartOf(0);
    }

    /** `updatePage`: recompute the page start from the selection. */
    method UpdatePage()
      modifies this`pageStart
      ensures pageStart == PageStartOf(selected)
      ensures pageStart % PageSize == 0 && pageStart <= selected < pageStart + PageSize
    {
      pageStart := (selected / PageSize) * PageSize;
    }

    /** `getSelectedItem`: the selected entry, always defined because the selection stays in range. */
    function SelectedItem(): (it: Item)
      reads this
      requires Valid()
      ensures it in Items
      ensures it == Items[selected]
    {
      Items[selected]
    }

    /** `setSelected`: truncate the index to a 32-bit integer, clamp it into the item range, then update the page. */
    method SetSelected(idx: int)
      requires Valid()
      modifies this`selected, this`pageStart
      ensures Valid()
      ensures selected == Clamp(ToInt32(idx), 0, |Items| - 1)
      ensures 0 <= idx < |Items| ==> selected == idx
    {
      selected := Clamp(ToInt32(idx), 0, |Items| - 1);
      UpdatePage();
    }

    /** `setSelectedInPage`: select slot `slot` of the current page if that index exists, else change nothing. */
    method SetSelectedInPage(slot: int) returns (ok: bool)
      requires Valid()
      modifies this`selected, this`pageStart
      ensures Valid()
      ensures ok <==> 0 <= old(pageStart) + slot < |Items|
      ensures ok ==> selected == old(pageStart) + slot
      ensures !ok ==> selected == old(selected) && pageStart == old(pageStart)
    {
      var idx := pageStart + slot;
      if 0 <= idx < |Items| {
        SetSelected(idx);
        return true;
      }
      return false;
    }

    /** `cycle`: move the selection by `dir`, wrapping modulo the item count. */
    method Cycle(dir: int)
      requires Valid()
      requires dir >= -|Items|
      modifies this`selected, this`pageStart
      ensures Valid()
      ensures selected == CycleIndex(old(selected), dir, |Items|)
    {
      var n := |Items|;
      selected := JsRem(selected + dir + n, n);
      UpdatePage();
    }
  }
}
