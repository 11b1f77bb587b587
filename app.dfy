/** The gallery component (src/App.tsx): the list of image items, the
    selection toggle, the drag-and-drop reorder, the bulk delete and the
    drag-overlay state. The list operations are pure functions from the old
    list to the new one; the component's two pieces of React state are the
    fields of the class `Gallery`, whose handlers assign them. */
module App {
  import opened ArrayOps
  import opened ImageTypes
  import Header

  // ---------------------------------------------------------------------------
  // Selection toggle: handleSelectImage
  // ---------------------------------------------------------------------------

  /** `galleryData.map(...)` flipping `isSelected` on every item whose id is
      `id`; every other item is passed through as it is. */
  function ToggleSelect(galleryData: seq<Item>, id: Id): (r: seq<Item>)
    ensures |r| == |galleryData|
    ensures forall i :: 0 <= i < |r| ==>
      && r[i].id == galleryData[i].id
      && r[i].slug == galleryData[i].slug
      && (r[i].isSelected <==> if galleryData[i].id == id then !galleryData[i].isSelected else galleryData[i].isSelected)
  {
    seq(|galleryData|, i requires 0 <= i < |galleryData| =>
      var imageItem := galleryData[i];
      if imageItem.id == id then imageItem.(isSelected := !imageItem.isSelected) else imageItem)
  }

  /** Toggling the same id twice gives back the original gallery. */
  lemma ToggleSelectTwice(galleryData: seq<Item>, id: Id)
    ensures ToggleSelect(ToggleSelect(galleryData, id), id) == galleryData
  {
    var r := ToggleSelect(ToggleSelect(galleryData, id), id);
    assert forall i :: 0 <= i < |r| ==> r[i] == galleryData[i];
  }

  /** Toggling an id that no item carries changes nothing. */
  lemma ToggleSelectAbsent(galleryData: seq<Item>, id: Id)
    requires !HasId(galleryData, id)
    ensures ToggleSelect(galleryData, id) == galleryData
  {
    var r := ToggleSelect(galleryData, id);
    assert forall i :: 0 <= i < |r| ==> r[i] == galleryData[i];
  }

  /** With unique ids, toggling a present id flips exactly one item: the
      selection gains it if it was unselected and loses it otherwise. */
  lemma ToggleSelectFlipsOne(galleryData: seq<Item>, id: Id, k: nat)
    requires UniqueIds(galleryData)
    requires k < |galleryData| && galleryData[k].id == id
    ensures var r := ToggleSelect(galleryData, id);
      && r[k] == galleryData[k].(isSelected := !galleryData[k].isSelected)
      && (forall i :: 0 <= i < |r| && i != k ==> r[i] == galleryData[i])
      && UniqueIds(r)
  {
  }

  // ---------------------------------------------------------------------------
  // Drag start and the overlay item: handleDragStart
  // ---------------------------------------------------------------------------

  /** The results of JavaScript's `typeof` that can matter here. */
  datatype JsType = Undefined | Object | String | Number

  /** `typeof` of a `find` result: `undefined`, or an item object. */
  function TypeOf(v: Option<Item>): (t: JsType)
  {
    if v.None? then Undefined else Object
  }

  /** `!id` for a string or number identifier: the empty string and zero. */
  predicate IsFalsy(id: Id)
  {
    id == Str("") || id == Num(0)
  }

  /** `galleryData.find((item) => item.id === id)`. */
  function FindById(galleryData: seq<Item>, id: Id): (r: Option<Item>)
    ensures r.Some? <==> HasId(galleryData, id)
    ensures r.Some? ==> r.value.id == id && r.value in galleryData
  {
    Find(galleryData, (item: Item) => item.id == id)
  }

  /** The guard in front of `setActiveItem` in the drag-start handler asks
      whether the found item is a string or a number; a `find` over items
      yields an item or `undefined`, so the guard never holds and the overlay
      item is never set. */
  lemma DragStartGuardNeverHolds(galleryData: seq<Item>, id: Id)
    ensures TypeOf(FindById(galleryData, id)) != String
    ensures TypeOf(FindById(galleryData, id)) != Number
  {
  }

  // ---------------------------------------------------------------------------
  // Drag end: handleDragEnd with findIndex and arrayMove
  // ---------------------------------------------------------------------------

  /** `items.findIndex((item) => item.id === id)`. */
  function IndexOfId(items: seq<Item>, id: Id): (r: int)
    ensures -1 <= r < |items|
    ensures 0 <= r <==> HasId(items, id)
    ensures 0 <= r ==> items[r].id == id && forall j :: 0 <= j < r ==> items[j].id != id
  {
    FindIndex(items, (item: Item) => item.id == id)
  }

  /** The state updater passed to `setGalleryData` on a drop: move the
      dragged item to the index the drop target had. Both ids must be in the
      list: the handler does not guard against `findIndex` returning -1. */
  function MoveById(items: seq<Item>, activeId: Id, overId: Id): (r: seq<Item>)
    requires HasId(items, activeId) && HasId(items, overId)
  {
    ArrayMove(items, IndexOfId(items, activeId), IndexOfId(items, overId))
  }

  /** When the drag end reaches `arrayMove`, both ids are in the gallery. */
  predicate DragEndDefined(galleryData: seq<Item>, activeId: Id, overId: Option<Id>)
  {
    overId.Some? && activeId != overId.value ==>
      HasId(galleryData, activeId) && HasId(galleryData, overId.value)
  }

  /** The gallery after a drop of `activeId` onto `overId` (`None` when the
      drag ended over no target). */
  function DragEnd(galleryData: seq<Item>, activeId: Id, overId: Option<Id>): (r: seq<Item>)
    requires DragEndDefined(galleryData, activeId, overId)
    ensures overId.None? ==> r == galleryData
    ensures overId == Some(activeId) ==> r == galleryData
    ensures |r| == |galleryData|
  {
    if overId.None? then galleryData
    else if activeId == overId.value then galleryData
    else MoveById(galleryData, activeId, overId.value)
  }

  /** A drop of `activeId` onto a different `overId`, both present: the
      gallery is permuted, the dragged item lands at the target's old index,
      and all other items keep their relative order. */
  lemma DragEndMoves(galleryData: seq<Item>, activeId: Id, overId: Id)
    requires activeId != overId
    requires HasId(galleryData, activeId) && HasId(galleryData, overId)
    ensures var r := DragEnd(galleryData, activeId, Some(overId));
      var from, to := IndexOfId(galleryData, activeId), IndexOfId(galleryData, overId);
      && 0 <= from < |r| && 0 <= to < |r|
      && multiset(r) == multiset(galleryData)
      && r[to] == galleryData[from]
      && r[to].id == activeId
      && RemoveAt(r, to) == RemoveAt(galleryData, from)
  {
    var from, to := IndexOfId(galleryData, activeId), IndexOfId(galleryData, overId);
    ArrayMovePermutes(galleryData, from, to);
  }

  /** A drop keeps the ids unique. */
  lemma DragEndKeepsUniqueIds(galleryData: seq<Item>, activeId: Id, overId: Option<Id>)
    requires DragEndDefined(galleryData, activeId, overId)
    requires UniqueIds(galleryData)
    ensures UniqueIds(DragEnd(galleryData, activeId, overId))
  {
    if overId.Some? && activeId != overId.value {
      var from, to := IndexOfId(galleryData, activeId), IndexOfId(galleryData, overId.value);
      var r := DragEnd(galleryData, activeId, overId);
      forall i, j | 0 <= i < j < |r|
        ensures r[i].id != r[j].id
      {
        ArrayMoveAt(galleryData, from, to, i);
        ArrayMoveAt(galleryData, from, to, j);
        MoveSourceInjective(from, to, i, j);
        var a, b := MoveSource(from, to, i), MoveSource(from, to, j);
        assert galleryData[a].id != galleryData[b].id by {
          if a > b {
            assert galleryData[b].id != galleryData[a].id;
          }
        }
      }
    }
  }

  /** Dropping the item that was just moved back onto the item now at its
      old index restores the gallery. */
  lemma DragEndUndo(galleryData: seq<Item>, activeId: Id, overId: Id)
    requires UniqueIds(galleryData)
    requires activeId != overId
    requires HasId(galleryData, activeId) && HasId(galleryData, overId)
    ensures var from := IndexOfId(galleryData, activeId);
      var r := DragEnd(galleryData, activeId, Some(overId));
      var backOver := r[from].id;
      && DragEndDefined(r, activeId, Some(backOver))
      && DragEnd(r, activeId, Some(backOver)) == galleryData
  {
    var from, to := IndexOfId(galleryData, activeId), IndexOfId(galleryData, overId);
    var r := DragEnd(galleryData, activeId, Some(overId));
    DragEndMoves(galleryData, activeId, overId);
    DragEndKeepsUniqueIds(galleryData, activeId, Some(overId));
    var backOver := r[from].id;
    assert from != to by {
      assert galleryData[from].id != galleryData[to].id;
    }
    assert backOver != activeId by {
      assert r[to].id == activeId;
      if from < to {
        assert r[from].id != r[to].id;
      } else {
        assert r[to].id != r[from].id;
      }
    }
    assert IndexOfId(r, activeId) == to;
    assert IndexOfId(r, backOver) == from;
    ArrayMoveInverse(galleryData, from, to);
  }

  // ---------------------------------------------------------------------------
  // Bulk delete: handleDelete
  // ---------------------------------------------------------------------------

  /** Filtering keeps ids unique. */
  lemma {:induction false} FilterKeepsUniqueIds(items: seq<Item>, keep: Item -> bool)
    ensures UniqueIds(items) ==> UniqueIds(Filter(items, keep))
  {
    if items != [] && UniqueIds(items) {
      FilterKeepsUniqueIds(items[1..], keep);
      var rest := Filter(items[1..], keep);
      if keep(items[0]) {
        var r := [items[0]] + rest;
        forall j | 0 < j < |r|
          ensures r[0].id != r[j].id
        {
          assert r[j] in rest;
          var k :| 0 <= k < |items[1..]| && items[1..][k] == r[j];
          assert items[k + 1] == r[j];
        }
      }
    }
  }

  /** The filter callback `(item) => !selectedItems.includes(item)`. */
  function NotIncludedIn(selectedItems: seq<Item>): (keep: Item -> bool)
  {
    (item: Item) => item !in selectedItems
  }

  /** `galleryData.filter((item) => !selectedItems.includes(item))`: exactly
      the items not in `selectedItems`, each as often as before, in their
      original relative order. */
  function Delete(galleryData: seq<Item>, selectedItems: seq<Item>): (r: seq<Item>)
    ensures forall x :: x in r <==> x in galleryData && x !in selectedItems
    ensures forall x :: multiset(r)[x] == if x in selectedItems then 0 else multiset(galleryData)[x]
    ensures IsSubsequence(r, galleryData)
    ensures UniqueIds(galleryData) ==> UniqueIds(r)
  {
    var keep := NotIncludedIn(selectedItems);
    FilterIsSubsequence(galleryData, keep);
    FilterKeepsUniqueIds(galleryData, keep);
    Filter(galleryData, keep)
  }

  /** Deleting a list that includes no item of the gallery changes nothing. */
  lemma DeleteAbsent(galleryData: seq<Item>, selectedItems: seq<Item>)
    requires forall x :: x in selectedItems ==> x !in galleryData
    ensures Delete(galleryData, selectedItems) == galleryData
  {
    var keep := NotIncludedIn(selectedItems);
    forall i | 0 <= i < |galleryData|
      ensures keep(galleryData[i])
    {
      assert galleryData[i] in galleryData;
    }
    FilterKeepsAll(galleryData, keep);
  }

  /** Deleting the selected items removes every selected item and keeps
      every unselected one, as often as before and in order. */
  lemma DeleteSelectedItems(galleryData: seq<Item>)
    ensures var r := Delete(galleryData, Header.SelectedItems(galleryData));
      && (forall i :: 0 <= i < |r| ==> !r[i].isSelected)
      && (forall x: Item :: multiset(r)[x] == if x.isSelected then 0 else multiset(galleryData)[x])
      && IsSubsequence(r, galleryData)
  {
    var selected := Header.SelectedItems(galleryData);
    var r := Delete(galleryData, selected);
    forall i | 0 <= i < |r|
      ensures !r[i].isSelected
    {
      assert r[i] in r;
    }
    forall x: Item
      ensures multiset(r)[x] == if x.isSelected then 0 else multiset(galleryData)[x]
    {
      if x.isSelected && x !in selected {
        assert x !in galleryData;
      }
    }
  }

  /** Deleting a list that includes some item of the gallery shortens the
      gallery. */
  lemma DeleteShrinks(galleryData: seq<Item>, selectedItems: seq<Item>)
    requires exists x :: x in selectedItems && x in galleryData
    ensures |Delete(galleryData, selectedItems)| < |galleryData|
  {
    var r := Delete(galleryData, selectedItems);
    var x :| x in selectedItems && x in galleryData;
    assert multiset(r)[x] == 0 < multiset(galleryData)[x];
    var rest := multiset(galleryData) - multiset(r);
    assert multiset(r) <= multiset(galleryData);
    assert multiset(galleryData) == multiset(r) + rest;
    assert x in rest;
    assert |rest| > 0;
  }

  /** Clicking the header's delete button hands the selection to the delete
      handler, which then removes every selected item (at least one) and
      keeps every unselected item, as often as before and in order. */
  lemma DeleteSelection(galleryData: seq<Item>)
    requires Header.View(galleryData).Selection?
    ensures Header.View(galleryData).onDelete == Some(Header.SelectedItems(galleryData))
    ensures var r := Delete(galleryData, Header.SelectedItems(galleryData));
      && (forall i :: 0 <= i < |r| ==> !r[i].isSelected)
      && (forall x: Item :: !x.isSelected ==> multiset(r)[x] == multiset(galleryData)[x])
      && IsSubsequence(r, galleryData)
      && |r| < |galleryData|
  {
    DeleteSelectedItems(galleryData);
    var selected := Header.SelectedItems(galleryData);
    assert selected[0] in selected;
    DeleteShrinks(galleryData, selected);
  }

  // ---------------------------------------------------------------------------
  // The component's state
  // ---------------------------------------------------------------------------

  /** The `App` component's state: the gallery list and the item shown in the
      drag overlay (`null` is `None`). Each handler replaces them through
      their setters. */
  class Gallery {
    var galleryData: seq<Item>
    var activeItem: Option<Item>

    /** `useState(initialImageData)` and `useState(null)`. */
    constructor (initialImageData: seq<Item>)
      ensures galleryData == initialImageData
      ensures activeItem == None
    {
      galleryData := initialImageData;
      activeItem := None;
    }

    /** A click on a card toggles its selection. */
    method HandleSelectImage(id: Id)
      modifies this
      ensures galleryData == ToggleSelect(old(galleryData), id)
      ensures activeItem == old(activeItem)
      ensures UniqueIds(old(galleryData)) ==> UniqueIds(galleryData)
    {
      var newGalleryData := ToggleSelect(galleryData, id);
      galleryData := newGalleryData;
    }

    /** A drag start looks the dragged item up, but its guard never lets it
        reach `setActiveItem`: nothing changes. */
    method HandleDragStart(id: Id)
      ensures galleryData == old(galleryData)
      ensures activeItem == old(activeItem)
    {
      if IsFalsy(id) {
        return;
      }
      var currentItem := FindById(galleryData, id);
      var kind := TypeOf(currentItem);
      if kind == String || kind == Number {
        assert false;
      }
    }

    /** A drag end clears the overlay item and, when it ended over another
        item, moves the dragged item to that item's index. */
    method HandleDragEnd(activeId: Id, overId: Option<Id>)
      requires DragEndDefined(galleryData, activeId, overId)
      modifies this
      ensures activeItem == None
      ensures galleryData == DragEnd(old(galleryData), activeId, overId)
      ensures multiset(galleryData) == multiset(old(galleryData))
      ensures UniqueIds(old(galleryData)) ==> UniqueIds(galleryData)
    {
      if UniqueIds(galleryData) {
        DragEndKeepsUniqueIds(galleryData, activeId, overId);
      }
      activeItem := None;
      if overId.None? {
        return;
      }
      if activeId != overId.value {
        ghost var before := galleryData;
        galleryData := MoveById(galleryData, activeId, overId.value);
        DragEndMoves(before, activeId, overId.value);
      }
    }

    /** The delete handler keeps the items not in `selectedItems`. */
    method HandleDelete(selectedItems: seq<Item>)
      modifies this
      ensures galleryData == Delete(old(galleryData), selectedItems)
      ensures activeItem == old(activeItem)
    {
      var newGalleryData := Delete(galleryData, selectedItems);
      galleryData := newGalleryData;
    }
  }

  // ---------------------------------------------------------------------------
  // Scenarios
  // ---------------------------------------------------------------------------

  /** Dragging item 1 onto item 3 of [1, 2, 3] gives [2, 3, 1]. */
  lemma DragScenario()
    ensures var a, b, c := Item(Num(1), "a", false), Item(Num(2), "b", false), Item(Num(3), "c", false);
      && IndexOfId([a, b, c], Num(1)) == 0
      && IndexOfId([a, b, c], Num(3)) == 2
      && DragEnd([a, b, c], Num(1), Some(Num(3))) == [b, c, a]
  {
    var a, b, c := Item(Num(1), "a", false), Item(Num(2), "b", false), Item(Num(3), "c", false);
    var s := [a, b, c];
    assert IndexOfId(s, Num(1)) == 0;
    assert IndexOfId(s, Num(3)) == 2 by {
      assert s[0].id != Num(3) && s[1].id != Num(3) && s[2].id == Num(3);
    }
    var r := ArrayMove(s, 0, 2);
    assert RemoveAt(s, 0) == [b, c];
    assert r == [b, c, a] by {
      ArrayMoveUnique(s, 0, 2, [b, c, a]);
    }
  }

  /** Toggling item 2 of two unselected items selects it alone. */
  lemma ToggleScenario()
    ensures ToggleSelect([Item(Num(1), "a", false), Item(Num(2), "b", false)], Num(2))
      == [Item(Num(1), "a", false), Item(Num(2), "b", true)]
  {
    var g := ToggleSelect([Item(Num(1), "a", false), Item(Num(2), "b", false)], Num(2));
    assert g[0] == Item(Num(1), "a", false);
    assert g[1] == Item(Num(2), "b", true);
  }

  /** With only item 2 of [1, 2] selected, the selection is item 2 alone. */
  lemma SelectedScenario()
    ensures Header.SelectedItems([Item(Num(1), "a", false), Item(Num(2), "b", true)])
      == [Item(Num(2), "b", true)]
  {
    var a, b := Item(Num(1), "a", false), Item(Num(2), "b", true);
    assert [a, b][1..] == [b];
    assert [b][1..] == [];
  }

  /** With only item 2 of [1, 2] selected, the header reads
      "1 Files Selected" and its button hands over item 2. */
  lemma HeaderScenario()
    ensures var a, b := Item(Num(1), "a", false), Item(Num(2), "b", true);
      Header.View([a, b]) == Header.Selection(Header.CheckboxIcon, "1 Files Selected", "Delete Files", Some([b]))
  {
    SelectedScenario();
    assert Header.NatToString(1) == "1";
  }

  /** Deleting item 2 from [1, 2, 3] leaves [1, 3]. */
  lemma DeleteScenario()
    ensures var a, b, c := Item(Num(1), "a", false), Item(Num(2), "b", true), Item(Num(3), "c", false);
      Delete([a, b, c], [b]) == [a, c]
  {
    var a, b, c := Item(Num(1), "a", false), Item(Num(2), "b", true), Item(Num(3), "c", false);
    var keep := NotIncludedIn([b]);
    assert [a, b, c][1..] == [b, c];
    assert [b, c][1..] == [c];
    assert [c][1..] == [];
    assert Filter([c], keep) == [c];
    assert Filter([b, c], keep) == [c];
    assert Filter([a, b, c], keep) == [a, c];
  }
}
