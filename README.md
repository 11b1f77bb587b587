# Image gallery: list logic of the gallery component and its header

This project models, in Dafny, the logic of a React image gallery. The
gallery keeps an ordered list of image items, each with an identifier, an
image slug and a "selected" flag. A click toggles an item's selection. A
drag-and-drop gesture moves an item to another item's position. The header
derives the selection, shows either the title "Showcase" or a count with a
"Delete Files" button, and the button hands the selection to the gallery's
delete handler.

Files:

- `array_ops.dfy`, module `ArrayOps`: the array operations the component
  uses, as functions on sequences. These are JavaScript's `filter`,
  `findIndex` and `find`, and `arrayMove` from `@dnd-kit/sortable`. It also
  holds the lemmas about them: order preservation, permutation, the
  element-by-element effect of a move, and a move undone by the reverse move.
- `image_types.dfy`, module `ImageTypes`: the item record (`Id`, `Item`) and
  the predicates `HasId` and `UniqueIds`. The type file `src/types/global.types`
  is not part of this model; the record is reconstructed from how the two
  components use it.
- `header.dfy`, module `Header` (`src/components/Header/Header.tsx`): the
  selected items and the header's view, as a datatype. The view holds the
  icon, the count text, the button text and the argument a click passes to
  `onDelete`. The module also holds the decimal rendering of the count and
  its inverse.
- `app.dfy`, module `App` (`src/App.tsx`): the list transforms behind the
  handlers, as pure functions (`ToggleSelect`, `DragEnd`, `Delete`) with their
  lemmas. The class `Gallery` holds the component's two pieces of state,
  `galleryData` and `activeItem`. Its handler methods assign new values to
  them, and each method's postcondition ties the new state to the
  transforms. The module ends with the end-to-end "delete the selection"
  lemma and concrete scenarios.

Behaviour kept as the code has it:

- The drag-start handler never sets the overlay item. Its guard asks whether
  the found item is a string or a number. A `find` over item objects
  yields an object or `undefined`, so the guard is never true.
  `Gallery.HandleDragStart` writes that branch as unreachable, and
  `DragStartGuardNeverHolds` states it.
- The count label is `n Files Selected` for one item as well as for several.
  The component's singular and plural branches are identical, so the model
  keeps the text as written.
- In the selection branch, the inner "is anything selected" tests (icon and
  click handler) are always true. `Header.View` states their outcome.

Other behaviour of the handlers that the model states:

- The drag-end handler does not guard against a missing id: it passes
  `findIndex`'s -1 on to `arrayMove`, so `DragEnd` requires both ids to be
  present when it reaches the move.
- The delete handler takes a list of items and keeps the items that list
  does not include; a list with no item of the gallery changes nothing
  (`DeleteAbsent`).
- A toggle flips every item whose id matches; with unique ids that is one
  item (`ToggleSelectFlipsOne`).
- `DragEndUndo` states undo by index: it drops the moved item back onto the
  item now at its old index, and that restores the list.

## Model

| member | source | states |
|---|---|---|
| ArrayOps.Filter | src/App.tsx:68 | the result holds exactly the elements that pass the callback, each as often as in the input, and is no longer than the input |
| ArrayOps.FilterIsSubsequence | src/App.tsx:68 | filtering keeps the survivors in their original relative order |
| ArrayOps.FilterKeepsAll | src/App.tsx:68 | a filter that every element passes returns the list unchanged |
| ArrayOps.FilterEmpty | src/components/Header/Header.tsx:16 | a filter result is empty exactly when no element passes the callback |
| ArrayOps.FindIndex | src/App.tsx:58-59 | the result is the first index whose element matches, or -1 exactly when none matches |
| ArrayOps.Find | src/App.tsx:45 | the result is the first matching element, present exactly when some element matches |
| ArrayOps.ArrayMove | src/App.tsx:60 | same length; the moved element sits at the target index; removing it leaves the other elements in their old order |
| ArrayOps.ArrayMoveUnique | src/App.tsx:60 | those three facts determine the result of a move |
| ArrayOps.ArrayMoveAt | src/App.tsx:60 | element by element, the move shifts the elements between the two indices by one place toward the source index |
| ArrayOps.ArrayMovePermutes | src/App.tsx:60 | a move is a permutation: nothing is added, lost or duplicated |
| ArrayOps.ArrayMoveInverse | src/App.tsx:60 | moving back from the target index to the source index restores the list |
| ArrayOps.ArrayMoveSameIndex | src/App.tsx:60 | moving an element onto its own index changes nothing |
| Header.SelectedItems | src/components/Header/Header.tsx:11 | exactly the selected items, as often as in the gallery, in gallery order; empty exactly when nothing is selected |
| Header.NatToString | src/components/Header/Header.tsx:23 | the count is rendered as a non-empty string of decimal digits without leading zeros |
| Header.ParseNatToString | src/components/Header/Header.tsx:23 | reading the rendered count back gives the count |
| Header.CountLabelInjective | src/components/Header/Header.tsx:23 | different counts give different count labels |
| Header.View | src/components/Header/Header.tsx:16-34 | "Showcase" is shown exactly when no item is selected; otherwise the filled checkbox icon, the label `n Files Selected` for every n, the button text "Delete Files", and a click that passes exactly the selected items |
| Header.SelectionCountReadable | src/components/Header/Header.tsx:23 | the selection label is the number of selected items in decimal followed by " Files Selected" |
| App.ToggleSelect | src/App.tsx:16-24 | same length, ids and slugs; the flag is flipped exactly on the items whose id matches and kept on all others |
| App.ToggleSelectTwice | src/App.tsx:17-21 | toggling the same id twice gives back the original gallery |
| App.ToggleSelectAbsent | src/App.tsx:17-23 | toggling an id that no item has changes nothing |
| App.ToggleSelectFlipsOne | src/App.tsx:17-24 | with unique ids, a toggle changes exactly the one item with that id and keeps ids unique |
| App.FindById | src/App.tsx:45 | the drag-start lookup finds an item of the gallery with that id exactly when one exists |
| App.DragStartGuardNeverHolds | src/App.tsx:45-49 | the `typeof` guard before `setActiveItem` is never true of a `find` result |
| App.IndexOfId | src/App.tsx:58-59 | the index lookup gives the first index with that id, or -1 exactly when the id is absent |
| App.DragEnd | src/App.tsx:53-62 | a drop with no target, or onto the dragged item itself, leaves the gallery unchanged; every drop keeps its length |
| App.DragEndMoves | src/App.tsx:57-60 | a drop onto another item permutes the gallery, puts the dragged item at the target's old index and keeps all other items in their relative order |
| App.DragEndKeepsUniqueIds | src/App.tsx:57-60 | a drop keeps the ids unique |
| App.DragEndUndo | src/App.tsx:57-60 | dropping the moved item back onto the item now at its old index restores the gallery |
| App.FilterKeepsUniqueIds | src/App.tsx:68 | filtering a gallery with unique ids keeps them unique |
| App.Delete | src/App.tsx:67-68 | exactly the items not in the passed list remain, each as often as before, in their original order; ids stay unique |
| App.DeleteShrinks | src/App.tsx:68 | deleting a list that includes some item of the gallery shortens the gallery |
| App.DeleteAbsent | src/App.tsx:68 | deleting a list that includes no item of the gallery leaves it unchanged |
| App.DeleteSelectedItems | src/App.tsx:68 | deleting the selected items leaves no selected item and keeps every unselected one, as often as before and in order |
| App.DeleteSelection | src/components/Header/Header.tsx:28 | the header's button passes the selection to the delete handler, which removes at least one item, no selected item remains, and every unselected item stays in order |
| App.Gallery.constructor | src/App.tsx:13 | the gallery starts with the initial data and no overlay item |
| App.Gallery.HandleSelectImage | src/App.tsx:16-27 | the new gallery is the toggled one; the overlay item is untouched; unique ids stay unique |
| App.Gallery.HandleDragStart | src/App.tsx:40-50 | a drag start may modify nothing: neither the gallery nor the overlay item changes, and the `setActiveItem` branch is unreachable |
| App.Gallery.HandleDragEnd | src/App.tsx:51-63 | the overlay item is cleared; the new gallery is the drag-end result, a permutation of the old one; unique ids stay unique |
| App.Gallery.HandleDelete | src/App.tsx:67-72 | the new gallery is the delete result; the overlay item is untouched |
| App.DragScenario | src/App.tsx:58-60 | dragging item 1 onto item 3 of [1, 2, 3] looks up indices 0 and 2 and gives [2, 3, 1] |
| App.ToggleScenario | src/App.tsx:16-27 | toggling item 2 of two unselected items selects item 2 alone |
| App.SelectedScenario | src/components/Header/Header.tsx:11 | with item 2 of [1, 2] selected, the selection is [2] |
| App.HeaderScenario | src/components/Header/Header.tsx:16-34 | with item 2 of [1, 2] selected, the header reads "1 Files Selected" and its button passes [2] |
| App.DeleteScenario | src/App.tsx:68 | deleting item 2 from [1, 2, 3] leaves [1, 3] |

## Left out

- Rendering: JSX, CSS classes and the icon and card components are presentation only. The header's icon is modelled as a two-valued choice.
- Drag-and-drop plumbing: the sensors, collision detection and the `DndContext`, `SortableContext` and `DragOverlay` wiring belong to a foreign library. A drag event is modelled as a dragged id and an optional target id.
- App.DragEnd: `arrayMove` with a -1 index (an id missing from the gallery) is not modelled. The library's source is not part of this model, so both ids must be present when the move is reached.
- Appending images happens in `AddImageCard`, which is not part of this model. No append operation and no id-collision error is modelled.
- React scheduling: batched state updates and stale closures are not modelled. Each handler reads and replaces the current state in one step.
- App.Delete: `includes` compares items by reference in JavaScript; the model compares them by value. The two agree when ids are unique and each item is one object.
- Identifiers: numeric ids are integers. Fractional numbers, `NaN` (never `===` itself) and `-0` (also falsy) are not modelled.
- The initial gallery contents (`initialImageData`) are a parameter of the constructor.
