# Kanban board state, modelled in Dafny

This project models the board state logic of a Kanban task board written in
React and Redux. A board holds an ordered array of lists. Each list holds an
ordered array of cards. A card has an id, a title, a description, an array
of label ids and a due date.

The model has six modules:

- `Kanban` (`kanban.dfy`) holds the entities: `Card`, `CardDraft` (the
  new-card form data), `List` and `Board`. It also models
  `String.prototype.trim` (`Trim`) and the emptiness test `IsBlank` behind
  every title check (every character is ECMAScript white space or a line
  terminator), and holds the identity invariant `WellFormed`. That invariant says list ids are distinct, and no card id
  occurs twice in one list or in two lists. The module also holds the
  sample lists and boards the application starts with.
- `LabelCatalog` (`label_catalog.dfy`) holds the five-entry label catalog of
  the board component. It has the `find` lookups behind a card's border
  colour and its displayed labels, and the label toggle.
- `ListHandlers` (`list_handlers.dfy`) models the component's handlers
  `handleAddList`, `handleAddCard`, `handleUpdateCard`, `handleDeleteCard`
  and `handleToggleLabel`. Each is a function from the old `lists` array to
  the new one that the component hands to `setLists`.
- `DragDrop` (`drag_drop.dfy`) models `onDragEnd`. It takes the
  drag-and-drop library's `{destination, source, draggableId}` record as a
  value. It proves conservation of cards, preservation of `WellFormed`, the
  order of the remaining cards, and that the drop indices are ignored.
- `BoardsSlice` (`boards_slice.dfy`) models the Redux `boards` slice. The
  reducer is the pure function `Reduce` over the state and the two actions.
  The class `BoardsStore` holds `boards` and `lists` as fields and applies
  `addBoard` and `updateLists` in place, as the Immer draft does.
- `HomeBoards` (`home_boards.dfy`) models `addNewBoard` of the home page.

Ids are `int`. The component compares `list.id.toString()` and
`card.id.toString()` with the library's droppable and draggable ids. That
conversion is injective on integers, so those ids are `int` as well. The id
read from `Date.now()` is a parameter. The colour position
`Math.floor(Math.random() * 6)` is a parameter in `[0, 6)`.

The label chips of a card at src/components/MainFeature.jsx:306-321 are
written out of order: the lookup and the chip (:307-310) come before the
`card.labels.map(labelId => ...)` (:311) that binds `labelId`. The model
follows the evident intent, mapping each label id to its catalog entry and
dropping ids the catalog does not know.

Where the intended design and the code disagree, the model follows the
code:

- A drop onto a list id that no list carries does not fail. The card is
  removed from its source list and appended nowhere, so the board loses
  it. `MoveToMissingListLosesCard` proves this. The drag-and-drop library
  only reports droppables the component registered, so the UI cannot reach
  this case.
- Deleting an absent card, or updating a card id the list does not hold,
  does not fail. Both change nothing (`DeleteMissingCard`,
  `UpdateMissingCard`).
- The toggle does not check that the label id is in the catalog. The forms
  only offer catalog labels (`ToggleKeepsCatalogIds`).
- Adding a list takes no board id. The component keeps its own `lists`
  state. It uses its `board` prop only for the header colour and title, so
  its `lists` state never depends on the board. It never reads the store's
  `lists` map, and it never dispatches `updateLists`.
- A drop onto the source list is cancelled, whatever its index. No
  reordering within a list exists.

## Model

| member | source | states |
|---|---|---|
| `Kanban.SampleListCardIds` | src/components/MainFeature.jsx:19-42 | The initial lists hold the card ids {101, 102}, {201} and {301}. |
| `Kanban.SampleListsWellFormed` | src/components/MainFeature.jsx:19-42 | The initial lists have distinct list ids and board-wide unique card ids. |
| `Kanban.TrimStart` | src/components/MainFeature.jsx:71 | Leading whitespace is removed: the result is a suffix of the string, every character dropped is whitespace, and the result starts with a non-whitespace character unless it is empty. |
| `Kanban.TrimEnd` | src/components/MainFeature.jsx:71 | Trailing whitespace is removed: the result is a prefix of the string, every character dropped is whitespace, and the result ends with a non-whitespace character unless it is empty. |
| `Kanban.Trim` | src/components/MainFeature.jsx:71 | `trim()` gives a run of the string with only whitespace before and after it, starting and ending with a non-whitespace character unless it is empty. Whitespace is the 25 ECMAScript white space and line terminator code points (tab, line feed, vertical tab, form feed, carriage return, space, no-break space, U+1680, U+2000 to U+200A, U+2028, U+2029, U+202F, U+205F, U+3000, U+FEFF). |
| `Kanban.BlankIffTrimEmpty` | src/pages/Home.jsx:21 | `!title.trim()` holds, and the title is rejected (`IsBlank`), exactly when every character is whitespace. |
| `LabelCatalog.FindIn` | src/components/MainFeature.jsx:278 | `find` returns a label carrying the id, the first such. It returns nothing exactly when no label carries the id. |
| `LabelCatalog.FindLabel` | src/components/MainFeature.jsx:307 | The lookup returns the catalog entry with the id. It returns nothing exactly when the id is not in the catalog. |
| `LabelCatalog.CatalogIdsDistinct` | src/components/MainFeature.jsx:59-65 | No two catalog entries share an id. |
| `LabelCatalog.BorderColor` | src/components/MainFeature.jsx:278 | With no first label id, or an empty (falsy) one, the colour is "transparent". Otherwise there is a colour exactly when the catalog knows the first id, and it is that entry's colour. |
| `LabelCatalog.ResolveIn` | src/components/MainFeature.jsx:307-321 | The resolved labels come from the catalog and carry ids of the card. Every known id is resolved, and there are never more labels than ids. |
| `LabelCatalog.ResolveInSingle` | src/components/MainFeature.jsx:307-310 | A single id resolves to its label, or to nothing when no label carries it. |
| `LabelCatalog.ResolveInAppend` | src/components/MainFeature.jsx:307-321 | The labels of `a + b` are those of `a` followed by those of `b`. With the single-id case this fixes the order and the multiplicity of the result, dropped ids included. |
| `LabelCatalog.ResolveInAllKnown` | src/components/MainFeature.jsx:307-321 | When every id is known, the resolved labels match the ids one for one, in order. |
| `LabelCatalog.ResolvedLabels` | src/components/MainFeature.jsx:311-321 | A card's displayed labels are catalog entries for its ids. Every known id is resolved. When all ids are known, the labels match the ids one for one, in order. The order with dropped ids is that of `ResolveInAppend` and `ResolveInSingle`. |
| `LabelCatalog.Remove` | src/components/MainFeature.jsx:174 | The result holds exactly the other ids. An array without the id is returned unchanged. |
| `LabelCatalog.RemoveAppend` | src/components/MainFeature.jsx:174 | The filter distributes over concatenation, so the kept ids stay in their old order. |
| `LabelCatalog.Toggle` | src/components/MainFeature.jsx:169-175 | An absent id is appended at the end of the array. A present id is removed by the order-keeping filter. The toggled id's membership flips, and every other id keeps its membership. |
| `LabelCatalog.ToggleTwiceMembership` | src/components/MainFeature.jsx:169-186 | Toggling the same label twice restores the membership of every id. |
| `LabelCatalog.RemoveAppended` | src/components/MainFeature.jsx:174-175 | Removing an id just appended to an array without it gives back that array. |
| `LabelCatalog.ToggleOnOff` | src/components/MainFeature.jsx:169-175 | Toggling an absent label twice restores the array exactly. |
| `LabelCatalog.RemoveKeepsNoDuplicates` | src/components/MainFeature.jsx:174 | Filtering keeps an array free of duplicates. |
| `LabelCatalog.ToggleKeepsNoDuplicates` | src/components/MainFeature.jsx:169-186 | An array without duplicates stays without duplicates after a toggle. |
| `LabelCatalog.ToggleKeepsCatalogIds` | src/components/MainFeature.jsx:564-568 | Toggling a catalog label keeps every id of the array in the catalog. |
| `ListHandlers.WithoutCard` | src/components/MainFeature.jsx:155 | The filter keeps exactly the cards with another id, and never lengthens the array. |
| `ListHandlers.WithoutCardIds` | src/components/MainFeature.jsx:155 | The filtered cards' id set is the old id set less the removed id. |
| `ListHandlers.WithoutCardAbsent` | src/components/MainFeature.jsx:155 | Filtering out an id no card carries returns the array unchanged. |
| `ListHandlers.WithoutCardHead` | src/components/MainFeature.jsx:155 | Filtering out the first card's id, which no later card carries, drops exactly the first card. |
| `ListHandlers.WithoutCardAppend` | src/components/MainFeature.jsx:155 | Filtering distributes over concatenation, so kept cards keep their order. |
| `ListHandlers.WithoutCardAt` | src/components/MainFeature.jsx:155 | In a list with distinct ids, removing the card at position k leaves the cards before it followed by the cards after it. |
| `ListHandlers.WithoutCardBag` | src/components/MainFeature.jsx:155 | In a list with distinct ids, filtering out a card's id takes exactly that one card out of the multiset of cards. |
| `ListHandlers.WithoutCardKeepsDistinct` | src/components/MainFeature.jsx:155 | Filtering keeps card ids distinct. |
| `ListHandlers.AddList` | src/components/MainFeature.jsx:68-82 | A blank title leaves the lists unchanged. Otherwise exactly one empty list, with the given id and the untrimmed title, is appended after the unchanged old lists. |
| `ListHandlers.AddListKeepsWellFormed` | src/components/MainFeature.jsx:76-82 | A list added under a fresh id keeps the board well formed. |
| `ListHandlers.NewCard` | src/components/MainFeature.jsx:97-100 | `{ id, ...newCardData }`: the new card carries the given id and every field of the form data. |
| `ListHandlers.AddCard` | src/components/MainFeature.jsx:89-110 | A blank title leaves the lists unchanged. Otherwise the new card is appended at the end of each list with the id, and every other list is identical. Lists keep their number, order, ids and titles. |
| `ListHandlers.AddCardToMissingList` | src/components/MainFeature.jsx:102-110 | Adding to a list id no list carries changes nothing. |
| `ListHandlers.AddCardAddsOne` | src/components/MainFeature.jsx:97-110 | A valid card added to an existing list adds exactly that card to the board's cards. |
| `ListHandlers.AddCardKeepsWellFormed` | src/components/MainFeature.jsx:97-110 | A card added under a fresh id keeps the board well formed. |
| `ListHandlers.UpdateCard` | src/components/MainFeature.jsx:124-142 | A blank edited title leaves the lists unchanged. Otherwise the named list keeps its length, and each card with the id is replaced by the edited card at its position. Every other card and list is unchanged. |
| `ListHandlers.UpdateMissingCard` | src/components/MainFeature.jsx:132-142 | Updating a card id the named list does not hold changes nothing. |
| `ListHandlers.UpdateKeepsCardCount` | src/components/MainFeature.jsx:132-142 | An update never changes the number of cards on the board. |
| `ListHandlers.UpdateKeepsWellFormed` | src/components/MainFeature.jsx:132-142 | Replacing a card by an edit with the same id keeps the board well formed. |
| `ListHandlers.DeleteCard` | src/components/MainFeature.jsx:150-159 | The named list's cards become the filter's result: the cards with another id, in their old order. The id is gone from that list. Other lists are untouched, and lists keep their ids and titles. |
| `ListHandlers.DeleteMissingCard` | src/components/MainFeature.jsx:151-159 | Deleting an id the named list does not hold changes nothing. |
| `ListHandlers.DeleteIdempotent` | src/components/MainFeature.jsx:150-159 | Deleting twice equals deleting once. |
| `ListHandlers.DeleteKeepsWellFormed` | src/components/MainFeature.jsx:150-159 | Deleting keeps the board well formed. |
| `ListHandlers.HandleToggleLabel` | src/components/MainFeature.jsx:166-188 | With a card open for editing, only its labels change, and they become the toggle of the old labels. Otherwise only the new-card form's labels change, the same way. |
| `DragDrop.FindList` | src/components/MainFeature.jsx:200 | Returns the first list with the source id. It returns nothing exactly when no list carries it. |
| `DragDrop.FindCard` | src/components/MainFeature.jsx:201 | Returns the first card with the dragged id. It returns nothing exactly when the list holds no such card. |
| `DragDrop.DraggedCard` | src/components/MainFeature.jsx:199-201 | The moved card carries the dragged id. It is the first such card of the first list with the source id. |
| `DragDrop.MoveStep` | src/components/MainFeature.jsx:204-212 | One list under the `map` callback keeps its id and title. The source's cards become the order-keeping filter result without the dragged id; another list with the destination id gets the card appended at its end; any other list is unchanged. |
| `DragDrop.MoveAll` | src/components/MainFeature.jsx:204-213 | The `map` keeps the number, order, ids and titles of the lists. A list with the source id gets the order-keeping filter result, another list with the destination id gets the card appended at its end, and every other list is unchanged. |
| `DragDrop.OnDragEnd` | src/components/MainFeature.jsx:191-213 | A drop with no destination, or onto the source list, changes nothing. Otherwise the source list loses the dragged id's cards and the destination list gets the card appended at its end. Every other list is unchanged, and lists keep their ids and titles. |
| `DragDrop.DropChangesListsIffNotCancelled` | src/components/MainFeature.jsx:195-197 | The guard (`IsCancelled`: no destination, or the source list again) decides everything: a drop changes the lists exactly when it is not cancelled. |
| `DragDrop.DropIndexIgnored` | src/components/MainFeature.jsx:192-213 | Changing the source or destination index never changes the result. |
| `DragDrop.SourceStepBag` | src/components/MainFeature.jsx:207 | The source list, with distinct ids, loses exactly the dragged card from its multiset of cards. |
| `DragDrop.StepBag` | src/components/MainFeature.jsx:204-213 | For one list, the cards after the move plus the card if it is the source equal the cards before plus the card if it is the destination. |
| `DragDrop.MoveAllBalance` | src/components/MainFeature.jsx:204-213 | Over any run of lists, the cards after the move plus the card when the run holds the source equal the cards before plus the card when it holds the destination. |
| `DragDrop.DropBalance` | src/components/MainFeature.jsx:204-213 | On a well-formed board, the cards after the drop plus the dragged card equal the cards before, plus the card again if the destination exists. |
| `DragDrop.MoveConservesCards` | src/components/MainFeature.jsx:204-213 | On a well-formed board, a drop onto another existing list keeps the same multiset of cards, hence the same count. |
| `DragDrop.MoveToMissingListLosesCard` | src/components/MainFeature.jsx:204-213 | A drop onto a list id no list carries loses exactly the dragged card. |
| `DragDrop.DropListIds` | src/components/MainFeature.jsx:204-213 | After a drop on a well-formed board, each list's ids stay distinct. Only the dragged id can be new in a list, and a list holds that id exactly when it is the destination. |
| `DragDrop.MoveKeepsWellFormed` | src/components/MainFeature.jsx:204-213 | A drop keeps the board well formed. Afterwards the dragged id is held exactly by the destination list. |
| `DragDrop.MoveKeepsSourceOrder` | src/components/MainFeature.jsx:207 | The source list keeps the cards before the dragged one, followed by those after it. |
| `DragDrop.PickedUpCard` | src/components/MainFeature.jsx:199-201 | On a well-formed board, the card at position p of the source list is the one a drag of its id picks up. |
| `DragDrop.MoveCardBetweenLists` | src/components/MainFeature.jsx:191-213 | On a well-formed board, dragging card p of list k onto another list d removes it from k, the other cards keeping their order, appends it at the end of d, and leaves every other list as it was. |
| `DragDrop.MoveFirstOfTwo` | src/components/MainFeature.jsx:191-213 | On any well-formed board shaped like the initial one, dragging the first card of the first list onto the third list leaves the first list with its second card and makes the moved card the last card of the third. |
| `DragDrop.SampleMove` | src/components/MainFeature.jsx:191-213 | Dragging card 101 from "To Do" to "Done" leaves "To Do" with card 102. "Done" becomes card 301 then card 101, and "In Progress" is unchanged. |
| `BoardsSlice.Reduce` | src/store/index.js:47-56 | `addBoard` appends the board and sets its entry to empty, overwriting any old one. `updateLists` sets one entry, known board or not, and keeps the boards. No other entry changes. |
| `BoardsSlice.InitialStateCovers` | src/store/index.js:4-38 | In the initial state every board has a lists entry. |
| `BoardsSlice.ReducePreservesCover` | src/store/index.js:48-55 | Both reducers keep every board covered by a lists entry. |
| `BoardsSlice.UpdateListsIdempotent` | src/store/index.js:52-55 | Applying the same `updateLists` twice equals applying it once. |
| `BoardsSlice.BoardsStore.constructor` | src/store/index.js:43-46 | The store starts in the initial state, which satisfies the covering invariant. |
| `BoardsSlice.BoardsStore.AddBoard` | src/store/index.js:48-51 | The new state is the reducer's result for `addBoard`, and the covering invariant is kept. |
| `BoardsSlice.BoardsStore.UpdateLists` | src/store/index.js:52-55 | The new state is the reducer's result for `updateLists`, and the covering invariant is kept. |
| `HomeBoards.AddNewBoard` | src/pages/Home.jsx:20-37 | A blank title leaves the boards unchanged. Otherwise exactly one board is appended after the unchanged old boards, with the given id, the untrimmed title and a palette colour. |
| `HomeBoards.SampleBoardsValid` | src/pages/Home.jsx:8-12 | The initial boards have distinct ids and palette colours. |
| `HomeBoards.AddNewBoardKeepsInvariant` | src/pages/Home.jsx:26-35 | A board created under a fresh id keeps board ids distinct and every colour in the palette, whatever the random draw. |

## Left out

- Rendering, animation, styling, dark mode and every toast notification,
  including the repeated success toast of `onDragEnd`. None of them changes
  board state.
- The drag-and-drop library itself. Only the result record it passes to
  `onDragEnd` is modelled.
- `Date.now()` ids. They are a clock read and are taken as parameters.
  Freshness is a precondition of the invariant lemmas only.
- `Math.random()`. The colour position it yields is a parameter in `[0, 6)`.
- Due-date formatting with `toLocaleDateString`. It depends on locale and
  clock, so the due date is an opaque string.
- The forms' transient state: which form is open, the typed list and board
  titles, and resetting the new-card data after a submit. Only the label
  toggle acts on form state, and it is modelled.
- `OnDragEnd`: a drop whose source list or dragged card cannot be found is
  excluded by its precondition. The code would throw, or append
  `undefined`, in that case.
- Routing, the redirect of the board page, the 404 page and the Tailwind
  configuration.
