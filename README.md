# Drag-and-drop card board: the reordering engine

This project models the drag-and-drop core of a small kanban-style board (`src/App.jsx`).
All cards live in one global list, and each card carries the key of the column it shows in.
A column displays the cards of that list that belong to it, in list order.

The model covers:

- **Slots.** Each column renders an insertion indicator ("slot") before each of its cards, plus one trailing slot. An indicator carries the id of the card it precedes, or the end sentinel `"-1"`.
- **Drag-over.** While a card is dragged over a column, every indicator is cleared and the nearest one is highlighted. The nearest is found by a left fold over the indicators' tops. The threshold line lies 50 pixels below each top. The indicator with the largest negative offset wins; on a tie the earliest wins; if no offset is negative, the last indicator wins.
- **Drop on a column.** A drop clears the highlight and reads the nearest slot's id. It does nothing when that id is the dragged card's own id, or when no card has the dragged id. Otherwise it takes the dragged card out of the list, sets its column and puts it back. The end slot appends it. Any other slot inserts it with `splice` at the `findIndex` of the slot's card. Then the new list is written to storage.
- **Trash.** Dropping on the bin removes every card with the dragged id and writes nothing to storage.
- **Add card.** The form trims the typed text (ECMAScript white space). Blank text adds nothing. Otherwise the form appends a card with the trimmed title, its column and a drawn id.

Module layout:

- `Cards` holds the card datatype and the JavaScript list operations on the global list: `filter`, `find`, `findIndex`, and `splice` with a negative start.
- `Text` holds `trim`.
- `Indicators` holds the slot list and the nearest-indicator fold.
- `Reorder` holds the card-list effect of a drop, with its properties.
- `Adding` holds the card-list effect of the add form.
- `Components` holds the stateful components as classes with event-handler methods: `Board`, `Column`, `Trash` and `AddCardForm`.
- `Scenarios` works concrete boards through the model.

Properties proved:

- A committed move is an insertion of the moved card into the list with that card taken out. So the other cards keep their order and their fields.
- With unique ids, a move keeps the multiset of ids and keeps the ids unique.
- A move to the end slot makes the card last in the list and last in the column's view.
- With unique ids, a move onto a card's slot puts the moved card immediately before that card, both in the list and in the column's view. With duplicate ids it lands before the first card with the slot's id.
- A drop resolved from the slot list never reaches the `findIndex` miss, on every board.
- Drag-over highlights exactly the nearest indicator.
- The nearest indicator is characterised in both directions.

Three behaviours of the code worth knowing:

- **`findIndex` miss.** On a miss, `findIndex` gives -1 and `splice(-1, 0, card)` inserts in front of the last card. The model keeps that behaviour (`Reorder.MoveMissInsertsBeforeLast`), and `Reorder.DropNeverMisses` proves the branch unreachable from a drop resolved from the slot list. The `insertAt === undefined` guard can never fire, because `findIndex` returns a number.
- **Threshold.** The threshold line lies 50 pixels below an indicator's top. So with tops 100, 160, 220 and 280 and pointer 165, the nearest slot is the indicator whose top is 160 (`Scenarios.NearestPicksSecond`).
- **Trash persistence.** Removal through the bin is not written to storage (`Components.Trash.Drop`).

The add form draws ids with `Math.random().toFixed(2)`, which has only 101 values. Ids can therefore collide, and `Scenarios.DuplicateIdsLoseACard` shows that moving one of two cards that share an id drops the other. Uniqueness results are therefore stated under the hypothesis that ids are unique, or that the new id is fresh.

## Model

| member | source | states |
|---|---|---|
| Cards.Filter | src/App.jsx:227 | the column view holds exactly the cards of the list in that column, and is no longer than the list |
| Cards.Without | src/App.jsx:177 | the result holds exactly the cards whose id differs from the removed id; that id is gone; no card is added |
| Cards.Find | src/App.jsx:174 | `None` exactly when no card has the id; otherwise the first card with that id, the one at `FindIndex` |
| Cards.FindIndex | src/App.jsx:182 | -1 exactly when no card has the id; otherwise the index of the first card with that id |
| Cards.SpliceMinusOne | src/App.jsx:184 | the start -1 that a `findIndex` miss passes to `splice` inserts in front of the last element, or at 0 in an empty list |
| Cards.SpliceInRange | src/App.jsx:184 | a start within the list, as a `findIndex` hit gives, is the insertion position itself |
| Cards.SpliceInsert | src/App.jsx:184 | one card longer; the new card at the splice position; the cards before it unchanged; the cards after it shifted by one |
| Cards.UniqueWithout | src/App.jsx:36 | removal by id keeps ids unique |
| Cards.RemoveOneId | src/App.jsx:36 | in a list with unique ids, removing a present id removes exactly one card and takes that id out of the multiset of ids once |
| Cards.UniqueAppend | src/App.jsx:115 | appending a card with a fresh id keeps ids unique |
| Cards.DefaultCardsUnique | src/App.jsx:254-264 | the default board has unique ids |
| Text.Lead | src/App.jsx:111 | the length of the leading white-space run: all white space, followed by a non-space or the end |
| Text.Trail | src/App.jsx:111 | the length of the trailing white-space run: all white space, preceded by a non-space or the start |
| Text.TrimFrames | src/App.jsx:111-112 | the text is white space, then the trimmed text, then white space |
| Text.TrimStart | src/App.jsx:111-113 | a suffix of the text, not starting with white space, what it drops being all white space |
| Text.TrimEnd | src/App.jsx:111-113 | a prefix of the text, not ending with white space, what it drops being all white space |
| Text.Trim | src/App.jsx:111-113 | no longer than the text, and empty or neither starting nor ending with white space |
| Text.TrimEmptyIff | src/App.jsx:111 | the trimmed text is empty exactly when the text is all white space |
| Text.TrimIdempotent | src/App.jsx:112 | trimming twice is trimming once |
| Indicators.BeforeOf | src/App.jsx:140 | `beforeId \|\| "-1"`: never empty; the sentinel exactly for an empty id or the sentinel itself; otherwise the id |
| Indicators.Slots | src/App.jsx:243-246 | a column always has at least one slot, and the last one is the end sentinel |
| Indicators.SlotsMatchView | src/App.jsx:243-246 | one slot per card of the column's view, in view order, naming that card, then the end slot |
| Indicators.SlotNamesCard | src/App.jsx:97 | every slot is the end sentinel or the id of a card of the column |
| Indicators.Nearest | src/App.jsx:202-218 | the fold's result is the index of one of the indicators |
| Indicators.FoldKeepsInv | src/App.jsx:203-212 | each reduce step keeps the accumulator the best negative offset so far and its earliest indicator, or the initial last indicator |
| Indicators.NearestIsEarliestBest | src/App.jsx:202-218 | with some negative offset, the chosen indicator has the largest negative offset, and no earlier indicator ties with it |
| Indicators.NearestDefaultsToLast | src/App.jsx:213-216 | with no negative offset, the last indicator is chosen |
| Indicators.EarliestBestUnique | src/App.jsx:207 | at most one indicator has the largest negative offset with no earlier tie |
| Indicators.NearestIff | src/App.jsx:202-218 | with some negative offset, an indicator is chosen exactly when it has the largest negative offset with no earlier tie |
| Reorder.Moved | src/App.jsx:173-185 | no result exactly when the dragged id names no card; otherwise the list with the card taken out, plus one card |
| Reorder.Dropped | src/App.jsx:172-185 | the drop leaves state alone exactly when it is a self-drop or the dragged id names no card; otherwise it is the move |
| Reorder.MovedCard | src/App.jsx:174-176 | the card put back is the first card with the dragged id, the one `find` returns, with its column set to the drop column |
| Reorder.MovedIsInsertion | src/App.jsx:173-185 | a committed move is the list without the dragged card, with the moved card inserted at a position within it |
| Reorder.MoveKeepsOthers | src/App.jsx:176-184 | taking the moved card out of the new list gives the old list with it taken out: the other cards keep their order and fields |
| Reorder.MovePreservesIds | src/App.jsx:173-185 | with unique ids, a move keeps the length and the multiset of ids |
| Reorder.MoveKeepsUnique | src/App.jsx:173-185 | with unique ids, a move keeps ids unique, and the only card with the dragged id is the moved card |
| Reorder.MoveToEnd | src/App.jsx:178-180 | the end slot makes the moved card last in the list and last in the drop column's view |
| Reorder.MoveBefore | src/App.jsx:182-184 | a `before` present in the list puts the moved card immediately before the first card with that id |
| Reorder.MoveMissInsertsBeforeLast | src/App.jsx:182-184 | a `before` naming no card inserts in front of the last card (`splice(-1, …)`), or gives the moved card alone |
| Reorder.UniqueFilter | src/App.jsx:227 | a column view of a list with unique ids has unique ids |
| Reorder.MoveClosure | src/App.jsx:176-185 | on every board, after a move the moved card is in the drop column's view, is the only card there with its id, and its id is in no other column's view; with unique ids that view keeps unique ids |
| Reorder.InsertedView | src/App.jsx:176-184 | a card inserted into a list that lacks its id is in its column's view, is the only card there with its id, and its id is in no other column's view |
| Reorder.DropTarget | src/App.jsx:167-170 | the nearest indicator's `data-before \|\| "-1"` is one of the column's slot ids |
| Reorder.DropTargetNamesCard | src/App.jsx:167-170 | the resolved `before` is the end sentinel or a card of the drop column |
| Reorder.DropNeverMisses | src/App.jsx:167-184 | on every board, a drop that is not a self-drop resolves to the end sentinel or a card still in the list, so `findIndex` never misses |
| Reorder.AdjacentInView | src/App.jsx:227 | adjacent cards of one column stay adjacent in that column's view |
| Reorder.TargetAfterMoved | src/App.jsx:182-184 | with unique ids, a drop onto a card's slot puts the moved card immediately before that card in the list |
| Reorder.MoveBeforeInView | src/App.jsx:182-184 | with unique ids, a drop onto a card's slot puts the moved card immediately before that card in the column's view |
| Reorder.DropLandsAtSlot | src/App.jsx:163-189 | with unique ids, a committed drop onto a card slot chosen by the pointer lands the card immediately before the slot's card in the view |
| Adding.Submitted | src/App.jsx:109-117 | the add form either keeps the list or appends one card: the old list is a prefix of the result, at most one longer |
| Adding.SubmitBlankIff | src/App.jsx:111 | nothing is added exactly when the text is all white space |
| Adding.SubmitAppends | src/App.jsx:112-115 | non-blank text appends one card with the new id, the form's column and the trimmed, non-empty title |
| Adding.SubmitKeepsUnique | src/App.jsx:112-115 | a fresh id keeps ids unique |
| Components.Board.constructor | src/App.jsx:82-83 | the stored list when there is one, else the default board, whose ids are unique |
| Components.Column.constructor | src/App.jsx:139-146 | inactive, and every indicator unhighlighted |
| Components.Column.ClearIndicators | src/App.jsx:220-225 | every indicator of the column unhighlighted, one flag per slot |
| Components.Column.HighlightIndicator | src/App.jsx:191-196 | exactly the nearest indicator is highlighted |
| Components.Column.DragOver | src/App.jsx:152-156 | the column is active and exactly the nearest indicator is highlighted |
| Components.Column.DragLeave | src/App.jsx:158-161 | inactive and nothing highlighted |
| Components.Column.Drop | src/App.jsx:163-189 | inactive and nothing highlighted; a no-op drop leaves cards and storage alone; a committed one sets both to the moved list; unique ids stay unique |
| Components.Trash.constructor | src/App.jsx:23 | inactive |
| Components.Trash.DragOver | src/App.jsx:25-28 | active |
| Components.Trash.DragLeave | src/App.jsx:30-32 | inactive |
| Components.Trash.Drop | src/App.jsx:34-38 | every card with the dragged id removed, storage untouched, inactive, unique ids stay unique |
| Components.AddCardForm.constructor | src/App.jsx:106-107 | empty text, closed |
| Components.AddCardForm.Open | src/App.jsx:131 | the form opens; the text is kept |
| Components.AddCardForm.Edit | src/App.jsx:124 | the text becomes the typed value |
| Components.AddCardForm.Close | src/App.jsx:126 | the form closes; the text is kept |
| Components.AddCardForm.Submit | src/App.jsx:109-117 | the cards become `Submitted` of the old list; the form closes; storage untouched |
| Scenarios.NearestPicksSecond | src/App.jsx:202-218 | tops 100, 160, 220, 280 and pointer 165 choose the second indicator |
| Scenarios.NearestBelowAll | src/App.jsx:213-216 | a pointer below every threshold line chooses the last indicator |
| Scenarios.DropBelowAllMovesToBack | src/App.jsx:163-189 | dropping A below A and B resolves to the end slot and yields B, A |
| Scenarios.MoveInFrontOfCard | src/App.jsx:172-185 | dropping A on another column in front of B moves A into that column, just before B |
| Scenarios.TrashOneDefault | src/App.jsx:34-38 | binning a card of the default board leaves eight cards |
| Scenarios.SubmitTrims | src/App.jsx:109-117 | " hi" adds a card titled "hi"; white space adds nothing |
| Scenarios.DuplicateIdsLoseACard | src/App.jsx:174-180 | with two cards sharing an id, moving one removes both and puts back one |

## Left out

- Rendering is not modelled: JSX, CSS class strings (including the bin's `"avtive"` class), framer-motion layout animation, the card counter, the column title, `App`, its "Add Column" button and `Modal`.
- DOM queries are replaced. `getIndicators` becomes the slot list `Indicators.Slots`, and `getBoundingClientRect().top` becomes a list of integer tops passed to each handler. For a column key that is unique on the page, this is the list `querySelectorAll` returns, in document order.
- Coordinates are integers. Real browsers report fractional pixels, and floating point is not modelled.
- `handleDragStart` and the `dataTransfer` channel are not modelled. The dragged id is a parameter of each drop handler.
- `Math.random().toFixed(2)` is not modelled. The new card's id is a parameter of `Submit`.
- JSON serialisation and `localStorage` are not modelled. The stored list is a field of `Board`, holding the card list itself. Malformed stored data, for which `JSON.parse` throws, is not modelled. Nor is the serialise–parse round trip.
- React state batching and re-rendering are not modelled. Each setter is applied at once, and the indicators' inline `opacity` styles are the `lit` flags of `Column`. The flags are not resized on re-render: after a committed drop, a column's `lit` keeps its old slot count until its next `ClearIndicators`.
- Strings are sequences of Dafny `char`s, which are Unicode scalar values. JavaScript strings are UTF-16 code units, so a JavaScript string holding an unpaired surrogate falls outside the model.
- The white-space set of `trim` is fixed to the characters ECMAScript lists at the time of writing; later Unicode additions to category Zs are not tracked.
