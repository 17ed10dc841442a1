/**
 * The stateful components of the board: the card state shared by all columns
 * together with its stored copy (`Board`), a column's drop target with its
 * `active` flag and the highlight flag of each of its indicators (`Column`),
 * the disposal target (`Trash`), and a column's add-card form (`AddCardForm`).
 * Each event handler is a method; the pointer position, the indicator tops and
 * the dragged id (the drag-data channel) are its parameters.
 */
module Components {
  import opened Cards
  import opened Indicators
  import opened Reorder
  import opened Text
  import opened Adding

  /** The `Board` component's card list, and the value stored under the key "cards". */
  class Board {
    var cards: seq<Card>
    /** `None` while nothing is stored under the key. */
    var stored: Option<seq<Card>>

    /** `JSON.parse(localStorage.getItem("cards")) || DEFAULT_CARDS`, with `saved` the parsed
        stored list, or `None` when the key is absent. */
    constructor (saved: Option<seq<Card>>)
      ensures stored == saved
      ensures saved.Some? ==> cards == saved.value
      ensures saved.None? ==> cards == DefaultCards && UniqueIds(cards)
    {
      stored := saved;
      cards := if saved.Some? then saved.value else DefaultCards;
      DefaultCardsUnique();
    }
  }

  /** One `Columns` component: the drop target for the cards of column `key`. */
  class Column {
    const key: string
    /** Whether something is being dragged over the column. */
    var active: bool
    /** The highlight (opacity "1") flag of each indicator of the column, in document order. */
    var lit: seq<bool>

    /** No indicator is highlighted, and there is one flag per indicator of the column. */
    ghost predicate Cleared(board: Board)
      reads this, board
    {
      |lit| == |Slots(board.cards, key)| && forall i :: 0 <= i < |lit| ==> !lit[i]
    }

    constructor (key: string, board: Board)
      ensures this.key == key && !active && Cleared(board)
    {
      this.key := key;
      active := false;
      lit := seq(|Slots(board.cards, key)|, _ => false);
    }

    /** `clearIndicators`: every indicator of the column loses its highlight. */
    method ClearIndicators(board: Board)
      modifies this
      ensures Cleared(board) && active == old(active)
    {
      var n := |Slots(board.cards, key)|;
      var flags: seq<bool> := [];
      var i := 0;
      while i < n
        invariant i <= n && |flags| == i
        invariant forall j :: 0 <= j < i ==> !flags[j]
      {
        flags := flags + [false];
        i := i + 1;
      }
      lit := flags;
    }

    /** `highlightIndicator`: clear every indicator, then highlight the nearest one. */
    method HighlightIndicator(board: Board, y: int, tops: seq<int>)
      requires |tops| == |Slots(board.cards, key)|
      modifies this
      ensures |lit| == |tops| && forall i :: 0 <= i < |lit| ==> (lit[i] <==> i == Nearest(tops, y))
      ensures active == old(active)
    {
      ClearIndicators(board);
      var k := Nearest(tops, y);
      lit := lit[k := true];
    }

    /** `handleDragOver`: highlight the nearest indicator and mark the column active. */
    method DragOver(board: Board, y: int, tops: seq<int>)
      requires |tops| == |Slots(board.cards, key)|
      modifies this
      ensures active
      ensures |lit| == |tops| && forall i :: 0 <= i < |lit| ==> (lit[i] <==> i == Nearest(tops, y))
    {
      HighlightIndicator(board, y, tops);
      active := true;
    }

    /** `handleDragLeave`: the column is no longer active and nothing is highlighted. */
    method DragLeave(board: Board)
      modifies this
      ensures !active && Cleared(board)
    {
      active := false;
      ClearIndicators(board);
    }

    /** `handleDragEnd` (the column's drop handler): clear the visual state, resolve the
        nearest indicator's `before` id, and unless the drop is a self-drop or the
        dragged id names no card, move the card and store the new list. */
    method Drop(board: Board, cardId: string, y: int, tops: seq<int>)
      requires |tops| == |Slots(board.cards, key)|
      modifies this, board
      ensures !active && |lit| == |tops| && forall i :: 0 <= i < |lit| ==> !lit[i]
      ensures var before := DropTarget(old(board.cards), key, tops, y);
        match Dropped(old(board.cards), cardId, key, before)
        case None => board.cards == old(board.cards) && board.stored == old(board.stored)
        case Some(cs) => board.cards == cs && board.stored == Some(cs)
      ensures UniqueIds(old(board.cards)) ==> UniqueIds(board.cards)
    {
      active := false;
      ClearIndicators(board);
      var slots := Slots(board.cards, key);
      var k := Nearest(tops, y);
      var before := BeforeOf(slots[k]);
      if before != cardId {
        var cardCopy := board.cards;
        var found := Find(cardCopy, cardId);
        if found.None? {
          return;
        }
        var cardToTransfer := found.value.(column := key);
        cardCopy := Without(cardCopy, cardId);
        if before == End {
          cardCopy := cardCopy + [cardToTransfer];
        } else {
          var insertAt := FindIndex(cardCopy, before);
          cardCopy := SpliceInsert(cardCopy, insertAt, cardToTransfer);
        }
        MoveKeepsUnique(board.cards, cardId, key, before);
        board.cards := cardCopy;
        board.stored := Some(cardCopy);
      }
    }
  }

  /** The `TrashBin` component: the disposal target. */
  class Trash {
    var active: bool

    constructor ()
      ensures !active
    {
      active := false;
    }

    /** `handleDragOver`. */
    method DragOver()
      modifies this
      ensures active
    {
      active := true;
    }

    /** `handleDragLeave`. */
    method DragLeave()
      modifies this
      ensures !active
    {
      active := false;
    }

    /** `handleDragEnd` (the bin's drop handler): every card with the dragged id is removed;
        nothing is written to storage. */
    method Drop(board: Board, cardId: string)
      modifies this, board
      ensures !active
      ensures board.cards == Without(old(board.cards), cardId)
      ensures board.stored == old(board.stored)
      ensures UniqueIds(old(board.cards)) ==> UniqueIds(board.cards)
    {
      UniqueWithout(board.cards, cardId);
      board.cards := Without(board.cards, cardId);
      active := false;
    }
  }

  /** The `AddCard` component of column `column`: its text field and whether it is open. */
  class AddCardForm {
    const column: string
    var text: string
    var adding: bool

    constructor (column: string)
      ensures this.column == column && text == "" && !adding
    {
      this.column := column;
      text := "";
      adding := false;
    }

    /** The "Add card" button opens the form. */
    method Open()
      modifies this
      ensures adding && text == old(text)
    {
      adding := true;
    }

    /** The text area's `onChange`. */
    method Edit(t: string)
      modifies this
      ensures text == t && adding == old(adding)
    {
      text := t;
    }

    /** The "close" button. */
    method Close()
      modifies this
      ensures !adding && text == old(text)
    {
      adding := false;
    }

    /** `handleSubmit`: the card list becomes `Submitted` of the old one (nothing added
        for blank text, otherwise one card with the trimmed text, the id `newId` and this
        form's column). Either way the form closes; the text is kept and nothing is
        written to storage. */
    method Submit(board: Board, newId: string)
      modifies this, board
      ensures !adding && text == old(text)
      ensures board.stored == old(board.stored)
      ensures board.cards == Submitted(old(board.cards), text, newId, column)
    {
      if text == "" || |Trim(text)| == 0 {
        adding := false;
        return;
      }
      var newCard := Card(newId, Trim(text), column);
      board.cards := board.cards + [newCard];
      adding := false;
    }
  }
}
