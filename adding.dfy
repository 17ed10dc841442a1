/**
 * The card list `AddCard`'s `handleSubmit` leaves behind: the typed text is
 * trimmed, and only a text with something other than white space in it adds a card.
 */
module Adding {
  import opened Cards
  import opened Text

  /** The cards after submitting `text` in the form of column `column`, with `newId` the
      id the form draws for the new card. */
  function Submitted(cards: seq<Card>, text: string, newId: string, column: string): (r: seq<Card>)
    ensures |cards| <= |r| <= |cards| + 1 && r[..|cards|] == cards
  {
    if text == "" || |Trim(text)| == 0 then cards
    else cards + [Card(newId, Trim(text), column)]
  }

  /** Nothing is added exactly when the text is white space only (or empty). */
  lemma {:induction false} SubmitBlankIff(cards: seq<Card>, text: string, newId: string, column: string)
    ensures Submitted(cards, text, newId, column) == cards <==> AllSpace(text)
  {
    TrimEmptyIff(text);
  }

  /** Otherwise exactly one card is appended: it has the new id, this column and the
      trimmed text as its title, which neither starts nor ends with white space. */
  lemma {:induction false} SubmitAppends(cards: seq<Card>, text: string, newId: string, column: string)
    requires !AllSpace(text)
    ensures var r := Submitted(cards, text, newId, column);
      |r| == |cards| + 1 && r[|cards|] == Card(newId, Trim(text), column)
    ensures var t := Trim(text); t != [] && !IsSpace(t[0]) && !IsSpace(t[|t| - 1])
  {
    TrimEmptyIff(text);
  }

  /** A fresh id keeps the ids on the board unique. */
  lemma {:induction false} SubmitKeepsUnique(cards: seq<Card>, text: string, newId: string, column: string)
    requires UniqueIds(cards) && newId !in Ids(cards)
    ensures UniqueIds(Submitted(cards, text, newId, column))
  {
    if !(text == "" || |Trim(text)| == 0) {
      UniqueAppend(cards, Card(newId, Trim(text), column));
    }
  }
}
