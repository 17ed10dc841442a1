/**
 * The card-list effect of dropping a card on a column (`Columns.handleDragEnd`):
 * the dragged card is taken out of the global list, its column is set to the
 * drop column, and it is put back either at the end of the list (the end
 * slot) or immediately in front of the card the nearest slot names.
 */
module Reorder {
  import opened Cards
  import opened Indicators

  /** The move proper, once the self-drop check has passed: `None` when no card has
      id `cardId` (the handler returns before touching state), else the new list.
      A `before` that names no card makes `findIndex` return -1, and
      `splice(-1, 0, card)` then inserts in front of the last card. */
  function Moved(cards: seq<Card>, cardId: string, column: string, before: string): (r: Option<seq<Card>>)
    ensures r.None? <==> cardId !in Ids(cards)
    ensures r.Some? ==> |r.value| == |Without(cards, cardId)| + 1
  {
    match Find(cards, cardId)
    case None => None
    case Some(c) =>
      var moved := c.(column := column);
      var rest := Without(cards, cardId);
      if before == End then Some(rest + [moved])
      else Some(SpliceInsert(rest, FindIndex(rest, before), moved))
  }

  /** The drop's effect on the card list: `None` means the list and the stored copy are left alone. */
  function Dropped(cards: seq<Card>, cardId: string, column: string, before: string): (r: Option<seq<Card>>)
    ensures r.None? <==> before == cardId || cardId !in Ids(cards)
    ensures r.Some? ==> r == Moved(cards, cardId, column, before)
  {
    if before == cardId then None else Moved(cards, cardId, column, before)
  }

  /** The `before` id a drop on `column` resolves to: the nearest indicator's `data-before`,
      `|| "-1"`. Slot ids are never empty, so it is one of the column's slot ids. */
  function DropTarget(cards: seq<Card>, column: string, tops: seq<int>, y: int): (before: string)
    requires |tops| == |Slots(cards, column)|
    ensures before in Slots(cards, column)
  {
    SlotsMatchView(cards, column);
    BeforeOf(Slots(cards, column)[Nearest(tops, y)])
  }

  // ---- A committed move ----

  /** The card a committed move puts back: the first card with the dragged id (the one `find`
      returns), with its column set to the drop column. */
  function MovedCard(cards: seq<Card>, cardId: string, column: string): (m: Card)
    requires cardId in Ids(cards)
    ensures m.id == cardId && m.column == column
    ensures m == cards[FindIndex(cards, cardId)].(column := column)
  {
    Find(cards, cardId).value.(column := column)
  }

  /** Where a committed move inserts the card into the list with the card taken out. */
  function InsertPos(cards: seq<Card>, cardId: string, before: string): nat
  {
    var rest := Without(cards, cardId);
    if before == End then |rest| else SpliceStart(|rest|, FindIndex(rest, before))
  }

  /** A committed move is an insertion of the moved card into the rest of the list. */
  lemma {:induction false} MovedIsInsertion(cards: seq<Card>, cardId: string, column: string, before: string)
    requires cardId in Ids(cards)
    ensures var rest := Without(cards, cardId); var k := InsertPos(cards, cardId, before);
      k <= |rest| &&
      Moved(cards, cardId, column, before) == Some(rest[..k] + [MovedCard(cards, cardId, column)] + rest[k..])
  {
    var rest := Without(cards, cardId);
    var m := MovedCard(cards, cardId, column);
    assert Find(cards, cardId).Some?;
    var k := InsertPos(cards, cardId, before);
    if before == End {
      assert Moved(cards, cardId, column, before) == Some(rest + [m]);
      assert rest[..k] == rest && rest[k..] == [];
      assert rest + [m] == rest[..k] + [m] + rest[k..];
    } else {
      assert Moved(cards, cardId, column, before) == Some(SpliceInsert(rest, FindIndex(rest, before), m));
    }
  }

  /** The other cards keep their order and their fields: taking the moved card out of the
      new list gives the old list with it taken out. */
  lemma {:induction false} MoveKeepsOthers(cards: seq<Card>, cardId: string, column: string, before: string)
    requires cardId in Ids(cards)
    ensures Without(Moved(cards, cardId, column, before).value, cardId) == Without(cards, cardId)
  {
    MovedIsInsertion(cards, cardId, column, before);
    InsertThenRemove(Without(cards, cardId), InsertPos(cards, cardId, before), MovedCard(cards, cardId, column));
  }

  /** With unique ids, a committed move keeps the length and the multiset of ids. */
  lemma {:induction false} MovePreservesIds(cards: seq<Card>, cardId: string, column: string, before: string)
    requires UniqueIds(cards) && cardId in Ids(cards)
    ensures var r := Moved(cards, cardId, column, before).value;
      |r| == |cards| && multiset(Ids(r)) == multiset(Ids(cards))
  {
    MovedIsInsertion(cards, cardId, column, before);
    ReinsertKeepsIds(cards, cardId, InsertPos(cards, cardId, before), MovedCard(cards, cardId, column));
  }

  /** With unique ids, a committed move keeps the ids unique, and the only card with the
      dragged id in the new list is the moved card. */
  lemma {:induction false} MoveKeepsUnique(cards: seq<Card>, cardId: string, column: string, before: string)
    requires cardId in Ids(cards)
    ensures UniqueIds(cards) ==>
      var r := Moved(cards, cardId, column, before).value;
      && UniqueIds(r)
      && forall j :: 0 <= j < |r| && r[j].id == cardId ==> r[j] == MovedCard(cards, cardId, column)
  {
    if UniqueIds(cards) {
      MovedIsInsertion(cards, cardId, column, before);
      var rest := Without(cards, cardId);
      var k := InsertPos(cards, cardId, before);
      var m := MovedCard(cards, cardId, column);
      UniqueWithout(cards, cardId);
      UniqueInsert(rest, k, m);
      assert (rest[..k] + [m] + rest[k..])[k] == m;
    }
  }

  /** A move to the end slot makes the moved card the last card of the list and the last
      card of the drop column's view. */
  lemma {:induction false} MoveToEnd(cards: seq<Card>, cardId: string, column: string)
    requires cardId in Ids(cards)
    ensures var r := Moved(cards, cardId, column, End).value; var m := MovedCard(cards, cardId, column);
      && r == Without(cards, cardId) + [m]
      && Filter(r, column) == Filter(Without(cards, cardId), column) + [m]
  {
    var m := MovedCard(cards, cardId, column);
    FilterAppend(Without(cards, cardId), [m], column);
  }

  /** A move in front of a card that is still in the list puts the moved card immediately
      before that card. */
  lemma {:induction false} MoveBefore(cards: seq<Card>, cardId: string, column: string, before: string)
    requires cardId in Ids(cards)
    requires before != End && before in Ids(Without(cards, cardId))
    ensures var r := Moved(cards, cardId, column, before).value;
      var rest := Without(cards, cardId); var q := FindIndex(rest, before);
      && 0 <= q < |rest| && rest[q].id == before
      && q + 1 < |r| && r[q] == MovedCard(cards, cardId, column) && r[q + 1] == rest[q]
  {
  }

  /** A move in front of an id that names no card lands in front of the last card, or forms
      the whole list when there is no other card (`splice(-1, 0, card)`). */
  lemma {:induction false} MoveMissInsertsBeforeLast(cards: seq<Card>, cardId: string, column: string, before: string)
    requires cardId in Ids(cards)
    requires before != End && before !in Ids(Without(cards, cardId))
    ensures var r := Moved(cards, cardId, column, before).value;
      var rest := Without(cards, cardId); var m := MovedCard(cards, cardId, column);
      if rest == [] then r == [m]
      else r == rest[..|rest| - 1] + [m, rest[|rest| - 1]]
  {
    var rest := Without(cards, cardId);
    var m := MovedCard(cards, cardId, column);
    var k := InsertPos(cards, cardId, before);
    assert k == if rest == [] then 0 else |rest| - 1;
    if rest == [] {
      assert rest[..k] + [m] + rest[k..] == [m];
    } else {
      var n := |rest| - 1;
      assert rest[..k] + [m] + rest[k..] == rest[..n] + [m, rest[n]] by {
        assert rest[n..] == [rest[n]];
      }
    }
    MovedIsInsertion(cards, cardId, column, before);
  }

  /** Unique ids stay unique in a column's view. */
  lemma {:induction false} UniqueFilter(cs: seq<Card>, column: string)
    requires UniqueIds(cs)
    ensures UniqueIds(Filter(cs, column))
  {
    if cs != [] {
      var tail := cs[1..];
      assert UniqueIds(tail) by {
        forall i, j | 0 <= i < j < |tail| ensures tail[i].id != tail[j].id {
          assert tail[i] == cs[i + 1] && tail[j] == cs[j + 1];
        }
      }
      UniqueFilter(tail, column);
      if cs[0].column == column {
        var f := Filter(tail, column);
        forall j | 0 <= j < |f| ensures cs[0].id != f[j].id {
          assert f[j] in tail;
          var k :| 0 <= k < |tail| && tail[k] == f[j];
          assert cs[k + 1] == f[j];
        }
        assert Filter(cs, column) == [cs[0]] + f;
      }
    }
  }

  /** After a committed move the moved card shows in the drop column's view, every card with
      the dragged id there is the moved card, and no other column's view has that id. This
      holds on every board; with unique ids the drop column's view also keeps unique ids. */
  lemma {:induction false} MoveClosure(cards: seq<Card>, cardId: string, column: string, before: string, other: string)
    requires cardId in Ids(cards)
    ensures var r := Moved(cards, cardId, column, before).value; var f := Filter(r, column);
      && MovedCard(cards, cardId, column) in f
      && (forall j :: 0 <= j < |f| && f[j].id == cardId ==> f[j] == MovedCard(cards, cardId, column))
      && (other != column ==> cardId !in Ids(Filter(r, other)))
      && (UniqueIds(cards) ==> UniqueIds(f))
  {
    var rest := Without(cards, cardId);
    var k := InsertPos(cards, cardId, before);
    var m := MovedCard(cards, cardId, column);
    MovedIsInsertion(cards, cardId, column, before);
    InsertedView(rest, k, m, other);
    if UniqueIds(cards) {
      MoveKeepsUnique(cards, cardId, column, before);
      UniqueFilter(rest[..k] + [m] + rest[k..], column);
    }
  }

  /** A card inserted into a list without its id shows in its column's view, is the only card
      with its id there, and its id is in no other column's view. */
  lemma {:induction false} InsertedView(rest: seq<Card>, k: nat, m: Card, other: string)
    requires k <= |rest| && m.id !in Ids(rest)
    ensures var r := rest[..k] + [m] + rest[k..]; var f := Filter(r, m.column);
      && m in f
      && (forall j :: 0 <= j < |f| && f[j].id == m.id ==> f[j] == m)
      && (other != m.column ==> m.id !in Ids(Filter(r, other)))
  {
    var r := rest[..k] + [m] + rest[k..];
    assert r[k] == m;
    forall c | c in r && c != m ensures c.id != m.id {
      assert c in rest;
      var i :| 0 <= i < |rest| && rest[i] == c;
      assert Ids(rest)[i] == c.id;
    }
    var f := Filter(r, m.column);
    forall j | 0 <= j < |f| && f[j].id == m.id ensures f[j] == m {
      assert f[j] in r;
    }
    if other != m.column {
      var g := Filter(r, other);
      forall i | 0 <= i < |g| ensures g[i].id != m.id {
        assert g[i] in r;
      }
    }
  }

  // ---- Drops resolved from the slot list ----

  /** The `before` id a drop resolves to is the end sentinel or the id of a card of the column. */
  lemma {:induction false} DropTargetNamesCard(cards: seq<Card>, column: string, tops: seq<int>, y: int)
    requires |tops| == |Slots(cards, column)|
    ensures var before := DropTarget(cards, column, tops, y);
      before == End || exists c :: c in cards && c.column == column && c.id == before
  {
    var k := Nearest(tops, y);
    SlotNamesCard(cards, column, k);
    SlotsMatchView(cards, column);
  }

  /** A drop whose target is not the dragged card itself never reaches the `findIndex` miss:
      the target is the end sentinel or names a card still in the list. This holds on every
      board, duplicate ids included. */
  lemma {:induction false} DropNeverMisses(cards: seq<Card>, cardId: string, column: string, tops: seq<int>, y: int)
    requires |tops| == |Slots(cards, column)|
    requires DropTarget(cards, column, tops, y) != cardId
    ensures var before := DropTarget(cards, column, tops, y);
      before == End || before in Ids(Without(cards, cardId))
  {
    var before := DropTarget(cards, column, tops, y);
    DropTargetNamesCard(cards, column, tops, y);
    if before != End {
      var c :| c in cards && c.column == column && c.id == before;
      assert c in Without(cards, cardId);
      var w := Without(cards, cardId);
      var i :| 0 <= i < |w| && w[i] == c;
      assert Ids(w)[i] == before;
    }
  }

  /** Adjacent cards of one column stay adjacent in that column's view. */
  lemma {:induction false} AdjacentInView(r: seq<Card>, q: nat, column: string) returns (i: nat)
    requires q + 1 < |r| && r[q].column == column && r[q + 1].column == column
    ensures var f := Filter(r, column); i + 1 < |f| && f[i] == r[q] && f[i + 1] == r[q + 1]
  {
    assert r == r[..q] + ([r[q], r[q + 1]] + r[q + 2..]);
    FilterAppend(r[..q], [r[q], r[q + 1]] + r[q + 2..], column);
    FilterAppend([r[q], r[q + 1]], r[q + 2..], column);
    assert Filter([r[q], r[q + 1]], column) == [r[q], r[q + 1]] by {
      assert [r[q], r[q + 1]][1..] == [r[q + 1]];
    }
    i := |Filter(r[..q], column)|;
  }

  /** A move in front of a card of the drop column puts the moved card immediately
      before that card in the drop column's view. */
  lemma {:induction false} MoveBeforeInView(cards: seq<Card>, cardId: string, column: string, target: Card) returns (i: nat)
    requires UniqueIds(cards) && cardId in Ids(cards)
    requires target in cards && target.column == column && target.id != cardId && target.id != End
    ensures var f := Filter(Moved(cards, cardId, column, target.id).value, column);
      i + 1 < |f| && f[i] == MovedCard(cards, cardId, column) && f[i + 1] == target
  {
    var r := Moved(cards, cardId, column, target.id).value;
    var q := TargetAfterMoved(cards, cardId, column, target);
    i := AdjacentInView(r, q, column);
  }

  /** The core of `MoveBeforeInView`: in the new list, the moved card is followed by the target. */
  lemma {:induction false} TargetAfterMoved(cards: seq<Card>, cardId: string, column: string, target: Card) returns (q: nat)
    requires UniqueIds(cards) && cardId in Ids(cards)
    requires target in cards && target.id != cardId && target.id != End
    ensures var r := Moved(cards, cardId, column, target.id).value;
      q + 1 < |r| && r[q] == MovedCard(cards, cardId, column) && r[q + 1] == target
  {
    var rest := Without(cards, cardId);
    assert target.id in Ids(rest) by {
      assert target in rest;
      var j :| 0 <= j < |rest| && rest[j] == target;
      assert Ids(rest)[j] == target.id;
    }
    q := FindIndex(rest, target.id);
    MoveBefore(cards, cardId, column, target.id);
    assert rest[q] == target by {
      assert rest[q] in cards;
      SameIdSameCard(cards, target, rest[q]);
    }
  }

  /** A committed drop on a card's slot lands the moved card immediately before that card
      in the drop column's view. */
  lemma {:induction false} DropLandsAtSlot(cards: seq<Card>, cardId: string, column: string, tops: seq<int>, y: int) returns (i: nat)
    requires UniqueIds(cards) && cardId in Ids(cards)
    requires |tops| == |Slots(cards, column)|
    requires DropTarget(cards, column, tops, y) != cardId && DropTarget(cards, column, tops, y) != End
    ensures var before := DropTarget(cards, column, tops, y);
      var f := Filter(Dropped(cards, cardId, column, before).value, column);
      i + 1 < |f| && f[i] == MovedCard(cards, cardId, column) && f[i + 1].id == before
  {
    var before := DropTarget(cards, column, tops, y);
    DropTargetNamesCard(cards, column, tops, y);
    var c :| c in cards && c.column == column && c.id == before;
    i := MoveBeforeInView(cards, cardId, column, c);
  }
}
