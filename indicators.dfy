/**
 * The insertion slots ("indicators") of a column and the choice of the slot
 * nearest to the pointer.
 *
 * A column renders one indicator before each of its cards, in the order of the
 * column's filtered view, and one trailing indicator after the last card. An
 * indicator records the id of the card it precedes, or the end sentinel "-1".
 * The geometry of the rendered indicators enters as a list of integer tops,
 * one per indicator in document order; the pointer is an integer `y`.
 */
module Indicators {
  import opened Cards

  /** The `before` id of the trailing end-of-column slot. */
  const End: string := "-1"

  /** The vertical distance below an indicator's top at which its threshold line lies. */
  const Threshold: int := 50

  /** `beforeId || "-1"`: the empty string is the only falsy string. */
  function BeforeOf(id: string): (b: string)
    ensures b != []
    ensures b == End <==> id == [] || id == End
    ensures b != End ==> b == id
  {
    if id == [] then End else id
  }

  /** The `before` ids of the indicators of `column`, in document order. */
  function Slots(cards: seq<Card>, column: string): (r: seq<string>)
    ensures |r| >= 1 && r[|r| - 1] == End
  {
    if cards == [] then [End]
    else if cards[0].column == column then [BeforeOf(cards[0].id)] + Slots(cards[1..], column)
    else Slots(cards[1..], column)
  }

  /** One slot per card of the column's view, naming that card, in view order, then the end slot. */
  lemma {:induction false} SlotsMatchView(cards: seq<Card>, column: string)
    ensures var r := Slots(cards, column); var f := Filter(cards, column);
      && |r| == |f| + 1
      && r[|r| - 1] == End
      && forall i :: 0 <= i < |f| ==> r[i] == BeforeOf(f[i].id)
  {
    if cards != [] {
      var f, f' := Filter(cards, column), Filter(cards[1..], column);
      var r, r' := Slots(cards, column), Slots(cards[1..], column);
      SlotsMatchView(cards[1..], column);
      if cards[0].column == column {
        assert f == [cards[0]] + f' && r == [BeforeOf(cards[0].id)] + r';
        forall i | 0 < i < |f| ensures r[i] == BeforeOf(f[i].id) {
          assert r[i] == r'[i - 1] && f[i] == f'[i - 1];
        }
      }
    }
  }

  /** A slot other than the end slot names a card of the column. */
  lemma SlotNamesCard(cards: seq<Card>, column: string, k: nat)
    requires k < |Slots(cards, column)|
    ensures var b := Slots(cards, column)[k];
      b == End || exists c :: c in cards && c.column == column && c.id == b
  {
    SlotsMatchView(cards, column);
    var f := Filter(cards, column);
    if k < |f| && BeforeOf(f[k].id) != End {
      assert f[k] in cards;
    }
  }

  // ---- The nearest indicator: a left fold over the indicators ----

  /** A finite offset or the fold's starting value, negative infinity. */
  datatype Extended = NegInf | Finite(v: int)

  /** The fold's accumulator: the best offset so far and the indicator it belongs to. */
  datatype Best = Best(offset: Extended, at: nat)

  /** `y - (top + 50)`: how far the pointer is below an indicator's threshold line. */
  function Offset(y: int, top: int): int
  {
    y - (top + Threshold)
  }

  function Exceeds(v: int, e: Extended): bool
  {
    match e
    case NegInf => true
    case Finite(w) => v > w
  }

  /** One step of the reduce: indicator `i` with top `top` replaces the accumulator
      when its offset is negative and strictly greater than the best so far. */
  function Step(y: int, a: Best, top: int, i: nat): Best
  {
    var off := Offset(y, top);
    if off < 0 && Exceeds(off, a.offset) then Best(Finite(off), i) else a
  }

  function Fold(tops: seq<int>, y: int, i: nat, a: Best): Best
    requires i <= |tops|
    decreases |tops| - i
  {
    if i == |tops| then a else Fold(tops, y, i + 1, Step(y, a, tops[i], i))
  }

  /** The index of the indicator nearest to `y` (`getNearestIndicator`): the reduce starts
      from offset negative infinity and the last indicator. */
  function Nearest(tops: seq<int>, y: int): (k: nat)
    requires |tops| > 0
    ensures k < |tops|
  {
    FoldKeepsInv(tops, y, 0, Best(NegInf, |tops| - 1));
    Fold(tops, y, 0, Best(NegInf, |tops| - 1)).at
  }

  /** Indicator `k`'s offset is negative, no negative offset is larger, and no earlier
      indicator has the same offset. */
  ghost predicate EarliestBest(tops: seq<int>, y: int, k: int)
  {
    && 0 <= k < |tops|
    && Offset(y, tops[k]) < 0
    && (forall j :: 0 <= j < |tops| && Offset(y, tops[j]) < 0 ==> Offset(y, tops[j]) <= Offset(y, tops[k]))
    && (forall j :: 0 <= j < k ==> Offset(y, tops[j]) != Offset(y, tops[k]))
  }

  ghost predicate SomeAbove(tops: seq<int>, y: int)
  {
    exists j :: 0 <= j < |tops| && Offset(y, tops[j]) < 0
  }

  /** What the accumulator holds after the first `i` indicators. */
  ghost predicate FoldInv(tops: seq<int>, y: int, i: nat, a: Best)
    requires i <= |tops|
  {
    match a.offset
    case NegInf =>
      |tops| > 0 && a.at == |tops| - 1 && forall j :: 0 <= j < i ==> Offset(y, tops[j]) >= 0
    case Finite(v) =>
      && a.at < i
      && v == Offset(y, tops[a.at]) < 0
      && (forall j :: 0 <= j < i && Offset(y, tops[j]) < 0 ==> Offset(y, tops[j]) <= v)
      && (forall j :: 0 <= j < a.at ==> Offset(y, tops[j]) != v)
  }

  lemma {:induction false} FoldKeepsInv(tops: seq<int>, y: int, i: nat, a: Best)
    requires i <= |tops| && FoldInv(tops, y, i, a)
    ensures FoldInv(tops, y, |tops|, Fold(tops, y, i, a))
    decreases |tops| - i
  {
    if i < |tops| {
      var a' := Step(y, a, tops[i], i);
      assert FoldInv(tops, y, i + 1, a');
      FoldKeepsInv(tops, y, i + 1, a');
    }
  }

  /** When some threshold line lies below the pointer, the nearest indicator is the
      earliest one with the largest negative offset. */
  lemma {:induction false} NearestIsEarliestBest(tops: seq<int>, y: int)
    requires |tops| > 0 && SomeAbove(tops, y)
    ensures EarliestBest(tops, y, Nearest(tops, y))
  {
    FoldKeepsInv(tops, y, 0, Best(NegInf, |tops| - 1));
  }

  /** When no threshold line lies below the pointer, the nearest indicator is the last one. */
  lemma {:induction false} NearestDefaultsToLast(tops: seq<int>, y: int)
    requires |tops| > 0 && !SomeAbove(tops, y)
    ensures Nearest(tops, y) == |tops| - 1
  {
    FoldKeepsInv(tops, y, 0, Best(NegInf, |tops| - 1));
  }

  /** At most one indicator is the earliest best. */
  lemma {:induction false} EarliestBestUnique(tops: seq<int>, y: int, k1: int, k2: int)
    requires EarliestBest(tops, y, k1) && EarliestBest(tops, y, k2)
    ensures k1 == k2
  {
  }

  /** Both directions: indicator `k` is the nearest exactly when it is the earliest best. */
  lemma {:induction false} NearestIff(tops: seq<int>, y: int, k: int)
    requires |tops| > 0 && SomeAbove(tops, y)
    ensures Nearest(tops, y) == k <==> EarliestBest(tops, y, k)
  {
    NearestIsEarliestBest(tops, y);
    if EarliestBest(tops, y, k) {
      EarliestBestUnique(tops, y, k, Nearest(tops, y));
    }
  }
}
