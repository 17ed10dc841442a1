/**
 * Concrete boards and pointer positions, worked through the model.
 */
module Scenarios {
  import opened Cards
  import opened Text
  import opened Indicators
  import opened Reorder
  import opened Adding

  /** Four indicators with tops 100, 160, 220 and 280 and the pointer at 165: the threshold
      lines lie at 150, 210, 270 and 330, the offsets are 15, -45, -105 and -165, and the
      largest negative one, -45, belongs to the second indicator. */
  lemma NearestPicksSecond()
    ensures Nearest([100, 160, 220, 280], 165) == 1
  {
    var tops := [100, 160, 220, 280];
    var a0 := Best(NegInf, 3);
    var a1 := Step(165, a0, 100, 0);
    assert a1 == a0;
    var a2 := Step(165, a1, 160, 1);
    assert a2 == Best(Finite(-45), 1);
    assert Step(165, a2, 220, 2) == a2;
    assert Step(165, a2, 280, 3) == a2;
    assert Fold(tops, 165, 4, a2) == a2;
    assert Fold(tops, 165, 2, a2) == a2;
  }

  /** A pointer below every threshold line falls back to the last indicator. */
  lemma NearestBelowAll()
    ensures Nearest([100, 160, 220, 280], 400) == 3
  {
    NearestDefaultsToLast([100, 160, 220, 280], 400);
    assert Offset(400, [100, 160, 220, 280][3]) == 70;
  }

  /** Cards A and B in column "c1": dragging A below both cards resolves to the end slot,
      and the drop leaves B first and A last. */
  lemma DropBelowAllMovesToBack()
    ensures |Slots([Card("A", "a", "c1"), Card("B", "b", "c1")], "c1")| == 3
    ensures var a, b := Card("A", "a", "c1"), Card("B", "b", "c1");
      var before := DropTarget([a, b], "c1", [0, 60, 120], 500);
      before == End && Dropped([a, b], "A", "c1", before) == Some([b, a])
  {
    var a, b := Card("A", "a", "c1"), Card("B", "b", "c1");
    var cs := [a, b];
    assert cs[1..] == [b] && [b][1..] == [];
    assert Slots([], "c1") == [End];
    assert Slots([b], "c1") == ["B", End];
    assert Slots(cs, "c1") == ["A", "B", End];
    NearestDefaultsToLast([0, 60, 120], 500);
    assert Find(cs, "A") == Some(a);
    assert Without(cs, "A") == [b];
    assert Nearest([0, 60, 120], 500) == 2;
    assert DropTarget(cs, "c1", [0, 60, 120], 500) == End;
    assert Moved(cs, "A", "c1", End) == Some([b] + [a]);
    assert End != "A" && [b] + [a] == [b, a];
    assert Dropped(cs, "A", "c1", End) == Some([b, a]);
  }

  /** Card A of column "c1" dropped on column "c2" in front of B: A now belongs to "c2" and
      precedes B. */
  lemma MoveInFrontOfCard()
    ensures var a, b := Card("A", "a", "c1"), Card("B", "b", "c2");
      Dropped([a, b], "A", "c2", "B") == Some([a.(column := "c2"), b])
  {
    var a, b := Card("A", "a", "c1"), Card("B", "b", "c2");
    var cs := [a, b];
    var m := a.(column := "c2");
    assert cs[1..] == [b] && [b][1..] == [];
    assert Find(cs, "A") == Some(a);
    assert Without(cs, "A") == [b];
    assert FindIndex([b], "B") == 0;
    assert SpliceInsert([b], 0, m) == [m, b] by {
      assert [b][..0] == [] && [b][0..] == [b];
    }
  }

  /** The bin removes one card of the default board: eight remain. */
  lemma TrashOneDefault()
    ensures |Without(DefaultCards, "3")| == 8
  {
    DefaultCardsUnique();
    assert Ids(DefaultCards)[2] == "3";
    RemoveOneId(DefaultCards, "3");
  }

  /** Submitting " hi" adds a card titled "hi"; submitting white space adds nothing. */
  lemma SubmitTrims()
    ensures Submitted([], " hi", "0.42", "c1") == [Card("0.42", "hi", "c1")]
    ensures Submitted([], " \t ", "0.42", "c1") == []
  {
    var t := " hi";
    assert t[1..] == "hi" && IsSpace(t[0]) && !IsSpace('h') && !IsSpace('i');
    assert Lead("hi") == 0;
    assert Lead(t) == 1;
    assert "hi"[..1] == "h";
    assert Trail("hi") == 0;
    assert Trim(t) == "hi";
    SubmitBlankIff([], " \t ", "0.42", "c1");
    assert AllSpace(" \t ");
  }

  /** Two cards that share an id (the add form draws ids from only 101 values): moving one
      of them drops the other, since the removal takes out every card with that id. */
  lemma DuplicateIdsLoseACard()
    ensures Moved([Card("x", "a", "c1"), Card("x", "b", "c1")], "x", "c2", End)
      == Some([Card("x", "a", "c2")])
  {
    var cs := [Card("x", "a", "c1"), Card("x", "b", "c1")];
    assert cs[1..] == [Card("x", "b", "c1")] && cs[1..][1..] == [];
    assert Find(cs, "x") == Some(cs[0]);
    assert Without(cs[1..], "x") == [];
    assert Without(cs, "x") == [];
    assert Moved(cs, "x", "c2", End) == Some(Without(cs, "x") + [cs[0].(column := "c2")]);
    assert Without(cs, "x") + [cs[0].(column := "c2")] == [Card("x", "a", "c2")];
  }
}
