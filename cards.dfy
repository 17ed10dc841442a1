/**
 * The cards of the board and the whole-list operations performed on the one
 * global card sequence: the per-column filter, removal by id, lookup by id
 * (`find` and `findIndex`), and `splice` insertion with JavaScript's handling
 * of a negative start index.
 */
module Cards {

  datatype Option<T> = None | Some(value: T)

  /** A card. `id` is its identity; `column` is the key of the column it shows in. */
  datatype Card = Card(id: string, title: string, column: string)

  /** The ids of a card list, in order. */
  function Ids(cs: seq<Card>): (r: seq<string>)
    ensures |r| == |cs|
    ensures forall i :: 0 <= i < |cs| ==> r[i] == cs[i].id
  {
    seq(|cs|, i requires 0 <= i < |cs| => cs[i].id)
  }

  /** No two cards of the list share an id. */
  predicate UniqueIds(cs: seq<Card>)
  {
    forall i, j :: 0 <= i < j < |cs| ==> cs[i].id != cs[j].id
  }

  /** The cards shown in `column`, in global order (`cards.filter(i => i.column === column)`). */
  function Filter(cs: seq<Card>, column: string): (r: seq<Card>)
    ensures |r| <= |cs|
    ensures forall c :: c in r <==> c in cs && c.column == column
  {
    if cs == [] then []
    else if cs[0].column == column then [cs[0]] + Filter(cs[1..], column)
    else Filter(cs[1..], column)
  }

  /** The list without the cards whose id is `id` (`cards.filter(c => c.id !== id)`). */
  function Without(cs: seq<Card>, id: string): (r: seq<Card>)
    ensures |r| <= |cs|
    ensures forall c :: c in r <==> c in cs && c.id != id
    ensures id !in Ids(r)
  {
    if cs == [] then []
    else if cs[0].id == id then Without(cs[1..], id)
    else [cs[0]] + Without(cs[1..], id)
  }

  /** The first card whose id is `id`, if any (`cards.find(c => c.id === id)`). */
  function Find(cs: seq<Card>, id: string): (r: Option<Card>)
    ensures r.None? <==> id !in Ids(cs)
    ensures r.Some? ==> r.value in cs && r.value.id == id
    ensures r.Some? ==> r.value == cs[FindIndex(cs, id)]
  {
    if cs == [] then None
    else if cs[0].id == id then Some(cs[0])
    else Find(cs[1..], id)
  }

  /** The index of the first card whose id is `id`, or -1 (`cards.findIndex(e => e.id === id)`). */
  function FindIndex(cs: seq<Card>, id: string): (r: int)
    ensures -1 <= r < |cs|
    ensures r == -1 <==> id !in Ids(cs)
    ensures 0 <= r ==> cs[r].id == id && forall j :: 0 <= j < r ==> cs[j].id != id
  {
    if cs == [] then -1
    else if cs[0].id == id then 0
    else var k := FindIndex(cs[1..], id); if k == -1 then -1 else k + 1
  }

  /** The position `splice(start, 0, x)` inserts at in a list of length `len`. */
  function SpliceStart(len: nat, start: int): (k: nat)
    ensures k <= len
    ensures 0 <= start ==> k == if start <= len then start else len
    ensures start < 0 ==> k == if len + start < 0 then 0 else len + start
  {
    if start < 0 then (if len + start < 0 then 0 else len + start)
    else if start <= len then start else len
  }

  /** `s.splice(start, 0, x)`: the list with `x` inserted at `SpliceStart(|s|, start)`. */
  function SpliceInsert(s: seq<Card>, start: int, x: Card): (r: seq<Card>)
    ensures |r| == |s| + 1
    ensures r[SpliceStart(|s|, start)] == x
    ensures forall i :: 0 <= i < SpliceStart(|s|, start) ==> r[i] == s[i]
    ensures forall i :: SpliceStart(|s|, start) <= i < |s| ==> r[i + 1] == s[i]
  {
    var k := SpliceStart(|s|, start);
    s[..k] + [x] + s[k..]
  }

  /** `splice(-1, …)`, the start a `findIndex` miss produces, inserts in front of the last
      element, or at 0 in an empty list. */
  lemma {:induction false} SpliceMinusOne(len: nat)
    ensures SpliceStart(len, -1) == if len == 0 then 0 else len - 1
  {
  }

  /** A start found by `findIndex` within the list is used as it is. */
  lemma {:induction false} SpliceInRange(len: nat, start: int)
    requires 0 <= start <= len
    ensures SpliceStart(len, start) == start
  {
  }

  /** The cards a board holds when nothing is stored (`DEFAULT_CARDS`). */
  const DefaultCards: seq<Card> := [
    Card("1", "Card 1", "board_1"),
    Card("2", "Card 2", "board_2"),
    Card("3", "Card 3", "board_1"),
    Card("4", "Card 4", "board_1"),
    Card("5", "Card 5", "board_2"),
    Card("6", "Card 6", "board_1"),
    Card("7", "Card 7", "board_2"),
    Card("8", "Card 8", "board_2"),
    Card("9", "Card 9", "board_1")
  ]

  // ---- Lemmas about the list operations ----

  lemma {:induction false} IdsAppend(a: seq<Card>, b: seq<Card>)
    ensures Ids(a + b) == Ids(a) + Ids(b)
  {
  }

  lemma {:induction false} FilterAppend(a: seq<Card>, b: seq<Card>, column: string)
    ensures Filter(a + b, column) == Filter(a, column) + Filter(b, column)
  {
    if a == [] {
      assert a + b == b;
    } else {
      assert (a + b)[0] == a[0] && (a + b)[1..] == a[1..] + b;
      FilterAppend(a[1..], b, column);
    }
  }

  lemma {:induction false} WithoutAppend(a: seq<Card>, b: seq<Card>, id: string)
    ensures Without(a + b, id) == Without(a, id) + Without(b, id)
  {
    if a == [] {
      assert a + b == b;
    } else {
      assert (a + b)[0] == a[0] && (a + b)[1..] == a[1..] + b;
      WithoutAppend(a[1..], b, id);
    }
  }

  /** Removing an id no card has changes nothing. */
  lemma {:induction false} WithoutAbsent(cs: seq<Card>, id: string)
    requires id !in Ids(cs)
    ensures Without(cs, id) == cs
  {
    if cs != [] {
      assert Ids(cs[1..]) == Ids(cs)[1..];
      WithoutAbsent(cs[1..], id);
    }
  }

  /** With unique ids, removing the id of card `c` takes out exactly `c` and keeps the rest in order. */
  lemma {:induction false} RemoveOne(a: seq<Card>, c: Card, b: seq<Card>)
    requires UniqueIds(a + [c] + b)
    ensures Without(a + [c] + b, c.id) == a + b
  {
    var cs := a + [c] + b;
    assert c.id !in Ids(a) by {
      forall i | 0 <= i < |a| ensures a[i].id != c.id {
        assert cs[i] == a[i] && cs[|a|] == c;
      }
    }
    assert c.id !in Ids(b) by {
      forall i | 0 <= i < |b| ensures b[i].id != c.id {
        assert cs[|a| + 1 + i] == b[i] && cs[|a|] == c;
      }
    }
    WithoutAppend(a + [c], b, c.id);
    WithoutAppend(a, [c], c.id);
    assert Without([c], c.id) == [];
    WithoutAbsent(a, c.id);
    WithoutAbsent(b, c.id);
  }

  /** Removing cards keeps the ids unique. */
  lemma {:induction false} UniqueWithout(cs: seq<Card>, id: string)
    ensures UniqueIds(cs) ==> UniqueIds(Without(cs, id))
  {
    if cs != [] && UniqueIds(cs) {
      var tail := cs[1..];
      assert UniqueIds(tail) by {
        forall i, j | 0 <= i < j < |tail| ensures tail[i].id != tail[j].id {
          assert tail[i] == cs[i + 1] && tail[j] == cs[j + 1];
        }
      }
      UniqueWithout(tail, id);
      if cs[0].id != id {
        var w := Without(tail, id);
        forall j | 0 <= j < |w| ensures cs[0].id != w[j].id {
          assert w[j] in tail;
          var k :| 0 <= k < |tail| && tail[k] == w[j];
          assert cs[k + 1] == w[j];
        }
        assert Without(cs, id) == [cs[0]] + w;
      }
    }
  }

  /** Inserting a card with a fresh id anywhere keeps the ids unique. */
  lemma {:induction false} UniqueInsert(s: seq<Card>, k: nat, x: Card)
    requires k <= |s|
    requires UniqueIds(s)
    requires x.id !in Ids(s)
    ensures UniqueIds(s[..k] + [x] + s[k..])
  {
    var r := s[..k] + [x] + s[k..];
    forall i, j | 0 <= i < j < |r| ensures r[i].id != r[j].id {
      if i == k {
        assert r[j] == s[j - 1] && Ids(s)[j - 1] == s[j - 1].id;
      } else if j == k {
        assert r[i] == s[i] && Ids(s)[i] == s[i].id;
      } else {
        var i' := if i < k then i else i - 1;
        var j' := if j < k then j else j - 1;
        assert r[i] == s[i'] && r[j] == s[j'];
      }
    }
  }

  lemma SplitAround(cs: seq<Card>, p: nat)
    requires p < |cs|
    ensures cs == cs[..p] + [cs[p]] + cs[p + 1..]
  {
  }

  /** Appending a card with a fresh id keeps the ids unique. */
  lemma {:induction false} UniqueAppend(cs: seq<Card>, x: Card)
    requires UniqueIds(cs) && x.id !in Ids(cs)
    ensures UniqueIds(cs + [x])
  {
    var r := cs + [x];
    forall i, j | 0 <= i < j < |r| ensures r[i].id != r[j].id {
      if j == |cs| {
        assert Ids(cs)[i] == cs[i].id;
      } else {
        assert r[i] == cs[i] && r[j] == cs[j];
      }
    }
  }

  /** A card between two lists adds its id to the multiset of their ids. */
  lemma {:induction false} InsertIds(a: seq<Card>, x: Card, b: seq<Card>)
    ensures multiset(Ids(a + [x] + b)) == multiset(Ids(a + b)) + multiset{x.id}
  {
    IdsAppend(a, [x]);
    IdsAppend(a + [x], b);
    IdsAppend(a, b);
    assert Ids([x]) == [x.id];
  }

  /** Removing the id of a card nowhere else in the list leaves the rest in order. */
  lemma {:induction false} InsertThenRemove(s: seq<Card>, k: nat, x: Card)
    requires k <= |s| && x.id !in Ids(s)
    ensures Without(s[..k] + [x] + s[k..], x.id) == s
  {
    var a, b := s[..k], s[k..];
    assert x.id !in Ids(a) by {
      forall i | 0 <= i < k ensures a[i].id != x.id {
        assert Ids(s)[i] == a[i].id;
      }
    }
    assert x.id !in Ids(b) by {
      forall i | 0 <= i < |s| - k ensures b[i].id != x.id {
        assert Ids(s)[k + i] == b[i].id;
      }
    }
    calc {
      Without(a + [x] + b, x.id);
    ==  { WithoutAppend(a + [x], b, x.id); }
      Without(a + [x], x.id) + Without(b, x.id);
    ==  { WithoutAppend(a, [x], x.id); }
      Without(a, x.id) + Without([x], x.id) + Without(b, x.id);
    ==  { WithoutAbsent(a, x.id); WithoutAbsent(b, x.id); assert Without([x], x.id) == []; }
      a + b;
    ==  { assert a + b == s; }
      s;
    }
  }

  /** Taking out the card with id `id` of a unique list takes out exactly one card:
      its id leaves the multiset of ids once. */
  lemma {:induction false} RemoveOneId(cs: seq<Card>, id: string)
    requires UniqueIds(cs) && id in Ids(cs)
    ensures |Without(cs, id)| + 1 == |cs|
    ensures multiset(Ids(Without(cs, id))) + multiset{id} == multiset(Ids(cs))
  {
    var p := FindIndex(cs, id);
    SplitAround(cs, p);
    var a, c, b := cs[..p], cs[p], cs[p + 1..];
    RemoveOne(a, c, b);
    InsertIds(a, c, b);
  }

  /** Taking out the card with id `id` of a unique list and inserting a card with that id
      anywhere keeps the length and the multiset of ids. */
  lemma {:induction false} ReinsertKeepsIds(cs: seq<Card>, id: string, k: nat, x: Card)
    requires UniqueIds(cs) && id in Ids(cs) && x.id == id
    requires k <= |Without(cs, id)|
    ensures var rest := Without(cs, id); var r := rest[..k] + [x] + rest[k..];
      |r| == |cs| && multiset(Ids(r)) == multiset(Ids(cs))
  {
    var rest := Without(cs, id);
    RemoveOneId(cs, id);
    assert multiset(Ids(rest[..k] + [x] + rest[k..])) == multiset(Ids(rest)) + multiset{id} by {
      InsertIds(rest[..k], x, rest[k..]);
      assert rest[..k] + rest[k..] == rest;
    }
  }

  /** In a list with unique ids, a card is determined by its id. */
  lemma {:induction false} SameIdSameCard(cs: seq<Card>, c: Card, d: Card)
    requires UniqueIds(cs) && c in cs && d in cs && c.id == d.id
    ensures c == d
  {
    var i :| 0 <= i < |cs| && cs[i] == c;
    var j :| 0 <= j < |cs| && cs[j] == d;
    assert i == j;
  }

  lemma {:induction false} DefaultCardsUnique()
    ensures UniqueIds(DefaultCards)
  {
  }
}
