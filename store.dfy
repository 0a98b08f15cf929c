/**
 * The in-memory card store of the fake databases: a set of cards queried by
 * level range, where writing a card first removes every card with the same
 * front side.  The set's iteration order is unspecified; the model keeps the
 * cards in insertion order and states results up to membership and counts.
 */
module Store {
  import opened Clock
  import opened Cards
  import opened Sorting

  /** The cards a query returns or the store holds. */
  type Deck = seq<Card>

  /** getGreaterOrEqualLevel(level): the cards whose level is at least `level`. */
  function AtLeast(s: Deck, level: Int32): (r: Deck)
    ensures forall c :: c in r <==> c in s && c.level >= level
    ensures multiset(r) <= multiset(s)
  {
    Filter(s, (c: Card) => c.level >= level, true)
  }

  /** getLessOrEqualLevel(level): the cards whose level is at most `level`. */
  function AtMost(s: Deck, level: Int32): (r: Deck)
    ensures forall c :: c in r <==> c in s && c.level <= level
    ensures multiset(r) <= multiset(s)
  {
    Filter(s, (c: Card) => c.level <= level, true)
  }

  /** Below a level and at or above it: every card of the store is in exactly one of the two queries. */
  lemma {:induction false} LevelSplit(s: Deck, level: Int32)
    requires level > IntMin
    ensures multiset(AtMost(s, level - 1)) + multiset(AtLeast(s, level)) == multiset(s)
  {
    if s != [] {
      LevelSplit(s[1..], level);
      assert s == [s[0]] + s[1..];
    }
  }

  /** The test removeIf applies: the card has the given front side. */
  function FrontIs(front: string): Card -> bool {
    (c: Card) => c.front == front
  }

  /** deleteEntry: removeIf the front side equals the entry's. */
  function WithoutFront(s: Deck, front: string): (r: Deck)
    ensures forall c :: c in r <==> c in s && c.front != front
  {
    Filter(s, FrontIs(front), false)
  }

  /** Deleting takes out exactly the cards with that front side, and only them. */
  lemma DeleteRemovesOnlyMatches(s: Deck, front: string)
    ensures multiset(WithoutFront(s, front)) + multiset(Filter(s, FrontIs(front), true)) == multiset(s)
    ensures forall i :: 0 <= i < |WithoutFront(s, front)| ==> WithoutFront(s, front)[i].front != front
  {
    FilterPartition(s, FrontIs(front));
  }

  /** addOrUpdateEntry: delete the cards with the entry's front side, then add the entry. */
  function Upserted(s: Deck, c: Card): (r: Deck)
    ensures c in r
    ensures forall x :: x in r <==> x == c || (x in s && x.front != c.front)
  {
    WithoutFront(s, c.front) + [c]
  }

  /** No two cards share a front side. */
  ghost predicate UniqueFronts(s: Deck) {
    forall i, j :: 0 <= i < j < |s| ==> s[i].front != s[j].front
  }

  /** A card after the head of a store with distinct fronts has a front other than the head's. */
  lemma TailFrontsDiffer(s: Deck, x: Card)
    requires UniqueFronts(s) && s != [] && x in s[1..]
    ensures x.front != s[0].front
  {
    var k :| 0 <= k < |s[1..]| && s[1..][k] == x;
    assert s[k + 1] == x;
  }

  /** The tail of a store with distinct fronts has distinct fronts. */
  lemma TailUniqueFronts(s: Deck)
    requires UniqueFronts(s) && s != []
    ensures UniqueFronts(s[1..])
  {
    forall i, j | 0 <= i < j < |s[1..]| ensures s[1..][i].front != s[1..][j].front {
      assert s[1..][i] == s[i + 1] && s[1..][j] == s[j + 1];
    }
  }

  /** A filter never puts two elements out of their order, so distinct fronts stay distinct. */
  lemma {:induction false} FilterKeepsUniqueFronts(s: Deck, test: Card -> bool, keep: bool)
    requires UniqueFronts(s)
    ensures UniqueFronts(Filter(s, test, keep))
  {
    if s != [] {
      TailUniqueFronts(s);
      FilterKeepsUniqueFronts(s[1..], test, keep);
      var rest := Filter(s[1..], test, keep);
      if test(s[0]) == keep {
        var r := [s[0]] + rest;
        forall i, j | 0 <= i < j < |r| ensures r[i].front != r[j].front {
          assert r[j] == rest[j - 1];
          if i == 0 {
            assert rest[j - 1] in rest;
            TailFrontsDiffer(s, r[j]);
          } else {
            assert r[i] == rest[i - 1];
          }
        }
      }
    }
  }

  /** After an upsert the store holds exactly one card with the entry's front side: the entry. */
  lemma UpsertKeepsFrontsUnique(s: Deck, c: Card)
    requires UniqueFronts(s)
    ensures UniqueFronts(Upserted(s, c))
    ensures forall x :: x in Upserted(s, c) && x.front == c.front ==> x == c
  {
    var w := WithoutFront(s, c.front);
    FilterKeepsUniqueFronts(s, FrontIs(c.front), false);
    var r := w + [c];
    forall i, j | 0 <= i < j < |r| ensures r[i].front != r[j].front {
      if j == |w| {
        assert r[i] == w[i];
        assert w[i] in w;
      } else {
        assert r[i] == w[i] && r[j] == w[j];
      }
    }
  }

  /** Writing the same card twice leaves the store as writing it once. */
  lemma UpsertIdempotent(s: Deck, c: Card)
    ensures Upserted(Upserted(s, c), c) == Upserted(s, c)
  {
    var w := WithoutFront(s, c.front);
    var u := w + [c];
    FilterPartition(u, FrontIs(c.front));
    assert WithoutFront(u, c.front) == w by {
      assert forall i :: 0 <= i < |w| ==> w[i] in w;
      FilterWithoutLast(w, c);
    }
  }

  /** Removing a front side from cards that lack it, plus the entry with that front side, gives back the cards. */
  lemma {:induction false} FilterWithoutLast(w: Deck, c: Card)
    requires forall i :: 0 <= i < |w| ==> w[i].front != c.front
    ensures Filter(w + [c], FrontIs(c.front), false) == w
  {
    if w == [] {
      assert w + [c] == [c];
    } else {
      assert (w + [c])[1..] == w[1..] + [c];
      assert forall i :: 0 <= i < |w[1..]| ==> w[1..][i] == w[i + 1];
      FilterWithoutLast(w[1..], c);
      assert [w[0]] + w[1..] == w;
    }
  }

  /** The write requests the deck models send to the database. */
  datatype Request = Upsert(card: Card) | Delete(card: Card)

  /** The store after the database carries out a request. */
  function Apply(s: Deck, req: Request): (r: Deck)
    ensures req.Upsert? ==> forall x :: x in r <==> x == req.card || (x in s && x.front != req.card.front)
    ensures req.Delete? ==> forall x :: x in r <==> x in s && x.front != req.card.front
  {
    match req
    case Upsert(c) => Upserted(s, c)
    case Delete(c) => WithoutFront(s, c.front)
  }

  /** The fake databases of the two older packages. */
  class FakeDatabase {
    var cards: Deck

    /** At most one stored card per front side: addOrUpdateEntry deletes by key before adding. */
    ghost predicate Valid()
      reads this
    {
      UniqueFronts(cards)
    }

    constructor ()
      ensures Valid()
      ensures cards == []
    {
      cards := [];
    }

    /** getAllEntries: every stored card. */
    method GetAllEntries() returns (r: Deck)
      ensures multiset(r) == multiset(cards)
    {
      r := cards;
    }

    /** getGreaterOrEqualLevel: the stored cards at or above the level, each as often as stored. */
    method GetGreaterOrEqualLevel(level: Int32) returns (r: Deck)
      ensures forall c :: c in r <==> c in cards && c.level >= level
      ensures multiset(r) <= multiset(cards)
    {
      r := AtLeast(cards, level);
    }

    /** getLessOrEqualLevel: the stored cards at or below the level, each as often as stored. */
    method GetLessOrEqualLevel(level: Int32) returns (r: Deck)
      ensures forall c :: c in r <==> c in cards && c.level <= level
      ensures multiset(r) <= multiset(cards)
    {
      r := AtMost(cards, level);
    }

    /** deleteEntry: every card with the entry's front side is removed, the others stay. */
    method DeleteEntry(entry: Card)
      requires Valid()
      modifies this
      ensures Valid()
      ensures cards == WithoutFront(old(cards), entry.front)
    {
      FilterKeepsUniqueFronts(cards, FrontIs(entry.front), false);
      cards := WithoutFront(cards, entry.front);
    }

    /** addOrUpdateEntry: deleteEntry, then add the entry. */
    method AddOrUpdateEntry(entry: Card)
      requires Valid()
      modifies this
      ensures Valid()
      ensures cards == Upserted(old(cards), entry)
      ensures entry in cards
    {
      DeleteEntry(entry);
      cards := cards + [entry];
      UpsertKeepsFrontsUnique(old(cards), entry);
    }
  }
}
