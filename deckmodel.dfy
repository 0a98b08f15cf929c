/**
 * The deck models (Decks and SimpleDecks of decks.core, SimpleDecks of
 * core.decks, SimpleModel and CardModelImpl of cards): card creation, the
 * know / don't-know level moves, and the ready / pending / done views of the
 * store, all against a revision policy.  `now` stands for Instant.now(), the
 * store for the database's current cards, and a write is returned as the
 * request the model sends to the database.
 */
module DeckModel {
  import opened Outcomes
  import opened Clock
  import opened Cards
  import opened Schedule
  import opened Sorting
  import opened Store

  /** createCard of decks.core.Decks: a builder with both sides, the minimum level and the current instant. */
  function CreateCardAtMinLevel(p: Policy, front: Option<string>, back: Option<string>, now: Instant): (r: Result<Card>)
    ensures r.Ok? <==> front.Some? && back.Some? && p.MinLevel() != UnsetLevel
    ensures r.Ok? ==> r.value == Card(front.value, back.value, p.MinLevel(), now)
    ensures p.MinLevel() == UnsetLevel ==> r == Err(IllegalState(LevelNotSpecified))
    ensures p.MinLevel() != UnsetLevel && (front.None? || back.None?) ==> r == Err(NullPointer)
  {
    Validate(BuilderState(front, back, p.MinLevel(), Some(now)))
  }

  /** createCard of the other deck models: the same with level 0. */
  function CreateCard(front: Option<string>, back: Option<string>, now: Instant): (r: Result<Card>)
    ensures r.Ok? <==> front.Some? && back.Some?
    ensures r.Ok? ==> r.value == Card(front.value, back.value, 0, now)
    ensures r.Err? ==> r.error == NullPointer
  {
    Validate(BuilderState(front, back, 0, Some(now)))
  }

  /** Math.min(getMaxLevel(), level + 1) in int arithmetic. */
  function KnowLevel(p: Policy, level: Int32): Int32 {
    Min(p.MaxLevel(), Wrap(level + 1))
  }

  /** Math.max(getMinLevel(), level - 1) in int arithmetic. */
  function DontKnowLevel(p: Policy, level: Int32): Int32 {
    Max(p.MinLevel(), Wrap(level - 1))
  }

  /** Knowing a card moves it one level up, but never above the maximum level. */
  lemma KnowLevelSteps(p: Policy, level: Int32)
    requires level < IntMax
    ensures level < p.MaxLevel() ==> KnowLevel(p, level) == level + 1
    ensures level >= p.MaxLevel() ==> KnowLevel(p, level) == p.MaxLevel()
  {
  }

  /** Not knowing a card moves it one level down, but never below the minimum level. */
  lemma DontKnowLevelSteps(p: Policy, level: Int32)
    requires level > IntMin
    ensures level > p.MinLevel() ==> DontKnowLevel(p, level) == level - 1
    ensures level <= p.MinLevel() ==> DontKnowLevel(p, level) == p.MinLevel()
  {
  }

  /** A card whose level lies in [minimum, maximum] stays in that range after either answer. */
  lemma AnswersKeepLevelInRange(p: Policy, level: Int32)
    requires IntMin < level < IntMax
    requires p.MinLevel() <= level <= p.MaxLevel()
    ensures p.MinLevel() <= KnowLevel(p, level) <= p.MaxLevel()
    ensures p.MinLevel() <= DontKnowLevel(p, level) <= p.MaxLevel()
  {
  }

  /** At the largest int, level + 1 wraps around, so knowing the card sends it to the smallest int. */
  lemma KnowAtLargestIntWraps(p: Policy)
    ensures KnowLevel(p, IntMax) == IntMin
  {
  }

  /** setKnow: the card rebuilt with the raised level and the current instant, written with addOrUpdateEntry. */
  function SetKnow(p: Policy, c: Card, now: Instant): (r: Result<Request>)
    ensures r.Ok? <==> KnowLevel(p, c.level) != UnsetLevel
    ensures r.Ok? ==> r.value == Upsert(c.(level := KnowLevel(p, c.level), lastReview := now))
    ensures r.Err? ==> r.error == IllegalState(LevelNotSpecified)
  {
    var card :- Validate(BuilderOf(c).(level := KnowLevel(p, c.level), lastReview := Some(now)));
    Ok(Upsert(card))
  }

  /** setDontKnow: the same with the lowered level. */
  function SetDontKnow(p: Policy, c: Card, now: Instant): (r: Result<Request>)
    ensures r.Ok? <==> DontKnowLevel(p, c.level) != UnsetLevel
    ensures r.Ok? ==> r.value == Upsert(c.(level := DontKnowLevel(p, c.level), lastReview := now))
    ensures r.Err? ==> r.error == IllegalState(LevelNotSpecified)
  {
    var card :- Validate(BuilderOf(c).(level := DontKnowLevel(p, c.level), lastReview := Some(now)));
    Ok(Upsert(card))
  }

  /** addCard: write the card as it is. */
  function AddCard(c: Card): (r: Request)
    ensures r.Upsert? && r.card == c
  {
    Upsert(c)
  }

  /** deleteCard: delete the cards with the card's front side. */
  function DeleteCard(c: Card): (r: Request)
    ensures r.Delete? && r.card.front == c.front
  {
    Delete(c)
  }

  /**
   * After setKnow the store holds the answered card once, reviewed now at its
   * new level, and every card with another front side as before.
   */
  lemma SetKnowEffect(p: Policy, s: Deck, c: Card, now: Instant)
    requires UniqueFronts(s)
    requires SetKnow(p, c, now).Ok?
    ensures var after := Apply(s, SetKnow(p, c, now).value);
      UniqueFronts(after)
      && (forall x :: x in after && x.front == c.front ==> x == Card(c.front, c.back, KnowLevel(p, c.level), now))
      && Card(c.front, c.back, KnowLevel(p, c.level), now) in after
      && (forall x: Card :: x.front != c.front ==> (x in after <==> x in s))
  {
    UpsertKeepsFrontsUnique(s, SetKnow(p, c, now).value.card);
  }

  /** The filter stage of findReadyCards: isReady / shouldRemind. */
  function DueTest(p: Policy, now: Instant): Card -> bool {
    (c: Card) => p.IsReady(c, now) == Ok(true)
  }

  /** The sort key of both finders: the overtime, getTimeToNextRevision(card) / getOvertime(card). */
  function OvertimeKey(p: Policy, now: Instant): Card -> int {
    (c: Card) => match p.Overtime(c, now) case Ok(d) => d case Err(_) => 0
  }

  /** Every card's level has a configured delay, so no query about it throws. */
  predicate AllConfigured(p: Policy, s: Deck) {
    forall c :: c in s ==> HasLevel(p.levels, c.level)
  }

  /**
   * findReadyCards (keep == true) and findPendingCards (keep == false):
   * filter by readiness, sort by overtime from the largest down.  Readiness is
   * asked of every card, so one card with an unconfigured level fails the whole query.
   */
  function FindCards(p: Policy, s: Deck, now: Instant, keep: bool): (r: Result<Deck>)
    ensures r.Ok? <==> AllConfigured(p, s)
    ensures r.Err? ==> r.error == p.MissingDelay()
    ensures r.Ok? ==> forall c :: c in r.value <==> c in s && p.IsReady(c, now) == Ok(keep)
    ensures r.Ok? ==> multiset(r.value) <= multiset(s)
    ensures r.Ok? ==> SortedDescending(r.value, OvertimeKey(p, now))
  {
    if !AllConfigured(p, s) then Err(p.MissingDelay())
    else
      var sorted := SortDescending(Filter(s, DueTest(p, now), keep), OvertimeKey(p, now));
      SortedKeepsReadiness(p, s, now, keep);
      Ok(sorted)
  }

  /** For a configured card, passing the due test means being ready. */
  lemma DueTestMeansReady(p: Policy, now: Instant, c: Card, keep: bool)
    requires HasLevel(p.levels, c.level)
    ensures (DueTest(p, now)(c) == keep) <==> p.IsReady(c, now) == Ok(keep)
  {
    QueriesFailTogether(p, c, now);
  }

  /** Sorting the filtered cards keeps exactly the cards whose readiness is `keep`. */
  lemma SortedKeepsReadiness(p: Policy, s: Deck, now: Instant, keep: bool)
    requires AllConfigured(p, s)
    ensures var sorted := SortDescending(Filter(s, DueTest(p, now), keep), OvertimeKey(p, now));
      forall c :: c in sorted <==> c in s && p.IsReady(c, now) == Ok(keep)
  {
    var kept := Filter(s, DueTest(p, now), keep);
    var sorted := SortDescending(kept, OvertimeKey(p, now));
    forall c
      ensures c in sorted <==> c in s && p.IsReady(c, now) == Ok(keep)
    {
      assert c in sorted <==> c in multiset(sorted);
      assert c in kept <==> c in multiset(kept);
      if c in s {
        DueTestMeansReady(p, now, c, keep);
      }
    }
  }

  /** Every card of a fully configured slice of the store is either ready or pending, never both. */
  lemma ReadyOrPending(p: Policy, s: Deck, now: Instant)
    requires AllConfigured(p, s)
    ensures multiset(FindCards(p, s, now, true).value) + multiset(FindCards(p, s, now, false).value) == multiset(s)
  {
    FilterPartition(s, DueTest(p, now));
  }

  /** The ready list is ranked by overtime, and every ready card is at least 0 overdue. */
  lemma ReadyCardsAreOverdue(p: Policy, s: Deck, now: Instant, c: Card)
    requires AllConfigured(p, s)
    requires c in FindCards(p, s, now, true).value
    ensures OvertimeKey(p, now)(c) >= 0
  {
    ReadyIffOvertimeNonNegative(p, c, now);
  }

  /** The pending list holds only cards whose overtime is negative. */
  lemma PendingCardsAreEarly(p: Policy, s: Deck, now: Instant, c: Card)
    requires AllConfigured(p, s)
    requires c in FindCards(p, s, now, false).value
    ensures OvertimeKey(p, now)(c) < 0
  {
    ReadyIffOvertimeNonNegative(p, c, now);
  }

  /** The level bound of the ready and pending queries: getMaxLevel() - 1 in int arithmetic. */
  function BelowMax(p: Policy): Int32 {
    Wrap(p.MaxLevel() - 1)
  }

  /**
   * getReadyCards: the ready cards below the maximum level, most overdue
   * first; it fails when one of the queried cards has a level with no delay.
   */
  function GetReadyCards(p: Policy, store: Deck, now: Instant): (r: Result<Deck>)
    ensures r.Ok? <==> forall c :: c in store && c.level <= BelowMax(p) ==> HasLevel(p.levels, c.level)
    ensures r.Err? ==> r.error == p.MissingDelay()
    ensures r.Ok? ==> forall c :: c in r.value <==> c in store && c.level <= BelowMax(p) && p.IsReady(c, now) == Ok(true)
    ensures r.Ok? ==> SortedDescending(r.value, OvertimeKey(p, now)) && multiset(r.value) <= multiset(store)
  {
    FindCards(p, AtMost(store, BelowMax(p)), now, true)
  }

  /** getPendingCards: the cards below the maximum level that are not ready yet, in the same order. */
  function GetPendingCards(p: Policy, store: Deck, now: Instant): (r: Result<Deck>)
    ensures r.Ok? <==> forall c :: c in store && c.level <= BelowMax(p) ==> HasLevel(p.levels, c.level)
    ensures r.Err? ==> r.error == p.MissingDelay()
    ensures r.Ok? ==> forall c :: c in r.value <==> c in store && c.level <= BelowMax(p) && p.IsReady(c, now) == Ok(false)
    ensures r.Ok? ==> SortedDescending(r.value, OvertimeKey(p, now)) && multiset(r.value) <= multiset(store)
  {
    FindCards(p, AtMost(store, BelowMax(p)), now, false)
  }

  /** getDoneCards: the cards at or above the maximum level. */
  function GetDoneCards(p: Policy, store: Deck): (r: Deck)
    ensures forall c :: c in r <==> c in store && c.level >= p.MaxLevel()
  {
    AtLeast(store, p.MaxLevel())
  }

  /** Every card the ready and pending queries look at has a configured delay. */
  predicate QueriedConfigured(p: Policy, store: Deck) {
    forall c :: c in store && c.level <= BelowMax(p) ==> HasLevel(p.levels, c.level)
  }

  /**
   * With every queried level configured and the maximum above the smallest int,
   * the ready, pending and done views together hold each stored card exactly
   * once.  Done cards need no delay: the finders never look at them.
   */
  lemma ViewsPartitionStore(p: Policy, store: Deck, now: Instant)
    requires QueriedConfigured(p, store)
    requires p.MaxLevel() > IntMin
    ensures GetReadyCards(p, store, now).Ok? && GetPendingCards(p, store, now).Ok?
    ensures multiset(GetReadyCards(p, store, now).value) + multiset(GetPendingCards(p, store, now).value)
      + multiset(GetDoneCards(p, store)) == multiset(store)
  {
    ReadyAndPendingSplitBelowMax(p, store, now);
    BelowMaxAndDoneSplitStore(p, store);
  }

  /** Ready and pending together are the cards queried below the maximum, each once. */
  lemma ReadyAndPendingSplitBelowMax(p: Policy, store: Deck, now: Instant)
    requires QueriedConfigured(p, store)
    ensures GetReadyCards(p, store, now).Ok? && GetPendingCards(p, store, now).Ok?
    ensures multiset(GetReadyCards(p, store, now).value) + multiset(GetPendingCards(p, store, now).value)
      == multiset(AtMost(store, BelowMax(p)))
  {
    var below := AtMost(store, BelowMax(p));
    assert AllConfigured(p, below) by {
      forall c | c in below ensures HasLevel(p.levels, c.level) {
        assert c in store && c.level <= BelowMax(p);
      }
    }
    ReadyOrPending(p, below, now);
  }

  /**
   * Under RevisionManagerImpl the maximum lies one above the highest level,
   * so no done card has a delay, and a store holding one still has its
   * queried cards configured whenever those have configured levels.
   */
  lemma DoneCardsHaveNoDelay(p: Policy, store: Deck, c: Card)
    requires p.RevisionManager? && p.levels != [] && HighestLevel(p.levels) < IntMax
    requires c in GetDoneCards(p, store)
    ensures !HasLevel(p.levels, c.level)
  {
    LevelBounds(p);
  }

  /** The cards queried below the maximum and the done cards are the store, each card once. */
  lemma BelowMaxAndDoneSplitStore(p: Policy, store: Deck)
    requires p.MaxLevel() > IntMin
    ensures multiset(AtMost(store, BelowMax(p))) + multiset(GetDoneCards(p, store)) == multiset(store)
  {
    var max := p.MaxLevel();
    var below := BelowMax(p);
    assert below == max - 1;
    assert GetDoneCards(p, store) == AtLeast(store, max);
    LevelSplit(store, max);
  }

  /**
   * getNextCard of decks.core: the head of the ready list, or null when no
   * card is ready.  The head is the most overdue ready card.
   */
  function NextReadyCard(p: Policy, store: Deck, now: Instant): (r: Result<Option<Card>>)
    ensures r.Ok? <==> GetReadyCards(p, store, now).Ok?
    ensures r.Ok? ==> (r.value.None? <==> GetReadyCards(p, store, now).value == [])
    ensures r.Ok? && r.value.Some? ==>
      var c := r.value.value;
      c in store && c.level <= BelowMax(p) && p.IsReady(c, now) == Ok(true)
      && forall x :: x in GetReadyCards(p, store, now).value ==> OvertimeKey(p, now)(c) >= OvertimeKey(p, now)(x)
  {
    var ready :- GetReadyCards(p, store, now);
    if ready == [] then Ok(None)
    else
      assert ready[0] in ready;
      assert forall x :: x in ready ==> OvertimeKey(p, now)(ready[0]) >= OvertimeKey(p, now)(x) by {
        forall x | x in ready ensures OvertimeKey(p, now)(ready[0]) >= OvertimeKey(p, now)(x) {
          HeadIsLargest(ready, OvertimeKey(p, now), x);
        }
      }
      Ok(Some(ready[0]))
  }

  /**
   * getNextCard of core.decks, SimpleModel and CardModelImpl as written: the
   * head of the PENDING list, and an index error when nothing is pending.
   */
  function NextPendingCard(p: Policy, store: Deck, now: Instant): (r: Result<Card>)
    ensures r.Ok? <==> GetPendingCards(p, store, now).Ok? && GetPendingCards(p, store, now).value != []
    ensures GetPendingCards(p, store, now).Err? ==> r == Err(p.MissingDelay())
    ensures GetPendingCards(p, store, now).Ok? && GetPendingCards(p, store, now).value == [] ==> r == Err(IndexOutOfBounds(0, 0))
    ensures r.Ok? ==> r.value in store && r.value.level <= BelowMax(p) && p.IsReady(r.value, now) == Ok(false)
    ensures r.Ok? ==> forall x :: x in GetPendingCards(p, store, now).value ==> OvertimeKey(p, now)(r.value) >= OvertimeKey(p, now)(x)
  {
    var pending :- GetPendingCards(p, store, now);
    if pending == [] then Err(IndexOutOfBounds(0, 0))
    else
      assert pending[0] in pending;
      assert forall x :: x in pending ==> OvertimeKey(p, now)(pending[0]) >= OvertimeKey(p, now)(x) by {
        forall x | x in pending ensures OvertimeKey(p, now)(pending[0]) >= OvertimeKey(p, now)(x) {
          HeadIsLargest(pending, OvertimeKey(p, now), x);
        }
      }
      Ok(pending[0])
  }

  /**
   * The pending head is never a card due for review: with one card that is
   * due now and nothing else, the as-written getNextCard throws while the
   * ready-based one returns that card.
   */
  lemma NextPendingCardMissesDueCard()
    ensures var p := CardsReminder([Level(0, 10), Level(1, 20)]);
      var c := Card("nahen", "approach", 0, 0);
      NextPendingCard(p, [c], 10) == Err(IndexOutOfBounds(0, 0))
      && NextReadyCard(p, [c], 10) == Ok(Some(c))
  {
    var p := CardsReminder([Level(0, 10), Level(1, 20)]);
    var c := Card("nahen", "approach", 0, 0);
    assert p.MaxLevel() == 1;
    assert Lookup(p.levels, 0) == Some(10);
    assert p.IsReady(c, 10) == Ok(true);
    var below := AtMost([c], BelowMax(p));
    assert c in below;
    assert below == [c];
    var pend := Filter(below, DueTest(p, 10), false);
    assert pend == [];
    var ready := Filter(below, DueTest(p, 10), true);
    assert ready == [c];
    assert SortDescending(ready, OvertimeKey(p, 10)) == [c];
  }

  /** A pending head, when there is one, is strictly less overdue than any ready card. */
  lemma PendingHeadLessOverdue(p: Policy, store: Deck, now: Instant, x: Card)
    requires NextPendingCard(p, store, now).Ok?
    requires x in store && p.IsReady(x, now) == Ok(true)
    ensures OvertimeKey(p, now)(NextPendingCard(p, store, now).value) < OvertimeKey(p, now)(x)
  {
    var c := NextPendingCard(p, store, now).value;
    assert HasLevel(p.levels, c.level);
    ReadyIffOvertimeNonNegative(p, c, now);
    ReadyIffOvertimeNonNegative(p, x, now);
  }
}
