/**
 * CachedCardModel: a CardModelImpl that serves getNextCard from a queue of
 * ready cards, refilled on a background executor.  The executor is modelled
 * by a count of refills submitted and not yet run; running one is a separate
 * step whose inputs are the policy, the store and the instant it runs at.
 */
module Cache {
  import opened Outcomes
  import opened Clock
  import opened Cards
  import opened Schedule
  import opened Store
  import opened Sorting
  import opened DeckModel

  /** MIN_SIZE: below this many cached cards a refill is submitted. */
  const MinSize: nat := 2

  class CachedCardModel {
    /** The Deque of cards to serve, head first. */
    var cache: Deck
    /** Refill tasks submitted to the single-thread executor and not yet run. */
    var queuedRefills: nat

    /**
     * The cache holds ready stored cards below the maximum level, most
     * overdue first, as the last successful refill left it.
     */
    ghost predicate ServesReady(p: Policy, store: Deck, now: Instant)
      reads this
    {
      ReadyInOrder(p, store, now, cache)
    }

    /** The constructor submits one refill; the cache starts empty. */
    constructor ()
      ensures cache == [] && queuedRefills == 1
    {
      cache := [];
      queuedRefills := 1;
    }

    /**
     * getNextCard: pop the head, or null when the cache is empty; either way,
     * a refill is submitted when fewer than MIN_SIZE cards remain.
     */
    method GetNextCard() returns (r: Option<Card>)
      modifies this
      ensures old(cache) == [] ==> r == None && cache == []
      ensures old(cache) != [] ==> r == Some(old(cache)[0]) && cache == old(cache)[1..]
      ensures queuedRefills == old(queuedRefills) + (if |cache| < MinSize then 1 else 0)
      ensures forall p, store, now :: old(ServesReady(p, store, now)) ==> ServesReady(p, store, now)
    {
      if cache == [] {
        r := None;
      } else {
        r := Some(cache[0]);
        cache := cache[1..];
        forall p, store, now | ReadyInOrder(p, store, now, old(cache)) ensures ReadyInOrder(p, store, now, cache) {
          PopKeepsReadyInOrder(p, store, now, old(cache));
        }
      }
      if |cache| < MinSize {
        queuedRefills := queuedRefills + 1;
      }
    }

    /**
     * tryFetchAndUpdateCache: replace the cache by getReadyCards; when that
     * throws, the exception is swallowed and the cache is left as it was.
     */
    method FetchAndUpdateCache(p: Policy, store: Deck, now: Instant)
      modifies this
      ensures queuedRefills == old(queuedRefills)
      ensures GetReadyCards(p, store, now).Ok? ==> cache == GetReadyCards(p, store, now).value
      ensures GetReadyCards(p, store, now).Err? ==> cache == old(cache)
      ensures GetReadyCards(p, store, now).Ok? ==>
        (cache == [] <==> NextReadyCard(p, store, now) == Ok(None))
        && (cache != [] ==> NextReadyCard(p, store, now) == Ok(Some(cache[0])))
      ensures GetReadyCards(p, store, now).Ok? ==> ServesReady(p, store, now)
    {
      var ready := GetReadyCards(p, store, now);
      if ready.Ok? {
        cache := ready.value;
      }
    }

    /** The executor runs one submitted refill. */
    method RunQueuedRefill(p: Policy, store: Deck, now: Instant)
      requires queuedRefills > 0
      modifies this
      ensures queuedRefills == old(queuedRefills) - 1
      ensures GetReadyCards(p, store, now).Ok? ==> cache == GetReadyCards(p, store, now).value
      ensures GetReadyCards(p, store, now).Err? ==> cache == old(cache)
      ensures GetReadyCards(p, store, now).Ok? ==> ServesReady(p, store, now)
    {
      FetchAndUpdateCache(p, store, now);
      queuedRefills := queuedRefills - 1;
    }
  }

  /** Ready stored cards below the maximum level, most overdue first. */
  ghost predicate ReadyInOrder(p: Policy, store: Deck, now: Instant, d: Deck) {
    (forall c :: c in d ==> c in store && c.level <= BelowMax(p) && p.IsReady(c, now) == Ok(true))
    && SortedDescending(d, OvertimeKey(p, now))
  }

  /** Serving the head leaves the rest ready and in order. */
  lemma PopKeepsReadyInOrder(p: Policy, store: Deck, now: Instant, d: Deck)
    requires ReadyInOrder(p, store, now, d) && d != []
    ensures ReadyInOrder(p, store, now, d[1..])
  {
    var rest := d[1..];
    forall c | c in rest ensures c in d {
      var k :| 0 <= k < |rest| && rest[k] == c;
      assert d[k + 1] == c;
    }
    TailStaysSorted(d, OvertimeKey(p, now));
  }

  /**
   * A cached model whose cache a refill has filled serves next a ready stored
   * card below the maximum level that is at least as overdue as every card
   * still cached.
   */
  lemma ServedCardIsMostOverdue(m: CachedCardModel, p: Policy, store: Deck, now: Instant)
    requires m.ServesReady(p, store, now) && m.cache != []
    ensures m.cache[0] in store && m.cache[0].level <= BelowMax(p) && p.IsReady(m.cache[0], now) == Ok(true)
    ensures forall x :: x in m.cache ==> OvertimeKey(p, now)(m.cache[0]) >= OvertimeKey(p, now)(x)
  {
    forall x | x in m.cache ensures OvertimeKey(p, now)(m.cache[0]) >= OvertimeKey(p, now)(x) {
      HeadIsLargest(m.cache, OvertimeKey(p, now), x);
    }
  }
}
