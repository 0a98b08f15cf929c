/**
 * The revision policy: a table from level to the delay before the next review,
 * and what it says about a card at a given instant.  The three generations of
 * the policy (RevisionManagerImpl, and the Reminder classes of the two older
 * packages) look the delay up the same way and differ in their maximum level
 * and in the exception for an unconfigured level; `Policy` names the three.
 */
module Schedule {
  import opened Outcomes
  import opened Clock
  import opened Cards

  /** One configured level and the delay after a review at that level. */
  datatype Level = Level(level: Int32, delay: Duration)

  /** The configured levels, in the order the collection holds them. */
  type Table = seq<Level>

  predicate HasLevel(t: Table, l: Int32) {
    exists i :: 0 <= i < |t| && t[i].level == l
  }

  /** No level number occurs twice (the sets compare levels by number only). */
  ghost predicate UniqueLevels(t: Table) {
    forall i, j :: 0 <= i < j < |t| ==> t[i].level != t[j].level
  }

  /** The delay of the first entry with the given level number, if any. */
  function Lookup(t: Table, l: Int32): (r: Option<Duration>)
    ensures r.Some? <==> HasLevel(t, l)
    ensures r.Some? ==> Level(l, r.value) in t
  {
    if t == [] then None
    else if t[0].level == l then Some(t[0].delay)
    else
      var r := Lookup(t[1..], l);
      assert HasLevel(t, l) <==> HasLevel(t[1..], l) by {
        if HasLevel(t, l) {
          var i :| 0 <= i < |t| && t[i].level == l;
          assert t[1..][i - 1] == t[i];
        }
        if HasLevel(t[1..], l) {
          var i :| 0 <= i < |t[1..]| && t[1..][i].level == l;
          assert t[i + 1] == t[1..][i];
        }
      }
      r
  }

  /** When level numbers are unique, the lookup finds the one entry with that number. */
  lemma {:induction false} LookupUnique(t: Table, i: int)
    requires UniqueLevels(t) && 0 <= i < |t|
    ensures Lookup(t, t[i].level) == Some(t[i].delay)
  {
    if i > 0 {
      assert t[0].level != t[i].level;
      assert t[1..][i - 1] == t[i];
      LookupUnique(t[1..], i - 1);
    }
  }

  /** The smallest configured level, or 0 when there is none. */
  function LowestLevel(t: Table): (r: Int32)
    ensures t == [] ==> r == 0
    ensures t != [] ==> HasLevel(t, r)
    ensures forall i :: 0 <= i < |t| ==> r <= t[i].level
  {
    if t == [] then 0
    else if |t| == 1 then t[0].level
    else
      var rest := LowestLevel(t[1..]);
      assert forall i :: 1 <= i < |t| ==> t[i] == t[1..][i - 1];
      if t[0].level <= rest then t[0].level else rest
  }

  /** The largest configured level, or 0 when there is none. */
  function HighestLevel(t: Table): (r: Int32)
    ensures t == [] ==> r == 0
    ensures t != [] ==> HasLevel(t, r)
    ensures forall i :: 0 <= i < |t| ==> t[i].level <= r
  {
    if t == [] then 0
    else if |t| == 1 then t[0].level
    else
      var rest := HighestLevel(t[1..]);
      assert forall i :: 1 <= i < |t| ==> t[i] == t[1..][i - 1];
      if t[0].level >= rest then t[0].level else rest
  }

  /**
   * The table a HashSet of levels holds after `addAll(c)` on an empty set:
   * an element whose level number is already present is not added.
   */
  function Dedup(c: Table): Table {
    if c == [] then []
    else
      var d := Dedup(c[..|c| - 1]);
      if HasLevel(d, c[|c| - 1].level) then d else d + [c[|c| - 1]]
  }

  /** Dedup keeps every level number of the collection, adds none, and repeats none. */
  lemma {:induction false} DedupLevels(c: Table)
    ensures UniqueLevels(Dedup(c))
    ensures forall l :: HasLevel(Dedup(c), l) <==> HasLevel(c, l)
  {
    if c != [] {
      var init, last := c[..|c| - 1], c[|c| - 1];
      DedupLevels(init);
      assert c == init + [last];
      var d := Dedup(init);
      forall l
        ensures HasLevel(c, l) <==> HasLevel(init, l) || last.level == l
      {
        if HasLevel(c, l) {
          var i :| 0 <= i < |c| && c[i].level == l;
          if i < |init| { assert init[i] == c[i]; }
        }
        if HasLevel(init, l) {
          var i :| 0 <= i < |init| && init[i].level == l;
          assert c[i] == init[i];
        }
      }
      if !HasLevel(d, last.level) {
        var e := d + [last];
        forall l
          ensures HasLevel(e, l) <==> HasLevel(d, l) || last.level == l
        {
          if HasLevel(d, l) {
            var i :| 0 <= i < |d| && d[i].level == l;
            assert e[i] == d[i];
          }
          assert e[|d|] == last;
        }
      }
    }
  }

  /** Dedup keeps the first entry for each level number, so every lookup is unchanged. */
  lemma {:induction false} DedupLookup(c: Table, l: Int32)
    ensures Lookup(Dedup(c), l) == Lookup(c, l)
  {
    if c != [] {
      var init, last := c[..|c| - 1], c[|c| - 1];
      DedupLookup(init, l);
      assert c == init + [last];
      LookupAppend(init, [last], l);
      var d := Dedup(init);
      if !HasLevel(d, last.level) {
        LookupAppend(d, [last], l);
        DedupLevels(init);
      }
    }
  }

  /** Looking up in a concatenation searches the first part before the second. */
  lemma {:induction false} LookupAppend(a: Table, b: Table, l: Int32)
    ensures Lookup(a + b, l) == if Lookup(a, l).Some? then Lookup(a, l) else Lookup(b, l)
  {
    if a == [] {
      assert a + b == b;
    } else {
      assert (a + b)[1..] == a[1..] + b;
      LookupAppend(a[1..], b, l);
    }
  }

  /** The revision policy a deck model consults, by implementing class. */
  datatype Policy =
    | RevisionManager(levels: Table)
    | CoreReminder(levels: Table)
    | CardsReminder(levels: Table)
  {
    /** getMinLevel: the smallest configured level, or 0. */
    function MinLevel(): Int32 {
      LowestLevel(levels)
    }

    /**
     * getMaxLevel: RevisionManagerImpl answers the largest level plus one (in
     * int arithmetic), the Reminder classes the largest level itself; all
     * answer 0 when no level is configured.
     */
    function MaxLevel(): Int32 {
      if RevisionManager? && levels != [] then Wrap(HighestLevel(levels) + 1)
      else HighestLevel(levels)
    }

    /** The exception for a level with no configured delay. */
    function MissingDelay(): Error {
      if CardsReminder? then NoSuchElement("No value present")
      else Runtime("Unable to get next reminder delay")
    }

    /** getTimeToNextRevision(level) / getNextReminderDelay(level). */
    function Delay(level: Int32): (r: Result<Duration>)
      ensures r.Ok? <==> HasLevel(levels, level)
      ensures r.Ok? ==> Level(level, r.value) in levels
      ensures r.Err? ==> r.error == MissingDelay()
    {
      match Lookup(levels, level)
      case Some(d) => Ok(d)
      case None => Err(MissingDelay())
    }

    /** getNextRevision(card): the last review plus the delay of the card's level. */
    function NextRevision(c: Card): Result<Instant> {
      var d :- Delay(c.level);
      Ok(c.lastReview + d)
    }

    /** isReady(card) / shouldRemind(card): the next revision is not after now. */
    function IsReady(c: Card, now: Instant): Result<bool> {
      var next :- NextRevision(c);
      Ok(now >= next)
    }

    /** getTimeToNextRevision(card) / getOvertime(card): Duration.between(next revision, now). */
    function Overtime(c: Card, now: Instant): Result<Duration> {
      var next :- NextRevision(c);
      Ok(now - next)
    }
  }

  /** Every query about a card succeeds exactly when its level is configured. */
  lemma QueriesFailTogether(p: Policy, c: Card, now: Instant)
    ensures p.IsReady(c, now).Ok? <==> HasLevel(p.levels, c.level)
    ensures p.Overtime(c, now).Ok? <==> HasLevel(p.levels, c.level)
    ensures p.NextRevision(c).Ok? <==> HasLevel(p.levels, c.level)
  {
  }

  /** A card is ready exactly when its overtime is not negative. */
  lemma ReadyIffOvertimeNonNegative(p: Policy, c: Card, now: Instant)
    requires HasLevel(p.levels, c.level)
    ensures p.IsReady(c, now).value <==> p.Overtime(c, now).value >= 0
  {
  }

  /** A card becomes ready at its due instant, not one nanosecond earlier, and stays ready. */
  lemma ReadyFromDueInstant(p: Policy, c: Card, now: Instant)
    requires HasLevel(p.levels, c.level)
    ensures p.IsReady(c, p.NextRevision(c).value) == Ok(true)
    ensures p.IsReady(c, p.NextRevision(c).value - 1) == Ok(false)
    ensures p.IsReady(c, now) == Ok(now >= c.lastReview + p.Delay(c.level).value)
  {
  }

  /** Readiness is monotone in time. */
  lemma ReadyMonotone(p: Policy, c: Card, now: Instant, later: Instant)
    requires now <= later && p.IsReady(c, now) == Ok(true)
    ensures p.IsReady(c, later) == Ok(true)
  {
  }

  /** The smallest level is at most the largest, and RevisionManagerImpl's maximum lies above every level. */
  lemma LevelBounds(p: Policy)
    requires p.levels != []
    ensures p.MinLevel() <= HighestLevel(p.levels)
    ensures p.RevisionManager? && HighestLevel(p.levels) < IntMax ==>
      p.MaxLevel() == HighestLevel(p.levels) + 1 && forall i :: 0 <= i < |p.levels| ==> p.levels[i].level < p.MaxLevel()
    ensures p.RevisionManager? && HighestLevel(p.levels) == IntMax ==> p.MaxLevel() == IntMin
    ensures !p.RevisionManager? ==> HasLevel(p.levels, p.MaxLevel())
  {
    assert p.levels[0].level >= LowestLevel(p.levels);
  }

  /**
   * CardFilter.test and ReadyCardFilter.test: the two filter classes compute
   * the due test inline from the Reminder's delay lookup; it agrees with shouldRemind.
   */
  function ReadyFilterTest(levels: Table, c: Card, now: Instant): (r: Result<bool>)
    ensures r == CardsReminder(levels).IsReady(c, now)
  {
    match Lookup(levels, c.level)
    case None => Err(NoSuchElement("No value present"))
    case Some(delay) =>
      var nextRemind := c.lastReview + delay;
      Ok(!(now < nextRemind))
  }
}
