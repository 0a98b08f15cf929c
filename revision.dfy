/**
 * RevisionManagerImpl: the decks.core revision policy, holding a set of
 * revision levels that can be replaced wholesale.  Its queries are those of
 * Schedule.Policy.RevisionManager over the current set.
 */
module Revision {
  import opened Outcomes
  import opened Clock
  import opened Schedule

  class RevisionManagerImpl {
    /** The HashSet of levels, as the sequence of its distinct members in insertion order. */
    var levels: Table

    /** A set never holds two levels with the same number (equality is by level). */
    ghost predicate Valid()
      reads this
    {
      UniqueLevels(levels)
    }

    constructor (c: Table)
      ensures Valid()
      ensures levels == Dedup(c)
    {
      levels := [];
      new;
      SetRevisionLevels(c);
    }

    /**
     * setRevisionLevels: clear the set, then add each level in turn; adding a
     * level whose number is already present leaves the set as it was.
     */
    method SetRevisionLevels(c: Table)
      modifies this
      ensures Valid()
      ensures levels == Dedup(c)
    {
      levels := [];
      var i := 0;
      while i < |c|
        invariant 0 <= i <= |c|
        invariant levels == Dedup(c[..i])
        invariant UniqueLevels(levels)
      {
        assert c[..i + 1][..i] == c[..i];
        assert c[..i + 1][i] == c[i];
        if !HasLevel(levels, c[i].level) {
          levels := levels + [c[i]];
        }
        DedupLevels(c[..i + 1]);
        i := i + 1;
      }
      assert c[..i] == c;
    }

    /** The policy answering getMinLevel, getMaxLevel, getTimeToNextRevision, isReady, getNextRevision. */
    function AsPolicy(): (p: Policy)
      reads this
      ensures p.RevisionManager? && p.levels == levels
    {
      RevisionManager(levels)
    }
  }

  /**
   * A valid manager answers each level it holds with that level's own delay:
   * no other level in the set shares its number and could answer first.
   */
  lemma ValidManagerAnswersEachLevel(m: RevisionManagerImpl, i: int)
    requires m.Valid() && 0 <= i < |m.levels|
    ensures m.AsPolicy().Delay(m.levels[i].level) == Ok(m.levels[i].delay)
  {
    LookupUnique(m.levels, i);
  }

  /**
   * After setRevisionLevels(c) the manager answers every delay query as the
   * first level of c with that number, and fails exactly for numbers c lacks.
   */
  lemma ReplacedLevelsAnswerDelays(c: Table, l: Int32)
    ensures RevisionManager(Dedup(c)).Delay(l).Ok? <==> HasLevel(c, l)
    ensures Lookup(c, l).Some? ==> RevisionManager(Dedup(c)).Delay(l) == Ok(Lookup(c, l).value)
  {
    DedupLookup(c, l);
  }
}
