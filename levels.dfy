/**
 * Building the level table from configuration entries, and the mutable
 * level object the tables are made of.  The entries are given after JSON
 * parsing: each is a delay and the list of levels it applies to.
 */
module LevelConfig {
  import opened Outcomes
  import opened Clock
  import opened Schedule

  /** RevisionConfigEntry / ReminderLevelEntry after parsing: one delay for several levels. */
  datatype LevelGroup = LevelGroup(delay: Duration, levels: seq<Int32>)

  /** The levels of one entry, each paired with the entry's delay, in list order. */
  function Expand(g: LevelGroup): (r: Table)
    ensures |r| == |g.levels|
    ensures forall j :: 0 <= j < |r| ==> r[j] == Level(g.levels[j], g.delay)
  {
    seq(|g.levels|, j requires 0 <= j < |g.levels| => Level(g.levels[j], g.delay))
  }

  /** Every (entry, level) pair in processing order: entry by entry, then level by level. */
  function Pairs(groups: seq<LevelGroup>): Table {
    if groups == [] then []
    else Pairs(groups[..|groups| - 1]) + Expand(groups[|groups| - 1])
  }

  /** The total number of levels listed in the entries. */
  function ListedCount(groups: seq<LevelGroup>): nat {
    if groups == [] then 0
    else ListedCount(groups[..|groups| - 1]) + |groups[|groups| - 1].levels|
  }

  /** Index k is where processing stops: the entries before it are distinct and it repeats one of them. */
  ghost predicate FirstRepeat(t: Table, k: int) {
    0 <= k < |t| && UniqueLevels(t[..k]) && HasLevel(t[..k], t[k].level)
  }

  lemma {:induction false} PairsLength(groups: seq<LevelGroup>)
    ensures |Pairs(groups)| == ListedCount(groups)
  {
    if groups != [] {
      PairsLength(groups[..|groups| - 1]);
    }
  }

  lemma {:induction false} PairsPrefix(groups: seq<LevelGroup>, m: int)
    requires 0 <= m <= |groups|
    ensures Pairs(groups[..m]) <= Pairs(groups)
  {
    if m < |groups| {
      var init := groups[..|groups| - 1];
      assert init[..m] == groups[..m];
      PairsPrefix(init, m);
    } else {
      assert groups[..m] == groups;
    }
  }

  /** Every listed level appears in the pairs with its entry's delay. */
  lemma {:induction false} PairsContain(groups: seq<LevelGroup>, i: int, j: int)
    requires 0 <= i < |groups| && 0 <= j < |groups[i].levels|
    ensures Level(groups[i].levels[j], groups[i].delay) in Pairs(groups)
  {
    var init := groups[..|groups| - 1];
    if i == |groups| - 1 {
      assert Expand(groups[i])[j] == Level(groups[i].levels[j], groups[i].delay);
    } else {
      assert init[i] == groups[i];
      PairsContain(init, i, j);
    }
  }

  /** A repeat at index k means the whole sequence of pairs repeats a level. */
  lemma RepeatBreaksUniqueness(t: Table, k: int)
    requires FirstRepeat(t, k)
    ensures !UniqueLevels(t)
  {
    var i :| 0 <= i < k && t[..k][i].level == t[k].level;
    assert t[i].level == t[k].level;
  }

  /** The pair after those of the first i entries and j levels of entry i is the next one of all pairs. */
  lemma NextPair(groups: seq<LevelGroup>, i: int, j: int, levels: Table)
    requires 0 <= i < |groups| && 0 <= j < |groups[i].levels|
    requires levels == Pairs(groups[..i]) + Expand(groups[i])[..j]
    ensures |levels| < |Pairs(groups)|
    ensures Pairs(groups)[..|levels|] == levels
    ensures Pairs(groups)[|levels|] == Level(groups[i].levels[j], groups[i].delay)
    ensures levels + [Level(groups[i].levels[j], groups[i].delay)]
      == Pairs(groups[..i]) + Expand(groups[i])[..j + 1]
  {
    var g := groups[i];
    var upTo := Pairs(groups[..i + 1]);
    assert groups[..i + 1][..i] == groups[..i];
    assert upTo == Pairs(groups[..i]) + Expand(g);
    PairsPrefix(groups, i + 1);
    var k := |levels|;
    assert k == |Pairs(groups[..i])| + j;
    assert upTo[k] == Expand(g)[j];
    assert upTo[..k] == levels;
    assert Expand(g)[..j + 1] == Expand(g)[..j] + [Expand(g)[j]];
  }

  /** Once every level of entry i is collected, the pairs of the first i + 1 entries are. */
  lemma NextGroup(groups: seq<LevelGroup>, i: int, levels: Table)
    requires 0 <= i < |groups|
    requires levels == Pairs(groups[..i]) + Expand(groups[i])[..|groups[i].levels|]
    ensures levels == Pairs(groups[..i + 1])
  {
    assert groups[..i + 1][..i] == groups[..i];
    assert Expand(groups[i])[..|groups[i].levels|] == Expand(groups[i]);
  }

  /** Appending a level number not yet present keeps the level numbers distinct. */
  lemma AppendKeepsUnique(t: Table, x: Level)
    requires UniqueLevels(t) && !HasLevel(t, x.level)
    ensures UniqueLevels(t + [x])
  {
    var u := t + [x];
    forall i, j | 0 <= i < j < |u| ensures u[i].level != u[j].level {
      if j == |t| {
        assert u[i] == t[i];
      } else {
        assert u[i] == t[i] && u[j] == t[j];
      }
    }
  }

  /**
   * The nested loops of the configuration constructors: each (entry, level)
   * pair is added in turn unless a level with that number is already present,
   * in which case the constructor throws, naming that level.
   */
  method CollectLevels(groups: seq<LevelGroup>) returns (levels: Table, repeated: Option<Int32>)
    ensures repeated.None? <==> UniqueLevels(Pairs(groups))
    ensures repeated.None? ==> levels == Pairs(groups)
    ensures repeated.Some? ==>
      FirstRepeat(Pairs(groups), |levels|) && levels == Pairs(groups)[..|levels|]
      && repeated.value == Pairs(groups)[|levels|].level
  {
    levels := [];
    var i := 0;
    while i < |groups|
      invariant 0 <= i <= |groups|
      invariant levels == Pairs(groups[..i])
      invariant UniqueLevels(levels)
    {
      var g := groups[i];
      var j := 0;
      while j < |g.levels|
        invariant 0 <= j <= |g.levels|
        invariant levels == Pairs(groups[..i]) + Expand(g)[..j]
        invariant UniqueLevels(levels)
      {
        var newLevel := Level(g.levels[j], g.delay);
        NextPair(groups, i, j, levels);
        if HasLevel(levels, newLevel.level) {
          RepeatBreaksUniqueness(Pairs(groups), |levels|);
          repeated := Some(newLevel.level);
          return;
        }
        AppendKeepsUnique(levels, newLevel);
        levels := levels + [newLevel];
        j := j + 1;
      }
      NextGroup(groups, i, levels);
      i := i + 1;
    }
    assert groups[..i] == groups;
    repeated := None;
  }

  /** With distinct levels, each listed level is looked up to its own entry's delay. */
  lemma LookupListed(groups: seq<LevelGroup>, i: int, j: int)
    requires UniqueLevels(Pairs(groups))
    requires 0 <= i < |groups| && 0 <= j < |groups[i].levels|
    ensures Lookup(Pairs(groups), groups[i].levels[j]) == Some(groups[i].delay)
  {
    PairsContain(groups, i, j);
    var t := Pairs(groups);
    var k :| 0 <= k < |t| && t[k] == Level(groups[i].levels[j], groups[i].delay);
    LookupUnique(t, k);
  }

  /**
   * RevisionLevels(InputStream): the configured levels, or IdenticalLevelsException
   * naming the first level number met twice.
   */
  method RevisionLevelsFromConfig(entries: seq<LevelGroup>) returns (r: Result<Table>)
    ensures r.Ok? <==> UniqueLevels(Pairs(entries))
    ensures r.Ok? ==> r.value == Pairs(entries) && |r.value| == ListedCount(entries)
    ensures r.Err? ==> exists k :: FirstRepeat(Pairs(entries), k) && r.error == IdenticalLevels(Pairs(entries)[k].level)
  {
    var levels, repeated := CollectLevels(entries);
    if repeated.Some? {
      return Err(IdenticalLevels(repeated.value));
    }
    PairsLength(entries);
    r := Ok(levels);
  }

  /** RevisionLevels(Collection): a HashSet built from the collection. */
  function RevisionLevelsFromCollection(c: Table): (r: Table)
    ensures UniqueLevels(r)
    ensures forall l :: HasLevel(r, l) <==> HasLevel(c, l)
    ensures forall l :: Lookup(r, l) == Lookup(c, l)
  {
    DedupLevels(c);
    forall l { DedupLookup(c, l); }
    Dedup(c)
  }

  const DuplicateReminderLevels: string := "Found two reminder level entries with the same levels"

  /** The entry of the oldest Reminder: an amount of a time unit (the unit given as its duration). */
  datatype ReminderEntry = ReminderEntry(amount: Int32, unit: Duration, levels: seq<Int32>)

  /** ChronoUnit.getDuration().multipliedBy(amount) for each entry. */
  function UnitGroups(entries: seq<ReminderEntry>): (r: seq<LevelGroup>)
    ensures |r| == |entries|
    ensures forall i :: 0 <= i < |r| ==> r[i] == LevelGroup(entries[i].unit * entries[i].amount, entries[i].levels)
  {
    seq(|entries|, i requires 0 <= i < |entries| => LevelGroup(entries[i].unit * entries[i].amount, entries[i].levels))
  }

  /** coden.cards.reminder.Reminder(InputStream): repeated level numbers throw IOException. */
  method CardsReminderFromEntries(entries: seq<ReminderEntry>) returns (r: Result<Policy>)
    ensures r.Ok? <==> UniqueLevels(Pairs(UnitGroups(entries)))
    ensures r.Ok? ==> r.value == CardsReminder(Pairs(UnitGroups(entries)))
    ensures r.Err? ==> r.error == IO(DuplicateReminderLevels)
  {
    var levels, repeated := CollectLevels(UnitGroups(entries));
    if repeated.Some? {
      return Err(IO(DuplicateReminderLevels));
    }
    r := Ok(CardsReminder(levels));
  }

  /** Each level listed in a unit entry is due after that entry's unit times its amount. */
  lemma CardsReminderDelay(entries: seq<ReminderEntry>, i: int, j: int)
    requires UniqueLevels(Pairs(UnitGroups(entries)))
    requires 0 <= i < |entries| && 0 <= j < |entries[i].levels|
    ensures CardsReminder(Pairs(UnitGroups(entries))).Delay(entries[i].levels[j]) == Ok(entries[i].unit * entries[i].amount)
  {
    LookupListed(UnitGroups(entries), i, j);
  }

  /** coden.core.decks.reminder.Reminder(InputStream): the same, with delays already parsed. */
  method CoreReminderFromEntries(entries: seq<LevelGroup>) returns (r: Result<Policy>)
    ensures r.Ok? <==> UniqueLevels(Pairs(entries))
    ensures r.Ok? ==> r.value == CoreReminder(Pairs(entries))
    ensures r.Err? ==> r.error == IO(DuplicateReminderLevels)
  {
    var levels, repeated := CollectLevels(entries);
    if repeated.Some? {
      return Err(IO(DuplicateReminderLevels));
    }
    r := Ok(CoreReminder(levels));
  }

  /**
   * RevisionLevel (and its twin ReminderLevel): a level number and a delay,
   * both settable, equal to another exactly when the level numbers agree.
   */
  class RevisionLevel {
    var level: Int32
    var delay: Duration

    constructor (level: Int32, delay: Duration)
      ensures this.level == level && this.delay == delay
    {
      this.level := level;
      this.delay := delay;
    }

    method SetLevel(l: Int32)
      modifies this
      ensures level == l && delay == old(delay)
    {
      level := l;
    }

    method SetDelay(d: Duration)
      modifies this
      ensures delay == d && level == old(level)
    {
      delay := d;
    }

    /** The value the object stands for in a level table. */
    function Value(): Level
      reads this
    {
      Level(level, delay)
    }

    /** equals: the same object, or another level object with the same number whatever the delays. */
    predicate Equals(o: object?)
      reads this, o
    {
      this == o || (o is RevisionLevel && level == (o as RevisionLevel).level)
    }

    /** hashCode: Objects.hash(level), that is 31 + level in int arithmetic. */
    function HashCode(): Int32
      reads this
    {
      Wrap(31 + level)
    }
  }

  /** Equality is by level number only: reflexive, blind to the delay, false for null. */
  lemma EqualsIffSameLevel(a: RevisionLevel, b: RevisionLevel)
    ensures a.Equals(b) <==> a.level == b.level
    ensures a.Equals(a)
    ensures !a.Equals(null)
  {
  }

  /** An object of any other class is never equal to a level. */
  lemma NotEqualToOtherTypes(a: RevisionLevel, o: object)
    requires !(o is RevisionLevel)
    ensures !a.Equals(o)
  {
  }

  /** Equal objects have equal hash codes, and the hash code distinguishes level numbers. */
  lemma HashCodeConsistent(a: RevisionLevel, b: RevisionLevel)
    ensures a.Equals(b) ==> a.HashCode() == b.HashCode()
    ensures a.HashCode() == b.HashCode() ==> a.Equals(b)
  {
    if a.HashCode() == b.HashCode() {
      WrapInjectiveOnShift(a.level, b.level);
    }
  }

  lemma WrapInjectiveOnShift(x: Int32, y: Int32)
    requires Wrap(31 + x) == Wrap(31 + y)
    ensures x == y
  {
    assert ((31 + x) - (31 + y)) % 0x1_0000_0000 == 0;
  }
}
