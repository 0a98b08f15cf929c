/**
 * The card value and its builder.  The three generations of the card class
 * (SimpleCard in two packages and CardEntry) differ only in the names of the
 * two sides and in toString; they share this model.
 */
module Cards {
  import opened Outcomes
  import opened Clock

  /** An immutable card: two sides, a memorisation level and the instant of its last review. */
  datatype Card = Card(front: string, back: string, level: Int32, lastReview: Instant)

  /** The builder's initial level, meaning "no level specified". */
  const UnsetLevel: Int32 := -1

  const LevelNotSpecified: string := "Level has to be specified"

  /** The fields of a builder; a missing side or review instant is a null reference. */
  datatype BuilderState = BuilderState(
    front: Option<string>, back: Option<string>, level: Int32, lastReview: Option<Instant>)

  /** The state of a freshly constructed builder. */
  const EmptyBuilder: BuilderState := BuilderState(None, None, UnsetLevel, None)

  /** The state of a builder constructed from a card: every field copied. */
  function BuilderOf(c: Card): BuilderState {
    BuilderState(Some(c.front), Some(c.back), c.level, Some(c.lastReview))
  }

  /**
   * Builder.create: the level sentinel is checked first (IllegalStateException),
   * then the front side, the back side and the review instant are required
   * non-null in that order (NullPointerException).
   */
  function Validate(b: BuilderState): (r: Result<Card>)
    ensures r.Ok? <==> b.level != UnsetLevel && b.front.Some? && b.back.Some? && b.lastReview.Some?
    ensures r.Ok? ==> r.value == Card(b.front.value, b.back.value, b.level, b.lastReview.value)
  {
    if b.level == UnsetLevel then Err(IllegalState(LevelNotSpecified))
    else
      var front :- RequireNonNull(b.front);
      var back :- RequireNonNull(b.back);
      var lastReview :- RequireNonNull(b.lastReview);
      Ok(Card(front, back, b.level, lastReview))
  }

  /** The sentinel level is reported before any missing field, whatever else is missing. */
  lemma SentinelCheckedFirst(b: BuilderState)
    requires b.level == UnsetLevel
    ensures Validate(b) == Err(IllegalState(LevelNotSpecified))
  {
  }

  /** With a level set, a missing field is reported as a NullPointerException. */
  lemma MissingFieldIsNullPointer(b: BuilderState)
    requires b.level != UnsetLevel
    requires b.front.None? || b.back.None? || b.lastReview.None?
    ensures Validate(b) == Err(NullPointer)
  {
  }

  /** Builder(card).create() gives back the card, unless its level is the sentinel itself. */
  lemma BuilderRoundTrip(c: Card)
    ensures Validate(BuilderOf(c)) == if c.level == UnsetLevel then Err(IllegalState(LevelNotSpecified)) else Ok(c)
  {
  }

  /** The copy constructor: a new card with all four fields of the original. */
  function Copy(c: Card): (r: Card)
    ensures r == c
  {
    Card(c.front, c.back, c.level, c.lastReview)
  }

  /** The mutable builder: each setter replaces one field and returns the builder itself. */
  class Builder {
    var front: Option<string>
    var back: Option<string>
    var level: Int32
    var lastReview: Option<Instant>

    function State(): BuilderState
      reads this
    {
      BuilderState(front, back, level, lastReview)
    }

    constructor ()
      ensures State() == EmptyBuilder
    {
      front, back, level, lastReview := None, None, UnsetLevel, None;
    }

    /** Builder(card): the setters are called in the order front, back, review, level. */
    constructor FromCard(c: Card)
      ensures State() == BuilderOf(c)
    {
      front := Some(c.front);
      back := Some(c.back);
      lastReview := Some(c.lastReview);
      level := c.level;
    }

    method SetFront(s: Option<string>) returns (self: Builder)
      modifies this
      ensures State() == old(State()).(front := s) && self == this
    {
      front := s;
      self := this;
    }

    method SetBack(s: Option<string>) returns (self: Builder)
      modifies this
      ensures State() == old(State()).(back := s) && self == this
    {
      back := s;
      self := this;
    }

    method SetLevel(l: Int32) returns (self: Builder)
      modifies this
      ensures State() == old(State()).(level := l) && self == this
    {
      level := l;
      self := this;
    }

    method SetLastReview(t: Option<Instant>) returns (self: Builder)
      modifies this
      ensures State() == old(State()).(lastReview := t) && self == this
    {
      lastReview := t;
      self := this;
    }

    method Create() returns (r: Result<Card>)
      ensures r == Validate(State())
    {
      if level == UnsetLevel {
        return Err(IllegalState(LevelNotSpecified));
      }
      if front.None? || back.None? || lastReview.None? {
        return Err(NullPointer);
      }
      r := Ok(Card(front.value, back.value, level, lastReview.value));
    }
  }

  /** toString of the newest SimpleCard and of its Firestore mapping: "Card<front:back>". */
  function FrontBackText(front: string, back: string): string {
    "Card<" + front + ":" + back + ">"
  }

  /** For sides without a colon, the text identifies both sides. */
  lemma {:induction false} FrontBackTextInjective(f1: string, b1: string, f2: string, b2: string)
    requires ':' !in f1 && ':' !in f2
    requires FrontBackText(f1, b1) == FrontBackText(f2, b2)
    ensures f1 == f2 && b1 == b2
  {
    var t := FrontBackText(f1, b1);
    assert t == "Card<" + (f1 + (":" + (b1 + ">")));
    assert t == "Card<" + (f2 + (":" + (b2 + ">")));
    var u := t[5..];
    assert u == f1 + ":" + (b1 + ">") == f2 + ":" + (b2 + ">");
    ColonSplit(f1, b1 + ">", f2, b2 + ">");
    assert b1 + ">" == b2 + ">";
    assert b1 == (b1 + ">")[..|b1|];
    assert b2 == (b2 + ">")[..|b2|];
  }

  lemma {:induction false} ColonSplit(f1: string, r1: string, f2: string, r2: string)
    requires ':' !in f1 && ':' !in f2
    requires f1 + ":" + r1 == f2 + ":" + r2
    ensures f1 == f2 && r1 == r2
  {
    var s := f1 + ":" + r1;
    assert s[|f1|] == ':' && s[|f2|] == ':';
    assert forall i :: 0 <= i < |f1| ==> s[i] == f1[i];
    assert forall i :: 0 <= i < |f2| ==> s[i] == f2[i];
    assert |f1| == |f2|;
    assert f1 == s[..|f1|] == f2;
    assert r1 == s[|f1| + 1..] == r2;
  }

  /** toString of the older card classes: "Card:" followed by the first side. */
  function FirstSideText(front: string): string {
    "Card:" + front
  }

  /** Two cards print alike exactly when their first sides are equal. */
  lemma FirstSideTextInjective(f1: string, f2: string)
    ensures FirstSideText(f1) == FirstSideText(f2) <==> f1 == f2
  {
    if FirstSideText(f1) == FirstSideText(f2) {
      assert f1 == FirstSideText(f1)[5..];
    }
  }
}
