/**
 * The Firestore mappings of a card (FirebaseCard of decks.core and of
 * core.decks, FirebaseCardEntry of cards): the stored sides and level, and
 * the last review kept as a map with the fields of an Instant.
 */
module StoredCards {
  import opened Outcomes
  import opened Clock
  import opened Cards

  const EpochSecondKey: string := "epochSecond"
  const NanoKey: string := "nano"

  /**
   * A deserialized card.  The sides are the frontSide/backSide fields of
   * decks.core and the firstSide/secondSide fields of the other two; the
   * lastReview map may be absent from the document.
   */
  datatype StoredCard = StoredCard(front: string, back: string, level: Int32, lastReview: Option<map<string, int>>)

  /**
   * getLastReview: Instant.ofEpochSecond(map.get("epochSecond"), map.get("nano"));
   * a missing map or a missing key unboxes null and throws NullPointerException.
   */
  function LastReview(s: StoredCard): (r: Result<Instant>)
    ensures r.Ok? <==> s.lastReview.Some? && EpochSecondKey in s.lastReview.value && NanoKey in s.lastReview.value
    ensures r.Ok? ==> r.value == OfEpochSecond(s.lastReview.value[EpochSecondKey], s.lastReview.value[NanoKey])
    ensures r.Err? ==> r.error == NullPointer
  {
    var m :- RequireNonNull(s.lastReview);
    if EpochSecondKey !in m || NanoKey !in m then Err(NullPointer)
    else Ok(OfEpochSecond(m[EpochSecondKey], m[NanoKey]))
  }

  /** The card the getters describe: the stored sides and level, and the converted instant. */
  function ToCard(s: StoredCard): (r: Result<Card>)
    ensures r.Ok? <==> LastReview(s).Ok?
    ensures r.Ok? ==> r.value == Card(s.front, s.back, s.level, LastReview(s).value)
  {
    var t :- LastReview(s);
    Ok(Card(s.front, s.back, s.level, t))
  }

  /** The map an Instant is stored as: its epochSecond and nano fields. */
  function InstantFields(t: Instant): (m: map<string, int>)
    ensures EpochSecondKey in m && NanoKey in m
    ensures 0 <= m[NanoKey] < NanosPerSecond
  {
    map[EpochSecondKey := EpochSecond(t), NanoKey := Nano(t)]
  }

  /** A card stored with its fields reads back as the same card. */
  function FromCard(c: Card): StoredCard {
    StoredCard(c.front, c.back, c.level, Some(InstantFields(c.lastReview)))
  }

  lemma StoredCardRoundTrip(c: Card)
    ensures ToCard(FromCard(c)) == Ok(c)
  {
    SecondsAndNanosRoundTrip(c.lastReview);
  }

  /** A stored pair of fields with the nanos in range survives the conversion and back. */
  lemma StoredFieldsRoundTrip(s: StoredCard)
    requires LastReview(s).Ok? && 0 <= s.lastReview.value[NanoKey] < NanosPerSecond
    ensures EpochSecond(LastReview(s).value) == s.lastReview.value[EpochSecondKey]
    ensures Nano(LastReview(s).value) == s.lastReview.value[NanoKey]
  {
    var m := s.lastReview.value;
    EpochFieldsRoundTrip(m[EpochSecondKey], m[NanoKey]);
  }

  /** The stored instant of the deserialization example: 1234567 seconds and 1234 nanoseconds. */
  lemma DeserializedExample(s: StoredCard)
    requires s.lastReview == Some(map[EpochSecondKey := 1234567, NanoKey := 1234])
    ensures LastReview(s) == Ok(OfEpochSecond(1234567, 1234))
    ensures EpochSecond(LastReview(s).value) == 1234567 && Nano(LastReview(s).value) == 1234
  {
    EpochFieldsRoundTrip(1234567, 1234);
  }
}
