# smart-decks core in Dafny

A verified model of the core of *smart-decks*, a spaced-repetition flashcard
manager. The repository holds three generations of the same design, in the
Java packages `coden.cards`, `coden.core.decks` and `coden.decks.core`. This
model covers the logic they share:

- **Cards** (`cards.dfy`). The card value has a front side, a back side, an
  int level and a last-review instant. Its builder checks the level sentinel
  -1 first and the missing fields second. The copy constructor and the two
  `toString` forms are here too.
- **Stored cards** (`storedcards.dfy`). The Firestore card documents keep the
  last review as a map with the keys `epochSecond` and `nano`.
- **Level tables and policies** (`schedule.dfy`, `levels.dfy`,
  `revision.dfy`).
  - A table maps a level to a delay.
  - The constructors build the table in nested loops and reject a repeated
    level.
  - `RevisionLevel`/`ReminderLevel` compare by level number only.
  - `RevisionManagerImpl` reports its maximum as the highest level plus one.
    The two `Reminder` classes report the highest level itself.
  - Every policy has the same queries: the delay, the next revision, whether
    a card is ready, and its overtime.
- **Deck models** (`deckmodel.dfy`). `Decks` and the `SimpleDecks`,
  `SimpleModel` and `CardModelImpl` variants:
  - create a card;
  - move its level up or down within [min, max];
  - list ready and pending cards below the maximum level, sorted with the
    most overdue first;
  - list done cards at or above the maximum;
  - pick the next card.
- **Filter and sort** (`sorting.dfy`). These are the stream filter and sort
  stages behind the deck models' ready and pending lists.
- **In-memory card store** (`store.dfy`). The two `FakeDatabase` classes:
  upsert and delete keyed by the front side, and level-range queries.
- **Look-ahead cache** (`cache.dfy`). `CachedCardModel` pops cards from a
  buffer, requests a refill below two cards, and replaces the buffer
  wholesale on a refill.
- **Configuration** (`config.dfy`). The two `Config` classes: property
  lookup with its missing-key error, and `String.split` on `\s?,\s?` or on a
  bare `,`.
- **Users** (`users.dfy`). `UserEntry`: the null check, equality,
  `String.hashCode`-based hashing and `toString`.

Conventions of the model:

- Java `int` levels are the subset type `Int32`. Every `+ 1`, `- 1` and
  `+ 31` on a level wraps explicitly (`Clock.Wrap`).
- Instants and durations are unbounded integers counting nanoseconds.
- `Instant.now()` is a parameter `now`.
- A Java exception is an `Err` of `Outcomes.Error`, and a possibly-null
  argument is an `Option`.
- A write the deck models send to the store is a `Store.Request` value.
  `Store.Apply` gives its effect on the stored cards.

## Model

| member | source | states |
|---|---|---|
| Clock.Nano | src/main/java/coden/decks/core/firebase/FirebaseCard.java:51-54 | The nano-of-second part of an instant is always in [0, 10^9). |
| Clock.SecondsAndNanosRoundTrip | src/main/java/coden/decks/core/firebase/FirebaseCard.java:51-54 | Rebuilding an instant from its epoch second and nano gives the same instant. |
| Clock.EpochFieldsRoundTrip | src/main/java/coden/decks/core/firebase/FirebaseCard.java:51-54 | Instant.ofEpochSecond(s, n) with n in range gives back s as its epoch second and n as its nano. |
| Clock.Wrap | src/main/java/coden/decks/core/model/Decks.java:90-97 | Java int arithmetic: the result is congruent to the exact value modulo 2^32 and equals it when it fits in an int. |
| Clock.WrapCongruent | src/main/java/coden/decks/core/user/UserEntry.java:35-38 | Two values that differ by a multiple of 2^32 wrap to the same int. |
| Cards.Validate | src/main/java/coden/decks/core/data/SimpleCard.java:134-147 | Builder.create succeeds iff the level is not -1 and the front, back and last review are all set. The card then carries exactly the builder's four values. |
| Cards.SentinelCheckedFirst | src/main/java/coden/decks/core/data/SimpleCard.java:134-135 | A level of -1 fails with IllegalStateException "Level has to be specified" before any null check, even when fields are missing. The same code appears at src/main/java/coden/core/decks/data/SimpleCard.java:89-102, src/main/java/coden/cards/data/CardEntry.java:89-102. |
| Cards.MissingFieldIsNullPointer | src/main/java/coden/decks/core/data/SimpleCard.java:136-140 | With a real level, a missing front, back or last review fails with a NullPointerException. |
| Cards.BuilderRoundTrip | src/main/java/coden/decks/core/data/SimpleCard.java:101-106 | Builder(card).create() gives back the card whenever its level is not -1. The same code appears at src/main/java/coden/core/decks/data/SimpleCard.java:60-65, src/main/java/coden/cards/data/CardEntry.java:60-65. |
| Cards.Copy | src/main/java/coden/decks/core/data/SimpleCard.java:50-55 | The copy constructor reproduces all four fields. |
| Cards.Builder.constructor | src/main/java/coden/decks/core/data/SimpleCard.java:85-89 | A fresh builder has no sides and no last review, and the level sentinel -1. |
| Cards.Builder.FromCard | src/main/java/coden/decks/core/data/SimpleCard.java:101-106 | Builder(card) holds the card's four values. |
| Cards.Builder.SetFront | src/main/java/coden/decks/core/data/SimpleCard.java:109-112 | Sets the front side only and returns the same builder. |
| Cards.Builder.SetBack | src/main/java/coden/decks/core/data/SimpleCard.java:114-117 | Sets the back side only and returns the same builder. |
| Cards.Builder.SetLevel | src/main/java/coden/decks/core/data/SimpleCard.java:120-123 | Sets the level only and returns the same builder. |
| Cards.Builder.SetLastReview | src/main/java/coden/decks/core/data/SimpleCard.java:125-128 | Sets the last review only and returns the same builder. |
| Cards.Builder.Create | src/main/java/coden/decks/core/data/SimpleCard.java:134-141 | create() answers Validate of the builder's current state. |
| Cards.FrontBackTextInjective | src/main/java/coden/decks/core/data/SimpleCard.java:151-153 | "Card<front:back>" determines front and back when the front has no colon. The same code appears at src/main/java/coden/decks/core/firebase/FirebaseCard.java:56-59. |
| Cards.ColonSplit | src/main/java/coden/decks/core/data/SimpleCard.java:151-153 | Splitting at the first colon is unique when the prefix has no colon. |
| Cards.FirstSideTextInjective | src/main/java/coden/core/decks/data/SimpleCard.java:105-108 | "Card:" + first side is equal for two cards iff their first sides are equal. The same code appears at src/main/java/coden/cards/persistence/firebase/FirebaseCardEntry.java:35-38. |
| StoredCards.LastReview | src/main/java/coden/decks/core/firebase/FirebaseCard.java:51-54 | getLastReview is Instant.ofEpochSecond(map["epochSecond"], map["nano"]). It fails with a NullPointerException iff the map or either key is missing. The same code appears at src/main/java/coden/cards/persistence/firebase/FirebaseCardEntry.java:31-34, src/main/java/coden/core/decks/persistence/firebase/FirebaseCard.java:31-34. |
| StoredCards.ToCard | src/main/java/coden/decks/core/firebase/FirebaseCard.java:36-54 | The getters give the stored front, back and level unchanged and the converted instant. This fails exactly when the instant does. The core.decks copy at src/main/java/coden/core/decks/persistence/firebase/FirebaseCard.java:16-29 reads its firstSide and secondSide fields as the front and back sides. |
| StoredCards.InstantFields | src/main/java/coden/decks/core/firebase/FirebaseCard.java:51-54 | The stored map of an instant has both keys, with the nano in [0, 10^9). |
| StoredCards.StoredCardRoundTrip | src/main/java/coden/decks/core/firebase/FirebaseCard.java:36-54 | Storing any card and reading it back gives the same card. |
| StoredCards.StoredFieldsRoundTrip | src/main/java/coden/decks/core/firebase/FirebaseCard.java:51-54 | Reading a stored map whose nano is in range gives back its epochSecond and nano fields. |
| StoredCards.DeserializedExample | src/main/java/coden/decks/core/firebase/FirebaseCard.java:51-54 | epochSecond 1234567 and nano 1234 read as Instant.ofEpochSecond(1234567, 1234). |
| Sorting.Filter | src/main/java/coden/decks/core/model/Decks.java:165-166 | The stream filter keeps exactly the elements that pass (or fail) the test, without adding any. |
| Sorting.FilterPartition | src/main/java/coden/cards/model/CardModelImpl.java:95-104 | filter(test) and filter(not test) together hold every element exactly once. |
| Sorting.Insert | src/main/java/coden/decks/core/model/Decks.java:167-168 | Inserting into a descending list keeps it descending and adds exactly one element. |
| Sorting.SortDescending | src/main/java/coden/decks/core/model/Decks.java:167-168 | The sorted list is descending by the key and a permutation of the input. |
| Sorting.HeadIsLargest | src/main/java/coden/decks/core/model/Decks.java:148-150 | The head of a descending list has the largest key. |
| Sorting.TailStaysSorted | src/main/java/coden/cards/model/CachedCardModel.java:39-52 | Dropping the head of a list ranked most overdue first leaves the rest ranked. |
| Schedule.Lookup | src/main/java/coden/decks/core/revision/RevisionManagerImpl.java:61-67 | The delay of a level is found iff the level is configured, and it is that level's delay. |
| Schedule.LookupUnique | src/main/java/coden/decks/core/revision/RevisionManagerImpl.java:61-67 | With distinct levels, every entry's level is looked up to its own delay. |
| Schedule.LowestLevel | src/main/java/coden/decks/core/revision/RevisionManagerImpl.java:36-41 | getMinLevel: a configured level at or below every other, or 0 when none is configured. The same code appears at src/main/java/coden/cards/reminder/Reminder.java:54-59, src/main/java/coden/core/decks/reminder/Reminder.java:53-58. |
| Schedule.HighestLevel | src/main/java/coden/cards/reminder/Reminder.java:62-67 | getMaxLevel of a Reminder: a configured level at or above every other, or 0 when none is configured. The same code appears at src/main/java/coden/core/decks/reminder/Reminder.java:61-66. |
| Schedule.DedupLevels | src/main/java/coden/decks/core/revision/config/RevisionLevels.java:23-25 | Building a HashSet from a collection keeps one element per level number and loses no level. |
| Schedule.DedupLookup | src/main/java/coden/decks/core/revision/config/RevisionLevels.java:23-25 | The set answers every level with the delay of the first element carrying that level. |
| Schedule.LookupAppend | src/main/java/coden/decks/core/revision/RevisionManagerImpl.java:61-67 | A lookup in a concatenation searches the first part, then the second. |
| Schedule.Policy.Delay | src/main/java/coden/decks/core/revision/RevisionManagerImpl.java:61-67 | getTimeToNextRevision(level) succeeds iff the level is configured and returns its delay. Otherwise RevisionManagerImpl, and the core.decks Reminder at src/main/java/coden/core/decks/reminder/Reminder.java:76-82, fail with RuntimeException "Unable to get next reminder delay". The cards Reminder's getNextReminderDelay at src/main/java/coden/cards/reminder/Reminder.java:45-51 calls a bare orElseThrow() and fails with NoSuchElementException "No value present". |
| Schedule.QueriesFailTogether | src/main/java/coden/decks/core/revision/RevisionManagerImpl.java:77-111 | isReady, the time to the next revision and getNextRevision of a card all succeed iff its level is configured. |
| Schedule.ReadyIffOvertimeNonNegative | src/main/java/coden/decks/core/revision/RevisionManagerImpl.java:77-95 | A card is ready iff its time past the next revision is at least 0. The same code appears at src/main/java/coden/cards/reminder/Reminder.java:70-80. |
| Schedule.ReadyFromDueInstant | src/main/java/coden/decks/core/revision/RevisionManagerImpl.java:92-111 | isReady iff now >= lastReview + delay(level). It holds at the due instant and not one nanosecond before. The same code appears at src/main/java/coden/core/decks/reminder/Reminder.java:106-125, src/main/java/coden/cards/reminder/Reminder.java:70-87. |
| Schedule.ReadyMonotone | src/main/java/coden/cards/model/CardFilter.java:18-24 | Once a card is due, it stays due at every later instant. |
| Schedule.LevelBounds | src/main/java/coden/decks/core/revision/RevisionManagerImpl.java:44-50 | When the highest level is below Integer.MAX_VALUE, RevisionManagerImpl's maximum is the highest level + 1, above every configured level. At MAX_VALUE the + 1 wraps to MIN_VALUE. A Reminder's maximum is itself a configured level. The minimum never exceeds the highest level. |
| Schedule.ReadyFilterTest | src/main/java/coden/cards/model/CardFilter.java:18-24 | CardFilter.test agrees with the Reminder's shouldRemind on every card and instant, including the failure for an unconfigured level. The same code appears at src/main/java/coden/cards/model/ReadyCardFilter.java:18-24. |
| LevelConfig.Expand | src/main/java/coden/decks/core/revision/config/RevisionLevels.java:49-53 | One entry yields one level per listed number, each with the entry's delay, in list order. |
| LevelConfig.PairsLength | src/main/java/coden/decks/core/revision/config/RevisionLevels.java:49-53 | The pairs processed are as many as the levels listed in all entries. |
| LevelConfig.PairsContain | src/main/java/coden/decks/core/revision/config/RevisionLevels.java:49-53 | Every listed level of every entry is processed with that entry's delay. |
| LevelConfig.RepeatBreaksUniqueness | src/main/java/coden/decks/core/revision/config/RevisionLevels.java:76-78 | A level met a second time means the listed levels are not distinct. |
| LevelConfig.CollectLevels | src/main/java/coden/decks/core/revision/config/RevisionLevels.java:47-54 | The nested loops stop at a repeat iff the listed levels are not distinct. On success the table is every pair in entry-then-level order. On a repeat it is the distinct prefix before the first repeated level, which is reported. The same code appears at src/main/java/coden/cards/reminder/Reminder.java:21-37, src/main/java/coden/core/decks/reminder/Reminder.java:21-37. |
| LevelConfig.LookupListed | src/main/java/coden/decks/core/revision/config/RevisionLevels.java:73-80 | In a table built without repeats, each listed level answers its own entry's delay. |
| LevelConfig.RevisionLevelsFromConfig | src/main/java/coden/decks/core/revision/config/RevisionLevels.java:47-80 | Succeeds iff the listed levels are distinct, with all of them and the listed count as its size. Otherwise it fails with IdenticalLevelsException naming the first level met twice. |
| LevelConfig.RevisionLevelsFromCollection | src/main/java/coden/decks/core/revision/config/RevisionLevels.java:23-25 | The set from a collection has distinct levels, exactly the collection's levels, and the same delay for every level. |
| LevelConfig.UnitGroups | src/main/java/coden/cards/reminder/Reminder.java:25-42 | Each entry's delay is the unit's duration times the amount. |
| LevelConfig.CardsReminderFromEntries | src/main/java/coden/cards/reminder/Reminder.java:21-42 | Succeeds iff the listed levels are distinct, with the table of all pairs. A repeat fails with IOException "Found two reminder level entries with the same levels". |
| LevelConfig.CardsReminderDelay | src/main/java/coden/cards/reminder/Reminder.java:25-51 | Each listed level's delay is its entry's unit duration times its amount. |
| LevelConfig.CoreReminderFromEntries | src/main/java/coden/core/decks/reminder/Reminder.java:21-37 | The same construction for the core.decks Reminder. |
| LevelConfig.RevisionLevel.constructor | src/main/java/coden/core/decks/revision/RevisionLevel.java:15-18 | The constructor stores the level and the delay. |
| LevelConfig.RevisionLevel.SetLevel | src/main/java/coden/core/decks/revision/RevisionLevel.java:32-34 | Changes the level and leaves the delay. The same code appears at src/main/java/coden/core/decks/reminder/ReminderLevel.java:27-29. |
| LevelConfig.RevisionLevel.SetDelay | src/main/java/coden/core/decks/revision/RevisionLevel.java:24-26 | Changes the delay and leaves the level. The same code appears at src/main/java/coden/core/decks/reminder/ReminderLevel.java:19-21. |
| LevelConfig.EqualsIffSameLevel | src/main/java/coden/core/decks/revision/RevisionLevel.java:37-42 | Two levels are equal iff their numbers agree, whatever their delays. equals is reflexive and false for null. The same code appears at src/main/java/coden/core/decks/reminder/ReminderLevel.java:31-37. |
| LevelConfig.NotEqualToOtherTypes | src/main/java/coden/core/decks/revision/RevisionLevel.java:37-42 | An object of another class is never equal to a level. |
| LevelConfig.HashCodeConsistent | src/main/java/coden/core/decks/revision/RevisionLevel.java:45-47 | Objects.hash(level) agrees for equal objects and differs for different level numbers. The same code appears at src/main/java/coden/core/decks/reminder/ReminderLevel.java:40-42. |
| Revision.RevisionManagerImpl.constructor | src/main/java/coden/decks/core/revision/RevisionManagerImpl.java:31-33 | The manager starts with the given levels, deduplicated by level number. |
| Revision.RevisionManagerImpl.SetRevisionLevels | src/main/java/coden/decks/core/revision/RevisionManagerImpl.java:114-117 | clear then addAll: the new set is built from the argument alone, nothing of the old set remains, and the levels stay distinct. |
| Revision.RevisionManagerImpl.AsPolicy | src/main/java/coden/decks/core/revision/RevisionManagerImpl.java:36-111 | The manager's queries are those of a revision-manager policy over its current levels. |
| Revision.ValidManagerAnswersEachLevel | src/main/java/coden/decks/core/revision/RevisionManagerImpl.java:61-67 | In a manager whose set holds each level number once, getTimeToNextRevision answers each held level with that level's own delay. |
| Revision.ReplacedLevelsAnswerDelays | src/main/java/coden/decks/core/revision/RevisionManagerImpl.java:61-67 | After a replacement, a level has a delay iff the new collection lists it, and it is the delay listed first for it. |
| Store.AtLeast | src/main/java/coden/cards/persistence/FakeDatabase.java:30-35 | Exactly the stored cards with level >= l. |
| Store.AtMost | src/main/java/coden/cards/persistence/FakeDatabase.java:37-42 | Exactly the stored cards with level <= l. |
| Store.LevelSplit | src/main/java/coden/decks/core/model/Decks.java:153-194 | Cards at or below max - 1 and cards at or above max together are the store, each card once. |
| Store.WithoutFront | src/main/java/coden/cards/persistence/FakeDatabase.java:44-50 | removeIf: exactly the cards whose front side differs remain. |
| Store.DeleteRemovesOnlyMatches | src/main/java/coden/cards/persistence/FakeDatabase.java:44-50 | Deleting removes the matching cards and nothing else, and leaves none with that front side. |
| Store.Upserted | src/main/java/coden/cards/persistence/FakeDatabase.java:52-59 | After addOrUpdateEntry the entry is present, together with exactly the old cards of other front sides. |
| Store.UpsertKeepsFrontsUnique | src/main/java/coden/cards/persistence/FakeDatabase.java:52-59 | Upserting keeps at most one card per front side, and the entry is that card. The same code appears at src/main/java/coden/cards/persistence/fake/FakeDatabase.java:53-60. |
| Store.FilterKeepsUniqueFronts | src/main/java/coden/cards/persistence/FakeDatabase.java:44-50 | Removing cards keeps the front sides distinct. |
| Store.UpsertIdempotent | src/main/java/coden/cards/persistence/FakeDatabase.java:52-59 | Upserting the same entry twice is the same as once. |
| Store.FilterWithoutLast | src/main/java/coden/cards/persistence/FakeDatabase.java:52-59 | Removing a front side from a store where only the last card has it leaves the rest unchanged. |
| Store.Apply | src/main/java/coden/decks/core/model/SimpleDecks.java:71-78 | The effect of the store call a deck model makes: an upsert replaces cards of the same front side, a delete removes them. |
| Store.FakeDatabase.constructor | src/main/java/coden/cards/persistence/FakeDatabase.java:12-16 | The store starts empty, with at most one card per front side. |
| Store.FakeDatabase.GetAllEntries | src/main/java/coden/cards/persistence/FakeDatabase.java:23-28 | Every stored card is returned and the store is not changed. The same code appears at src/main/java/coden/cards/persistence/fake/FakeDatabase.java:24-29. |
| Store.FakeDatabase.GetGreaterOrEqualLevel | src/main/java/coden/cards/persistence/FakeDatabase.java:30-35 | Exactly the stored cards with level >= l, and the store is not changed. The same code appears at src/main/java/coden/cards/persistence/fake/FakeDatabase.java:31-36. |
| Store.FakeDatabase.GetLessOrEqualLevel | src/main/java/coden/cards/persistence/FakeDatabase.java:37-42 | Exactly the stored cards with level <= l, and the store is not changed. The same code appears at src/main/java/coden/cards/persistence/fake/FakeDatabase.java:38-43. |
| Store.FakeDatabase.DeleteEntry | src/main/java/coden/cards/persistence/FakeDatabase.java:44-50 | Removes exactly the cards with the entry's front side, and keeps at most one card per front side. The same code appears at src/main/java/coden/cards/persistence/fake/FakeDatabase.java:45-51. |
| Store.FakeDatabase.AddOrUpdateEntry | src/main/java/coden/cards/persistence/FakeDatabase.java:52-59 | Removes the cards with the entry's front side and adds the entry, which is then stored. At most one card per front side is kept. The same code appears at src/main/java/coden/cards/persistence/fake/FakeDatabase.java:53-60. |
| DeckModel.CreateCardAtMinLevel | src/main/java/coden/decks/core/model/Decks.java:48-55 | The card has the given sides, the policy's minimum level and now as its last review. A missing side is a NullPointerException, and a minimum of -1 fails the builder's level check. |
| DeckModel.CreateCard | src/main/java/coden/decks/core/model/SimpleDecks.java:31-38 | The card has the given sides, level 0 and now as its last review. A missing side is a NullPointerException. The same code appears at src/main/java/coden/core/decks/model/SimpleDecks.java:29-36, src/main/java/coden/cards/model/SimpleModel.java:28-35, src/main/java/coden/cards/model/CardModelImpl.java:29-36. |
| DeckModel.KnowLevelSteps | src/main/java/coden/decks/core/model/Decks.java:90-97 | Knowing a card below the maximum raises its level by one. At or above the maximum it lands on the maximum. |
| DeckModel.DontKnowLevelSteps | src/main/java/coden/decks/core/model/Decks.java:108-115 | Not knowing a card above the minimum lowers its level by one. At or below the minimum it lands on the minimum. |
| DeckModel.AnswersKeepLevelInRange | src/main/java/coden/decks/core/model/Decks.java:90-115 | A level in [min, max] stays in [min, max] after either answer. |
| DeckModel.KnowAtLargestIntWraps | src/main/java/coden/decks/core/model/Decks.java:90-97 | At Integer.MAX_VALUE, level + 1 overflows, so knowing the card moves it to Integer.MIN_VALUE. |
| DeckModel.SetKnow | src/main/java/coden/decks/core/model/Decks.java:90-97 | setKnow writes one upsert of the card with the same sides, level min(max, level + 1) and last review now. It fails only when that level is -1. The same code appears at src/main/java/coden/decks/core/model/SimpleDecks.java:51-58, src/main/java/coden/core/decks/model/SimpleDecks.java:49-56, src/main/java/coden/cards/model/SimpleModel.java:48-55, src/main/java/coden/cards/model/CardModelImpl.java:49-56. |
| DeckModel.SetDontKnow | src/main/java/coden/decks/core/model/Decks.java:108-115 | setDontKnow writes one upsert of the card with the same sides, level max(min, level - 1) and last review now. It fails only when that level is -1. The same code appears at src/main/java/coden/decks/core/model/SimpleDecks.java:61-68, src/main/java/coden/core/decks/model/SimpleDecks.java:59-66, src/main/java/coden/cards/model/SimpleModel.java:58-65, src/main/java/coden/cards/model/CardModelImpl.java:59-66. |
| DeckModel.SetKnowEffect | src/main/java/coden/decks/core/model/Decks.java:90-97 | After setKnow the store holds the answered card once, at its new level and reviewed now. Every card of another front side is kept. |
| DeckModel.AddCard | src/main/java/coden/decks/core/model/Decks.java:125-127 | addCard makes one upsert of the unchanged card. The same code appears at src/main/java/coden/cards/model/SimpleModel.java:68-70. |
| DeckModel.DeleteCard | src/main/java/coden/decks/core/model/Decks.java:137-139 | deleteCard makes one delete keyed by the card's front side. The same code appears at src/main/java/coden/cards/model/SimpleModel.java:72-75. |
| DeckModel.FindCards | src/main/java/coden/decks/core/model/Decks.java:165-188 | findReadyCards and findPendingCards keep exactly the cards whose readiness is true or false, and add none. The result is sorted by time past revision, most overdue first. A card with an unconfigured level fails the whole query with the policy's exception. The same code appears at src/main/java/coden/core/decks/model/SimpleDecks.java:89-104, src/main/java/coden/cards/model/CardModelImpl.java:89-104. |
| DeckModel.ReadyOrPending | src/main/java/coden/decks/core/model/Decks.java:165-188 | Ready and pending together hold every queried card exactly once. The same code appears at src/main/java/coden/cards/model/CardModelImpl.java:95-104. |
| DeckModel.ReadyCardsAreOverdue | src/main/java/coden/decks/core/model/Decks.java:165-169 | Every ready card is at least 0 past its revision. |
| DeckModel.PendingCardsAreEarly | src/main/java/coden/decks/core/model/Decks.java:172-188 | Every pending card is still before its revision. |
| DeckModel.GetReadyCards | src/main/java/coden/decks/core/model/Decks.java:153-156 | Succeeds iff every stored card at or below max - 1 has a configured level, and otherwise fails with the policy's missing-delay error. On success: exactly the stored cards at or below max - 1 that are ready, most overdue first, each taken from the store no more often than it is stored. The same code appears at src/main/java/coden/decks/core/model/SimpleDecks.java:86-95, src/main/java/coden/cards/model/SimpleModel.java:83-92. |
| DeckModel.GetPendingCards | src/main/java/coden/decks/core/model/Decks.java:172-175 | Succeeds iff every stored card at or below max - 1 has a configured level, and otherwise fails with the policy's missing-delay error. On success: exactly the stored cards at or below max - 1 that are not ready, most overdue first, each taken from the store no more often than it is stored. The same code appears at src/main/java/coden/decks/core/model/SimpleDecks.java:97-106, src/main/java/coden/cards/model/SimpleModel.java:94-103. |
| DeckModel.GetDoneCards | src/main/java/coden/decks/core/model/Decks.java:191-194 | Exactly the stored cards at or above the maximum level. The same code appears at src/main/java/coden/core/decks/model/SimpleDecks.java:107-110, src/main/java/coden/cards/model/CardModelImpl.java:107-110. |
| DeckModel.ViewsPartitionStore | src/main/java/coden/decks/core/model/Decks.java:153-194 | When every card at or below max - 1 has a configured level, the ready, pending and done views together hold every stored card exactly once. Done cards need no delay. |
| DeckModel.ReadyAndPendingSplitBelowMax | src/main/java/coden/decks/core/model/Decks.java:153-175 | When every card at or below max - 1 has a configured level, the ready and pending views succeed and together hold each such card exactly once. |
| DeckModel.DoneCardsHaveNoDelay | src/main/java/coden/decks/core/revision/RevisionManagerImpl.java:44-50 | Under RevisionManagerImpl, with the highest level below Integer.MAX_VALUE, no done card has a configured delay, so the finders must not query done cards. |
| DeckModel.BelowMaxAndDoneSplitStore | src/main/java/coden/decks/core/model/Decks.java:172-194 | The cards at or below max - 1 and the done view together are the whole store. |
| DeckModel.NextReadyCard | src/main/java/coden/decks/core/model/Decks.java:148-150 | getNextCard is the head of the ready list: a ready stored card below the maximum, at least as overdue as every other ready card. It is absent iff no card is ready. The same code appears at src/main/java/coden/decks/core/model/SimpleDecks.java:81-83. |
| DeckModel.NextPendingCard | src/main/java/coden/core/decks/model/SimpleDecks.java:79-81 | getNextCard as written: it succeeds iff the pending list is computed and not empty. It then returns the head of that list: a stored card at or below max - 1 that is not ready, with an overtime no smaller than any other pending card's. A missing delay is passed on, and an empty pending list gives an index error. The same code appears at src/main/java/coden/cards/model/SimpleModel.java:78-80, src/main/java/coden/cards/model/CardModelImpl.java:79-81. |
| DeckModel.NextPendingCardMissesDueCard | src/main/java/coden/core/decks/model/DecksModel.java:91-97 | With one card due now, the as-written getNextCard fails while the ready-based one returns that card. |
| DeckModel.PendingHeadLessOverdue | src/main/java/coden/core/decks/model/SimpleDecks.java:79-81 | The pending head is strictly less overdue than any ready card. |
| Cache.CachedCardModel.constructor | src/main/java/coden/cards/model/CachedCardModel.java:30-37 | The buffer starts empty and one refill is requested. |
| Cache.CachedCardModel.GetNextCard | src/main/java/coden/cards/model/CachedCardModel.java:39-52 | Pops the front card and keeps the rest in order, or returns null on an empty buffer. One refill is requested iff fewer than MIN_SIZE = 2 cards remain. A buffer of ready cards in overdue order stays one. |
| Cache.CachedCardModel.FetchAndUpdateCache | src/main/java/coden/cards/model/CachedCardModel.java:54-68 | A refill replaces the buffer with the ready list, in order, so the buffer then serves ready cards most overdue first. A failing fetch leaves the buffer untouched. |
| Cache.CachedCardModel.RunQueuedRefill | src/main/java/coden/cards/model/CachedCardModel.java:32-33 | Running one queued refill consumes one request and performs fetchAndUpdateCache, leaving ready cards in overdue order on success. |
| Cache.ServedCardIsMostOverdue | src/main/java/coden/cards/model/CachedCardModel.java:39-68 | A cached model whose buffer a successful refill filled serves next a ready stored card at or below max - 1, at least as overdue as every card in the buffer. |
| Cache.PopKeepsReadyInOrder | src/main/java/coden/cards/model/CachedCardModel.java:39-52 | Popping the head leaves the rest of a ready, most-overdue-first buffer ready and in order. |
| Config.MatchLength | src/main/java/coden/decks/core/config/Config.java:66-69 | A separator match at the start of the text lies inside it and contains the comma. |
| Config.StripTrailingEmpty | src/main/java/coden/decks/core/config/Config.java:66-69 | String.split drops only trailing empty strings. |
| Config.ScanHasNoComma | src/main/java/coden/decks/core/config/Config.java:66-69 | No split piece contains a comma. |
| Config.PlainScanJoins | src/main/java/coden/cards/config/Config.java:52-55 | Joining the raw pieces of a split on "," with "," restores the text. |
| Config.ScanOverPiece | src/main/java/coden/decks/core/config/Config.java:66-69 | A piece with no comma and no trailing whitespace is read as one piece. |
| Config.ScanJoined | src/main/java/coden/decks/core/config/Config.java:66-69 | Scanning a join of such pieces gives the pieces back. |
| Config.SplitJoined | src/main/java/coden/decks/core/config/Config.java:66-69 | Items without commas or trailing whitespace, the last non-empty, split back out of their ", "-join (or ","-join for the plain splitter). |
| Config.SplitHasNoComma | src/main/java/coden/cards/config/Config.java:52-55 | No item of the list contains a comma. |
| Config.PlainSplitJoins | src/main/java/coden/cards/config/Config.java:52-55 | Splitting on "," loses only trailing commas: the items joined with "," plus some commas give the text back. |
| Config.JoinDropsEmptyTail | src/main/java/coden/cards/config/Config.java:52-55 | Dropping trailing empty pieces drops only commas from the join. |
| Config.JoinSnoc | src/main/java/coden/cards/config/Config.java:52-55 | Joining with one more piece appends a comma and the piece. |
| Config.GetString | src/main/java/coden/decks/core/config/Config.java:80-84 | Returns the stored value iff the key is present. Otherwise it throws IllegalArgumentException "Missing configuration property '<key>'.". The same code appears at src/main/java/coden/cards/config/Config.java:61-69. |
| Config.NewDecksConfig | src/main/java/coden/decks/core/config/Config.java:44-46 | The constructor keeps the properties and rejects null. |
| Config.GetCommaSeparatedStringList | src/main/java/coden/decks/core/config/Config.java:66-73 | A missing property gives an empty list. Otherwise the value is split on "\s?,\s?". The same code appears at src/main/java/coden/cards/config/Config.java:52-59. |
| Config.ScanJoinedMixed | src/main/java/coden/decks/core/config/Config.java:66-69 | Items joined with commas, each optionally flanked by one space, split back out. |
| Config.SplitJoinedMixed | src/main/java/coden/decks/core/config/Config.java:66-69 | Two or more such items, the last not empty, split back out exactly, with no trailing empty string dropped. |
| Config.DocumentedListExample | src/main/java/coden/decks/core/config/Config.java:59-60 | "1,2, 3, string, test" splits into [1, 2, 3, string, test]. |
| Config.GetPropertyOf | src/main/java/coden/cards/config/Config.java:61-65 | A lookup through a null properties reference throws NullPointerException. Otherwise it is getString. |
| Config.ConstructCardsConfig | src/main/java/coden/cards/config/Config.java:21-28 | Construction fails with a NullPointerException when the field initializer sees no properties. When it succeeds, sender is read from the properties the initializer saw. |
| Config.CardsConfigNeverConstructs | src/main/java/coden/cards/config/Config.java:21-28 | As written, every construction throws NullPointerException: sender is read before properties is assigned. |
| Config.NewCardsConfig | src/main/java/coden/cards/config/Config.java:21-28 | Corrected order: construction succeeds iff the properties exist and hold "sender", with sender read from them. The errors are NullPointerException and the missing-property message. |
| Users.NewUserEntry | src/main/java/coden/decks/core/user/UserEntry.java:17-24 | The constructor rejects a null name, and getName returns the given name. |
| Users.Equals | src/main/java/coden/decks/core/user/UserEntry.java:27-33 | Two users are equal iff their names are equal; null is equal to none. |
| Users.StringHashIsPolynomial | src/main/java/coden/decks/core/user/UserEntry.java:35-38 | String.hashCode's loop of h = 31 * h + c in int arithmetic is the polynomial sum of c * 31^k modulo 2^32. |
| Users.EqualUsersHashAlike | src/main/java/coden/decks/core/user/UserEntry.java:27-38 | Equal users have equal hash codes. |
| Users.ToString | src/main/java/coden/decks/core/user/UserEntry.java:41-43 | The text is "User<", the name, then ">". |
| Users.ToStringInjective | src/main/java/coden/decks/core/user/UserEntry.java:41-43 | Two users print alike iff they are equal. |

## Left out

- The Firestore backends, the Firebase app factory and the Jackson
  (de)serializers. Their network I/O and SDK calls are outside the model.
  The store appears as a sequence of cards (`Store.Deck`) and a store call as
  a `Store.Request`.
- The `CompletableFuture` wrappers of the deck models. The model treats their
  results as plain values.
- The executors, `scheduleAtFixedRate` and the `synchronized` blocks of
  `CachedCardModel`. A submitted refill is a count of queued refills that
  `RunQueuedRefill` consumes. Interleavings are not modelled.
- Cache.CachedCardModel.GetNextCard: the source declares `Card` where the
  superclass expects a future. The model returns the card, or none for null.
- `Instant.now()`. It is a parameter `now` that a query evaluates once. The
  Java finders call `now()` again for each card, and a clock that moves
  during one query is not modelled.
- `Instant`/`Duration` range checks and overflow exceptions. Instants and
  durations are unbounded nanosecond counts.
- The stored `Long` epochSecond and nano values are unbounded integers.
- Jackson parsing of the level configuration, `Duration.parse` (the
  durations of section 4.4.3.2 of ISO 8601:2004), `ChronoUnit.valueOf` and
  `Properties.load` with file reading. The model starts from the parsed
  values. A `ChronoUnit` is given by its duration in nanoseconds.
- `parseTemporalAmount` of `coden.core.decks.reminder.Reminder` does not
  compile, so it is not modelled. That Reminder's entries are taken with
  their delays already parsed.
- Null card sides, null instants and null strings, except where a null
  check is the behaviour that matters. The builder, `createCard`,
  `UserEntry`, `Config` and the stored instant map model the null with
  `Option`.
- HashSet iteration order. The store and the level sets are kept as
  insertion-ordered sequences. The store's query results are stated up to
  membership and multiplicity. A level set's contents are stated through
  its lookups.
- DeckModel.FindCards: stability of `sorted` for cards with equal overtime
  is not stated. The contract states sortedness and that no card is added.
- `String.hashCode` works on UTF-16 code units. `Users.StringHash` uses one
  Dafny character per unit, so characters outside the Basic Multilingual
  Plane are not modelled.
- `setUser` of the deck models and of both `FakeDatabase` classes has no
  effect on the modelled state, so it has no member.
- The pass-through members `getAllCards`, `getFrontSide`, `getBackSide`,
  `showFirstSide` and the plain getters are the fields of `Cards.Card`.
- The `UserEntry` classes of `coden.cards.user` and `coden.core.decks.user`
  are plain holders. The `FirebaseConfig` classes only read strings from
  properties.
- The exception classes appear only as `Outcomes.Error` values.
- DeckModel.KnowLevelSteps: states the step for levels below
  Integer.MAX_VALUE only. At MAX_VALUE the addition overflows, and
  DeckModel.KnowAtLargestIntWraps states that case.
- DeckModel.DontKnowLevelSteps: states the step for levels above
  Integer.MIN_VALUE only. There the subtraction overflows.
- DeckModel.AnswersKeepLevelInRange: requires the level to be strictly
  between the int extremes, where neither answer overflows.
- DeckModel.ViewsPartitionStore: requires every stored card at or below
  max - 1 to have a configured level, otherwise the ready and pending finders
  throw; done cards need no delay. It also requires a maximum above
  Integer.MIN_VALUE, otherwise max - 1 wraps and the ready and done views
  overlap.
- LevelConfig.RevisionLevelsFromConfig, LevelConfig.RevisionLevelsFromCollection,
  Schedule.Dedup, Schedule.DedupLevels, Schedule.DedupLookup and
  Revision.RevisionManagerImpl: the `coden.decks.core.revision`
  `RevisionLevel` class is not part of this model. The duplicate check and
  every HashSet of levels rely on its equality, which is taken to be the
  shown sibling's (by level number).
- LevelConfig.CardsReminderFromEntries: the `coden.cards.reminder`
  `ReminderLevel` class behind the `levels.contains` check is not part of
  this model. Its equality is taken to be by level number, as in the shown
  `coden.core.decks.reminder.ReminderLevel`.
- Cards.FrontBackTextInjective: "Card<front:back>" is stated injective only
  for fronts without a colon. With a colon in the front, two cards can print
  alike.

## Findings

| source | as written | input that shows it | evidently intended | confidence | as-written member | corrected member |
|---|---|---|---|---|---|---|
| src/main/java/coden/cards/config/Config.java:21-28 | The field initializer `sender = getString("sender")` runs before the constructor body assigns `properties`, so `getProperty` dereferences null. | Any properties at all, for instance {"sender": "a@b"} | The sender is read from the given properties, and construction fails only for null properties or a missing "sender". | high (not executed) | Config.CardsConfigNeverConstructs | Config.NewCardsConfig |
| src/main/java/coden/core/decks/model/SimpleDecks.java:79-81 | getNextCard returns the head of the pending list, cards not yet due, and throws when nothing is pending. src/main/java/coden/cards/model/SimpleModel.java:78-80 and src/main/java/coden/cards/model/CardModelImpl.java:79-81 do the same. The interface comment at src/main/java/coden/core/decks/model/DecksModel.java:91-97 promises the next card to be reviewed. | Levels {0: 10 ns, 1: 20 ns}, one card at level 0 reviewed at instant 0, now = 10 | The head of the ready list, the most overdue due card, or none when no card is due, as in src/main/java/coden/decks/core/model/Decks.java:148-150. | medium (not executed) | DeckModel.NextPendingCardMissesDueCard | DeckModel.NextReadyCard |

Where the code and its tests disagree, the model follows the code:

- `RevisionManagerImpl.getMaxLevel` is the highest level plus one
  (src/main/java/coden/decks/core/revision/RevisionManagerImpl.java:44-50).
- An unset builder level throws `IllegalStateException`
  (src/main/java/coden/decks/core/data/SimpleCard.java:143-147).
