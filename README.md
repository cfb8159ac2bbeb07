# Persistence service of the email scheduler, in Dafny

The email scheduler keeps emails waiting to be sent in a durable scheduling
queue, the persistence service. Each email travels as a scheduling record:
an id, a scheduled time, an assigned and a desired priority, and the email
itself. The service keeps records in two structures of a key-value store:

- the value store maps a record id to its record;
- one ordering set per priority holds an (id, score) entry for every record
  of that priority. The score is the record's scheduled time. An ordering
  set has a fixed name made from its priority, and it no longer exists once
  it is empty.

Its operations are:

- `add`, `addAll`, `get` and `remove`;
- `getNextBatch(priority, n)`, which dequeues the n earliest records of one
  priority;
- `getNextBatch(n)`, which dequeues the n earliest records of any priority,
  chosen by time alone.

Both dequeue forms return the records in ascending scheduled time and delete
them from the store. Null arguments raise a NullPointerException. A
non-positive batch size raises an IllegalArgumentException with the message
"Batch size should be a positive integer.".

The model has five modules:

- `Wrappers` (`wrappers.dfy`): `Option`, `Result` and `Outcome`. They stand
  in for Java's nullable arguments and exceptions.
- `OrderingKeys` (`ordering_keys.dfy`): the names of the ordering sets, a
  fixed prefix followed by the priority in decimal. It proves that distinct
  priorities never share a name.
- `ScoredSets` (`scored_sets.dfy`): the sorted-set primitive.
  - `IsEarliest` specifies a batch: distinct members, ascending scores, as
    many as asked for (or all of the pool), and no member left behind
    scoring lower than one taken.
  - `RangeLowest` is the loop that takes such a batch from one ordering set.
  - `MergedLowest` builds the batch over all priorities: it takes each
    priority's n earliest as candidates, then the n earliest among those.
    `LowestOfPrefixes` proves the result is an earliest-n batch of all
    ordering sets together. With equal scores there can be several such
    batches, and the result is one of them.
- `Persistence` (`persistence.dfy`): the class `PersistenceService`.
  - Its fields are `values` (the value store) and `ordering` (priority to
    ordering set).
  - `Valid()` is the cross-structure invariant. It is stated as the
    module-level predicate `Consistent`.
  - Each operation is a method proved against specification functions
    (`Insert`, `InsertAll`, `WithEntry`, `WithoutEntry`, `EntriesOf`,
    `AllEntries`).
- `Scenarios` (`scenarios.dfy`): client methods that replay the
  repository's tests on a fresh service. Their contracts state what the
  caller observes.

The model follows the behaviour that the service's test class,
`DefaultPersistenceServiceTest.java`, fixes; where the tests leave a choice
open, the model's choice is listed under "Left out".

## Model

Every source cell cites lines of the service's test class,
`DefaultPersistenceServiceTest.java`, by its path in the repository.

| member | source | states |
|---|---|---|
| Persistence.PersistenceService.Add | spring-boot-email-core/src/test/java/it/ozimov/springboot/templating/mail/service/defaultimpl/DefaultPersistenceServiceTest.java:105-149 | A null record fails with NullPointer and changes nothing. Otherwise the value store becomes `Insert(old, r)`. A new id also adds the record's entry to its priority's ordering set (`WithEntry`), while a stored id leaves the ordering sets as they were. Afterwards the ordering set of the stored record's priority exists, and the invariant holds. |
| Persistence.PersistenceService.AddAll | spring-boot-email-core/src/test/java/it/ozimov/springboot/templating/mail/service/defaultimpl/DefaultPersistenceServiceTest.java:308-366 | A null collection fails with NullPointer and changes nothing. Otherwise the records before the first null element are added in order: the store becomes `InsertAll` of them. The result is Pass exactly when no element is null. |
| Persistence.PersistenceService.Get | spring-boot-email-core/src/test/java/it/ozimov/springboot/templating/mail/service/defaultimpl/DefaultPersistenceServiceTest.java:197-242 | A null id fails with NullPointer. Otherwise the result is present exactly when the id is stored, and it is then the record stored under that id. |
| Persistence.PersistenceService.Remove | spring-boot-email-core/src/test/java/it/ozimov/springboot/templating/mail/service/defaultimpl/DefaultPersistenceServiceTest.java:244-305 | A null id fails with NullPointer. Otherwise the result tells whether the id was stored, and the value store loses that id. The ordering sets lose the record's entry (`WithoutEntry`, which drops an emptied set), or stay as they were when the id was absent. No entry keeps the id, and the invariant holds. |
| Persistence.PersistenceService.GetNextBatchFor | spring-boot-email-core/src/test/java/it/ozimov/springboot/templating/mail/service/defaultimpl/DefaultPersistenceServiceTest.java:368-444 | A batch size ≤ 0 fails with IllegalArgument("Batch size should be a positive integer.") and changes nothing. Otherwise the batch's entries are the `IsEarliest` batch of that priority's records: the earliest ones, in ascending time, as many as asked for or all there are. Every record has that priority and is the stored one. The store loses exactly the batch's ids. |
| Persistence.PersistenceService.GetNextBatch | spring-boot-email-core/src/test/java/it/ozimov/springboot/templating/mail/service/defaultimpl/DefaultPersistenceServiceTest.java:446-520 | The same as above over the records of all priorities together: the batch is the earliest by time alone, whatever the priority. |
| Persistence.AddKeepsConsistent | spring-boot-email-core/src/test/java/it/ozimov/springboot/templating/mail/service/defaultimpl/DefaultPersistenceServiceTest.java:114-149 | Storing a record with a new id, together with its entry in its priority's ordering set, keeps the two structures consistent. |
| Persistence.RemoveKeepsConsistent | spring-boot-email-core/src/test/java/it/ozimov/springboot/templating/mail/service/defaultimpl/DefaultPersistenceServiceTest.java:253-287 | Deleting a stored record, together with its entry, keeps the structures consistent, and no entry is left with its id. |
| Persistence.PersistenceService.BucketIsEntriesOf | spring-boot-email-core/src/test/java/it/ozimov/springboot/templating/mail/service/defaultimpl/DefaultPersistenceServiceTest.java:392-419 | Under the invariant, a priority's ordering set holds exactly the entries of the records of that priority, and it is empty when that priority has no ordering set. |
| Persistence.PersistenceService.OrderingIsAllEntries | spring-boot-email-core/src/test/java/it/ozimov/springboot/templating/mail/service/defaultimpl/DefaultPersistenceServiceTest.java:465-494 | Under the invariant, the ordering sets together hold exactly the entries of all stored records. |
| Persistence.InsertAllStoresEvery | spring-boot-email-core/src/test/java/it/ozimov/springboot/templating/mail/service/defaultimpl/DefaultPersistenceServiceTest.java:317-366 | After adding records, the stored ids are the earlier ones plus the records' ids, and every record sits under its own id. |
| Persistence.InsertAllFresh | spring-boot-email-core/src/test/java/it/ozimov/springboot/templating/mail/service/defaultimpl/DefaultPersistenceServiceTest.java:317-366 | Records with new, distinct ids are stored exactly as given. |
| Persistence.InsertAllKeepsStored | spring-boot-email-core/src/test/java/it/ozimov/springboot/templating/mail/service/defaultimpl/DefaultPersistenceServiceTest.java:151-189 | Adding records never changes a record that is already stored. |
| Persistence.InsertAllNoNewIds | spring-boot-email-core/src/test/java/it/ozimov/springboot/templating/mail/service/defaultimpl/DefaultPersistenceServiceTest.java:226-242 | Adding records stores nothing under an id that none of them has. |
| Persistence.AddTwiceKeepsOneRecord | spring-boot-email-core/src/test/java/it/ozimov/springboot/templating/mail/service/defaultimpl/DefaultPersistenceServiceTest.java:151-189 | Adding two records with one id adds exactly that one id, and the record under it has that id. |
| Persistence.AddTwiceKeepsFirst | spring-boot-email-core/src/test/java/it/ozimov/springboot/templating/mail/service/defaultimpl/DefaultPersistenceServiceTest.java:151-189 | When the id is new, the record kept after two adds is the first one. |
| Persistence.OrderingKeyNamesOnePriority | spring-boot-email-core/src/test/java/it/ozimov/springboot/templating/mail/service/defaultimpl/DefaultPersistenceServiceTest.java:330-335 | A priority's ordering-set name is among the names present exactly when that priority has an ordering set. |
| Persistence.EntriesAfterDequeue | spring-boot-email-core/src/test/java/it/ozimov/springboot/templating/mail/service/defaultimpl/DefaultPersistenceServiceTest.java:392-419 | Deleting a batch of stored records from a well-keyed store leaves each priority with exactly its earlier entries minus the batch's entries. |
| Persistence.AllEntriesAfterDequeue | spring-boot-email-core/src/test/java/it/ozimov/springboot/templating/mail/service/defaultimpl/DefaultPersistenceServiceTest.java:465-494 | The same for the entries of all priorities together. |
| Persistence.SuccessiveBatchesFor | spring-boot-email-core/src/test/java/it/ozimov/springboot/templating/mail/service/defaultimpl/DefaultPersistenceServiceTest.java:392-444 | Two results of `GetNextBatchFor` on one priority, the second taken from the store the first left, together form an earliest-(n+m) batch of the original store, and no record of the second is earlier than one of the first. The tests make one call each; the second call is the dequeue's intended repeated use. |
| Persistence.SuccessiveBatches | spring-boot-email-core/src/test/java/it/ozimov/springboot/templating/mail/service/defaultimpl/DefaultPersistenceServiceTest.java:465-520 | The same for two results of `GetNextBatch` across all priorities. |
| Scenarios.TwoBatchesFor | spring-boot-email-core/src/test/java/it/ozimov/springboot/templating/mail/service/defaultimpl/DefaultPersistenceServiceTest.java:392-444 | Two `GetNextBatchFor` calls in a row on any consistent service take that priority's n+m earliest records between them, the second no earlier than the first, and the store loses exactly both batches' ids. |
| Scenarios.TwoBatches | spring-boot-email-core/src/test/java/it/ozimov/springboot/templating/mail/service/defaultimpl/DefaultPersistenceServiceTest.java:465-520 | The same for two `GetNextBatch` calls in a row across all priorities. |
| OrderingKeys.OrderingKeyInjective | spring-boot-email-core/src/test/java/it/ozimov/springboot/templating/mail/service/defaultimpl/DefaultPersistenceServiceTest.java:326-335 | Distinct priorities have distinct ordering-set names. |
| OrderingKeys.OrderingKey | spring-boot-email-core/src/test/java/it/ozimov/springboot/templating/mail/service/defaultimpl/DefaultPersistenceServiceTest.java:120 | The name of a priority's ordering set starts with the fixed prefix and has something after it. |
| ScoredSets.RangeLowest | spring-boot-email-core/src/test/java/it/ozimov/springboot/templating/mail/service/defaultimpl/DefaultPersistenceServiceTest.java:392-444 | The range query on one ordering set returns an `IsEarliest` batch of it. |
| ScoredSets.MinEntry | spring-boot-email-core/src/test/java/it/ozimov/springboot/templating/mail/service/defaultimpl/DefaultPersistenceServiceTest.java:392-419 | Returns a member of a non-empty pool that no other member scores below. |
| ScoredSets.Candidates | spring-boot-email-core/src/test/java/it/ozimov/springboot/templating/mail/service/defaultimpl/DefaultPersistenceServiceTest.java:465-494 | The candidates are the union, over every priority, of that priority's n lowest entries. |
| ScoredSets.MergedLowest | spring-boot-email-core/src/test/java/it/ozimov/springboot/templating/mail/service/defaultimpl/DefaultPersistenceServiceTest.java:465-494 | Merging the per-priority candidates gives an `IsEarliest` batch of all ordering sets together. |
| ScoredSets.LowestOfPrefixes | spring-boot-email-core/src/test/java/it/ozimov/springboot/templating/mail/service/defaultimpl/DefaultPersistenceServiceTest.java:465-494 | If each priority offers its n lowest entries, the n lowest of the offers are the n lowest of everything. |
| ScoredSets.ConsecutiveBatches | spring-boot-email-core/src/test/java/it/ozimov/springboot/templating/mail/service/defaultimpl/DefaultPersistenceServiceTest.java:465-494 | An earliest-n batch followed by an earliest-m batch of what is left is together an earliest-(n+m) batch. Every member of the first scores no higher than any member of the second. |
| ScoredSets.EarliestIsPrefix | spring-boot-email-core/src/test/java/it/ozimov/springboot/templating/mail/service/defaultimpl/DefaultPersistenceServiceTest.java:465-494 | When all scores differ, the batch is exactly the first n of the members listed in ascending score. |
| ScoredSets.LowestUniqueAtGap | spring-boot-email-core/src/test/java/it/ozimov/springboot/templating/mail/service/defaultimpl/DefaultPersistenceServiceTest.java:392-419 | When every member taken scores strictly below every member left, the set of the n lowest is unique. |
| Scenarios.NullArgumentsRejected | spring-boot-email-core/src/test/java/it/ozimov/springboot/templating/mail/service/defaultimpl/DefaultPersistenceServiceTest.java:105-112 | add, addAll, get and remove all refuse null with NullPointer. The same holds for the tests at lines 197-204, 244-251 and 308-315. |
| Scenarios.AddThenGet | spring-boot-email-core/src/test/java/it/ozimov/springboot/templating/mail/service/defaultimpl/DefaultPersistenceServiceTest.java:114-224 | On an empty store, the priority's ordering set is absent before the add and present after it, and get returns the record added. |
| Scenarios.AddTwice | spring-boot-email-core/src/test/java/it/ozimov/springboot/templating/mail/service/defaultimpl/DefaultPersistenceServiceTest.java:151-189 | Two adds with one id leave exactly one stored id, and get returns the first record. |
| Scenarios.GetMissing | spring-boot-email-core/src/test/java/it/ozimov/springboot/templating/mail/service/defaultimpl/DefaultPersistenceServiceTest.java:226-242 | get on an id never added returns nothing. |
| Scenarios.RemovePresent | spring-boot-email-core/src/test/java/it/ozimov/springboot/templating/mail/service/defaultimpl/DefaultPersistenceServiceTest.java:253-287 | Removing an added record returns true, and get then returns nothing. |
| Scenarios.RemoveMissing | spring-boot-email-core/src/test/java/it/ozimov/springboot/templating/mail/service/defaultimpl/DefaultPersistenceServiceTest.java:289-305 | Removing an id never added returns false. |
| Scenarios.AddAllStoresEvery | spring-boot-email-core/src/test/java/it/ozimov/springboot/templating/mail/service/defaultimpl/DefaultPersistenceServiceTest.java:317-366 | Adding records with distinct ids in one call stores every one under its id, stores nothing else, and creates the ordering set of each of their priorities. |
| Scenarios.ZeroBatchRejected | spring-boot-email-core/src/test/java/it/ozimov/springboot/templating/mail/service/defaultimpl/DefaultPersistenceServiceTest.java:368-378 | Both dequeue forms refuse batch size 0 with the message "Batch size should be a positive integer.". The same holds for the test at lines 446-454. |
| Scenarios.EmptyStoreBatches | spring-boot-email-core/src/test/java/it/ozimov/springboot/templating/mail/service/defaultimpl/DefaultPersistenceServiceTest.java:380-390 | Both dequeue forms return an empty batch from an empty store. The same holds for the test at lines 456-463. |
| Scenarios.BatchForOnePriority | spring-boot-email-core/src/test/java/it/ozimov/springboot/templating/mail/service/defaultimpl/DefaultPersistenceServiceTest.java:392-419 | Three records of priority 1, the third strictly later, and two of priority 2. A batch of 2 from priority 1 is exactly the first two records. |
| Scenarios.BatchForOnePriorityExceeding | spring-boot-email-core/src/test/java/it/ozimov/springboot/templating/mail/service/defaultimpl/DefaultPersistenceServiceTest.java:421-444 | Asking priority 1 for 5 records when it holds 3 returns those 3 and nothing else. |
| Scenarios.BatchAcrossPriorities | spring-boot-email-core/src/test/java/it/ozimov/springboot/templating/mail/service/defaultimpl/DefaultPersistenceServiceTest.java:465-494 | Records of priorities 1 and 2 interleaved in time (1, 2, 2, 1, 1). The batch of 3 is the three earliest, in time order, whatever their priority. The test makes only the batch-of-3 call; the contract adds the next call, a batch of 10, which returns the remaining two in time order. |
| Scenarios.BatchExceeding | spring-boot-email-core/src/test/java/it/ozimov/springboot/templating/mail/service/defaultimpl/DefaultPersistenceServiceTest.java:496-520 | Asking for 5 records across priorities when 3 are stored, at increasing times, returns those 3 in time order. |
| Scenarios.EarliestRecords | spring-boot-email-core/src/test/java/it/ozimov/springboot/templating/mail/service/defaultimpl/DefaultPersistenceServiceTest.java:465-520 | From a store whose records have distinct times, a batch across priorities is exactly the first n of them in time order. |
| Scenarios.AcrossOutcome | spring-boot-email-core/src/test/java/it/ozimov/springboot/templating/mail/service/defaultimpl/DefaultPersistenceServiceTest.java:465-494 | Two batches in a row across priorities take the first n records in time order, then the rest. |

## Left out

- The key-value store itself is not modelled: the Redis connection, the
  templates and their bound operations, and the serialization of records.
  The two structures are maps held in the class's fields.
- The tests' in-order checks of which template is called first are not
  modelled, because the model makes no calls into the store.
- The transaction hooks are not modelled. The model has no transactions, and
  existence checks are made on the model's own state.
  - In the remove test, the after-transaction check expects both the value
    key and the ordering key to still exist.
  - The model drops an ordering set once it is empty, as the store does for
    an empty sorted set.
- The check that a value key looks like a UUID is left out. Ids are opaque
  strings.
- The email payload is an opaque string that the service never inspects.
  The desired priority is carried but never used, as in the tests.
- Clocks and sleeps are not modelled. Scheduled times are integers given by
  the caller. The scenarios state, as preconditions, the time order that the
  tests' one-millisecond sleeps are meant to produce.
- Concurrency and per-call atomicity are not modelled.
  - `addAll` adds the records one at a time, and a null element stops it
    with the earlier records kept.
  - A dequeue removes the batch's records one at a time.
- Persistence.PersistenceService.GetNextBatchFor: records with equal
  scheduled times may come in any order among themselves. The store breaks
  such ties by member order; the model does not fix a tie order.
- Persistence.PersistenceService.GetNextBatch: the same holds for ties.
- Priorities are natural numbers. A negative priority is not modelled.
- The batch size and all other numbers are unbounded integers. Java's 32-bit
  `int` width and its overflow are not modelled.
- OrderingKeys.OrderingKey: the prefix text of ordering-set names is a
  stand-in. The model only relies on it being fixed.
- Persistence.PersistenceService.Add: adding a record whose id is already
  stored keeps the first record (insert-if-absent).
  - The test at lines 151-189 is named as a replacement, and its assertion
    message reads "Should not have been replaced". Yet it expects `get` to
    return the second record.
  - The model keeps the original. It proves the part on which all of these
    agree: exactly one record remains under that id
    (`AddTwiceKeepsOneRecord`).
