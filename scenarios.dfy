/**
  Client scenarios on a fresh service: each one adds, reads, removes or
  dequeues records the way a caller of the persistence service does, and its
  contract states what the caller observes.
*/
module Scenarios {
  import opened Wrappers
  import opened ScoredSets
  import opened OrderingKeys
  import opened Persistence

  /** A collection of records with no null element. */
  function AllPresent(rs: seq<SchedulingData>): (data: seq<Option<SchedulingData>>)
    ensures |data| == |rs| && forall i :: 0 <= i < |rs| ==> data[i].Some?
    ensures Unwrapped(data) == rs
  {
    seq(|rs|, i requires 0 <= i < |rs| => Some(rs[i]))
  }

  predicate DistinctIds(rs: seq<SchedulingData>) {
    forall i, j :: 0 <= i < j < |rs| ==> rs[i].id != rs[j].id
  }

  /** A fresh service after adding records with distinct ids in one call. */
  method Filled(rs: seq<SchedulingData>) returns (service: PersistenceService, result: Outcome<Error>)
    requires DistinctIds(rs)
    ensures fresh(service) && service.Valid()
    ensures result == Pass
    ensures service.values.Keys == Ids(rs) && StoredIn(service.values, rs)
  {
    service := new PersistenceService();
    var data := AllPresent(rs);
    FirstNullAt(data, |rs|);
    assert data[..|rs|] == data;
    result := service.AddAll(Some(data));
    InsertAllStoresEvery(map[], rs);
    InsertAllFresh(map[], rs);
  }

  /** Null arguments are refused by every operation that takes one. */
  method NullArgumentsRejected()
    returns (added: Outcome<Error>, addedAll: Outcome<Error>, got: Result<Option<SchedulingData>, Error>, removed: Result<bool, Error>)
    ensures added == Fail(NullPointer) && addedAll == Fail(NullPointer)
    ensures got == Failure(NullPointer) && removed == Failure(NullPointer)
  {
    var service := new PersistenceService();
    added := service.Add(None);
    addedAll := service.AddAll(None);
    got := service.Get(None);
    removed := service.Remove(None);
  }

  /**
    Adding a record to an empty store creates the ordering set of its
    priority, and the record can then be read back by its id.
  */
  method AddThenGet(r: SchedulingData)
    returns (keysBefore: set<string>, keysAfter: set<string>, got: Result<Option<SchedulingData>, Error>)
    ensures OrderingKey(r.assignedPriority) !in keysBefore
    ensures OrderingKey(r.assignedPriority) in keysAfter
    ensures got == Success(Some(r))
  {
    var service := new PersistenceService();
    keysBefore := service.OrderingSetNames();
    var _ := service.Add(Some(r));
    keysAfter := service.OrderingSetNames();
    got := service.Get(Some(r.id));
  }

  /** Reading an id that was never added gives nothing. */
  method GetMissing(id: string) returns (got: Result<Option<SchedulingData>, Error>)
    ensures got == Success(None)
  {
    var service := new PersistenceService();
    got := service.Get(Some(id));
  }

  /**
    Adding two records with one id keeps a single record under it: the
    first one, since adding does not replace.
  */
  method AddTwice(first: SchedulingData, second: SchedulingData)
    returns (ids: set<string>, got: Result<Option<SchedulingData>, Error>)
    requires second.id == first.id
    ensures ids == {first.id}
    ensures got == Success(Some(first))
  {
    var service := new PersistenceService();
    var _ := service.Add(Some(first));
    var _ := service.Add(Some(second));
    ids := service.values.Keys;
    got := service.Get(Some(first.id));
  }

  /** Removing a stored record reports true, and the record is gone afterwards. */
  method RemovePresent(r: SchedulingData)
    returns (removed: Result<bool, Error>, got: Result<Option<SchedulingData>, Error>)
    ensures removed == Success(true)
    ensures got == Success(None)
  {
    var service := new PersistenceService();
    var _ := service.Add(Some(r));
    removed := service.Remove(Some(r.id));
    got := service.Get(Some(r.id));
  }

  /** Removing an id that was never added reports false. */
  method RemoveMissing(id: string) returns (removed: Result<bool, Error>)
    ensures removed == Success(false)
  {
    var service := new PersistenceService();
    removed := service.Remove(Some(id));
  }

  /**
    Adding a collection of records with distinct ids stores every one of
    them and creates the ordering set of every priority they have.
  */
  method AddAllStoresEvery(rs: seq<SchedulingData>)
    returns (result: Outcome<Error>, stored: map<string, SchedulingData>, keys: set<string>)
    requires DistinctIds(rs)
    ensures result == Pass
    ensures stored.Keys == Ids(rs)
    ensures forall i :: 0 <= i < |rs| ==> stored[rs[i].id] == rs[i]
    ensures forall i :: 0 <= i < |rs| ==> OrderingKey(rs[i].assignedPriority) in keys
  {
    var service;
    service, result := Filled(rs);
    stored := service.values;
    keys := service.OrderingSetNames();
    forall i | 0 <= i < |rs| ensures OrderingKey(rs[i].assignedPriority) in keys {
      assert rs[i].id in service.values;
    }
  }

  /** A batch size of zero is refused by both forms of dequeue. */
  method ZeroBatchRejected(priority: nat)
    returns (forPriority: Result<seq<SchedulingData>, Error>, overall: Result<seq<SchedulingData>, Error>)
    ensures forPriority == Failure(IllegalArgument("Batch size should be a positive integer."))
    ensures overall == Failure(IllegalArgument("Batch size should be a positive integer."))
  {
    var service := new PersistenceService();
    forPriority := service.GetNextBatchFor(priority, 0);
    overall := service.GetNextBatch(0);
  }

  /** Dequeuing from an empty store gives an empty batch in both forms. */
  method EmptyStoreBatches(priority: nat)
    returns (forPriority: Result<seq<SchedulingData>, Error>, overall: Result<seq<SchedulingData>, Error>)
    ensures forPriority == Success([])
    ensures overall == Success([])
  {
    var service := new PersistenceService();
    forPriority := service.GetNextBatchFor(priority, 100);
    ElemsEmpty(EntriesOfBatch(forPriority.value));
    overall := service.GetNextBatch(100);
    ElemsEmpty(EntriesOfBatch(overall.value));
  }

  // ----- Batches over a filled store -----

  /** The records of a batch, as a set. */
  function Members(batch: seq<SchedulingData>): set<SchedulingData> {
    set r | r in batch
  }

  /** The records are listed in strictly ascending scheduled time. */
  predicate InTimeOrder(rs: seq<SchedulingData>) {
    forall i, j :: 0 <= i < j < |rs| ==> rs[i].scheduledTime < rs[j].scheduledTime
  }

  /** The entries of a store filled with the given records are those records' entries. */
  lemma StoredEntries(values: map<string, SchedulingData>, rs: seq<SchedulingData>, p: nat)
    requires values.Keys == Ids(rs) && StoredIn(values, rs)
    ensures AllEntries(values) == Elems(EntriesOfBatch(rs))
    ensures EntriesOf(values, p) == set r | r in rs && r.assignedPriority == p :: Key(r)
  {
    forall e | e in AllEntries(values) ensures e in Elems(EntriesOfBatch(rs)) {
      var id :| id in values && Key(values[id]) == e;
      var i :| 0 <= i < |rs| && rs[i].id == id;
      assert EntriesOfBatch(rs)[i] == e;
    }
    forall i | 0 <= i < |rs| ensures EntriesOfBatch(rs)[i] in AllEntries(values) {
      assert rs[i].id in values;
    }
    forall e | e in EntriesOf(values, p) ensures e in set r | r in rs && r.assignedPriority == p :: Key(r) {
      var id :| id in values && values[id].assignedPriority == p && Key(values[id]) == e;
      var i :| 0 <= i < |rs| && rs[i].id == id;
    }
    forall r | r in rs && r.assignedPriority == p ensures Key(r) in EntriesOf(values, p) {
      var i :| 0 <= i < |rs| && rs[i] == r;
      assert r.id in values;
    }
  }

  /** Records that are stored keep being so when part of them is looked at. */
  lemma StoredInSub(values: map<string, SchedulingData>, rs: seq<SchedulingData>, sub: seq<SchedulingData>)
    requires StoredIn(values, rs) && Members(sub) <= Members(rs)
    ensures StoredIn(values, sub)
  {
    forall i | 0 <= i < |sub| ensures sub[i].id in values && values[sub[i].id] == sub[i] {
      assert sub[i] in Members(rs);
      var j :| 0 <= j < |rs| && rs[j] == sub[i];
    }
  }

  /** The same records, listed in two orders, have the same entries. */
  lemma SameMembersSameEntries(a: seq<SchedulingData>, b: seq<SchedulingData>)
    requires Members(a) == Members(b)
    ensures Elems(EntriesOfBatch(a)) == Elems(EntriesOfBatch(b))
  {
    forall i | 0 <= i < |a| ensures EntriesOfBatch(a)[i] in Elems(EntriesOfBatch(b)) {
      assert a[i] in Members(b);
      var j :| 0 <= j < |b| && b[j] == a[i];
      assert EntriesOfBatch(b)[j] == EntriesOfBatch(a)[i];
    }
    forall j | 0 <= j < |b| ensures EntriesOfBatch(b)[j] in Elems(EntriesOfBatch(a)) {
      assert b[j] in Members(a);
      var i :| 0 <= i < |a| && a[i] == b[j];
      assert EntriesOfBatch(a)[i] == EntriesOfBatch(b)[j];
    }
  }

  /** Records with distinct ids, listed again in strict time order, still have distinct ids. */
  lemma DistinctIdsReordered(rs: seq<SchedulingData>, ordered: seq<SchedulingData>)
    requires DistinctIds(rs) && Members(ordered) == Members(rs) && InTimeOrder(ordered)
    ensures DistinctIds(ordered)
  {
    forall i, j | 0 <= i < j < |ordered| ensures ordered[i].id != ordered[j].id {
      assert ordered[i] in Members(rs) && ordered[j] in Members(rs);
      var a :| 0 <= a < |rs| && rs[a] == ordered[i];
      var b :| 0 <= b < |rs| && rs[b] == ordered[j];
      assert ordered[i].scheduledTime < ordered[j].scheduledTime;
    }
  }

  /** A batch whose entries are those of some stored records holds exactly those records. */
  lemma MembersOfKeys(values: map<string, SchedulingData>, batch: seq<SchedulingData>, rs: seq<SchedulingData>)
    requires StoredIn(values, rs) && StoredIn(values, batch)
    requires Elems(EntriesOfBatch(batch)) == Elems(EntriesOfBatch(rs))
    ensures Members(batch) == Members(rs)
  {
    forall i | 0 <= i < |batch| ensures batch[i] in Members(rs) {
      assert EntriesOfBatch(batch)[i] in Elems(EntriesOfBatch(rs));
      var j :| 0 <= j < |rs| && EntriesOfBatch(rs)[j] == EntriesOfBatch(batch)[i];
      assert rs[j] == batch[i];
    }
    forall j | 0 <= j < |rs| ensures rs[j] in Members(batch) {
      assert EntriesOfBatch(rs)[j] in Elems(EntriesOfBatch(batch));
      var i :| 0 <= i < |batch| && EntriesOfBatch(batch)[i] == EntriesOfBatch(rs)[j];
      assert rs[j] == batch[i];
    }
  }

  /** A batch whose entries list those of some stored records, in order, is those records in that order. */
  lemma RecordsOfKeys(values: map<string, SchedulingData>, batch: seq<SchedulingData>, rs: seq<SchedulingData>)
    requires StoredIn(values, rs) && StoredIn(values, batch)
    requires EntriesOfBatch(batch) == EntriesOfBatch(rs)
    ensures batch == rs
  {
    forall i | 0 <= i < |batch| ensures batch[i] == rs[i] {
      assert EntriesOfBatch(batch)[i] == EntriesOfBatch(rs)[i];
    }
  }

  /**
    From a store filled with records that have their own scheduled times, a
    batch across all priorities is exactly the first n of those records in
    time order.
  */
  lemma EarliestRecords(values: map<string, SchedulingData>, rs: seq<SchedulingData>, ordered: seq<SchedulingData>,
                        batch: seq<SchedulingData>, n: nat)
    requires values.Keys == Ids(rs) && StoredIn(values, rs)
    requires Members(ordered) == Members(rs) && InTimeOrder(ordered)
    requires IsEarliest(AllEntries(values), EntriesOfBatch(batch), n)
    requires StoredIn(values, batch)
    ensures batch == ordered[..Min(n, |ordered|)]
  {
    var k := Min(n, |ordered|);
    StoredEntries(values, rs, 0);
    SameMembersSameEntries(ordered, rs);
    assert StrictlyAscending(EntriesOfBatch(ordered));
    EarliestIsPrefix(EntriesOfBatch(ordered), EntriesOfBatch(batch), n);
    assert EntriesOfBatch(ordered)[..k] == EntriesOfBatch(ordered[..k]);
    assert Members(ordered[..k]) <= Members(ordered) by {
      forall i | 0 <= i < k ensures ordered[..k][i] in Members(ordered) {
        assert ordered[..k][i] == ordered[i];
      }
    }
    StoredInSub(values, rs, ordered[..k]);
    RecordsOfKeys(values, batch, ordered[..k]);
  }

  /** The same records, listed in two orders, have the same ids. */
  lemma SameMembersSameIds(a: seq<SchedulingData>, b: seq<SchedulingData>)
    requires Members(a) == Members(b)
    ensures Ids(a) == Ids(b)
  {
    forall id | id in Ids(a) ensures id in Ids(b) {
      var r :| r in a && r.id == id;
      assert r in Members(b);
    }
    forall id | id in Ids(b) ensures id in Ids(a) {
      var r :| r in b && r.id == id;
      assert r in Members(a);
    }
  }

  /** Cutting records with distinct ids in two splits their ids in two disjoint parts. */
  lemma IdsSplit(rs: seq<SchedulingData>, k: nat)
    requires DistinctIds(rs) && k <= |rs|
    ensures Ids(rs) == Ids(rs[..k]) + Ids(rs[k..])
    ensures forall i :: 0 <= i < |rs| - k ==> rs[k..][i].id !in Ids(rs[..k])
  {
    assert rs == rs[..k] + rs[k..];
    forall i | 0 <= i < |rs| - k ensures rs[k..][i].id !in Ids(rs[..k]) {
      forall j | 0 <= j < k ensures rs[..k][j].id != rs[k..][i].id {
        assert rs[..k][j] == rs[j] && rs[k..][i] == rs[k + i];
      }
    }
  }

  /** Removing the first k records, in time order, leaves a store of the others. */
  lemma RemainingStore(values: map<string, SchedulingData>, rs: seq<SchedulingData>, ordered: seq<SchedulingData>, k: nat)
    requires values.Keys == Ids(rs) && StoredIn(values, rs)
    requires DistinctIds(rs) && Members(ordered) == Members(rs) && InTimeOrder(ordered)
    requires k <= |ordered|
    ensures (values - Ids(ordered[..k])).Keys == Ids(ordered[k..])
    ensures StoredIn(values - Ids(ordered[..k]), ordered[k..])
    ensures InTimeOrder(ordered[k..])
  {
    DistinctIdsReordered(rs, ordered);
    SameMembersSameIds(rs, ordered);
    IdsSplit(ordered, k);
    var front, back := ordered[..k], ordered[k..];
    assert Members(back) <= Members(rs) by {
      forall i | 0 <= i < |back| ensures back[i] in Members(ordered) {
        assert back[i] == ordered[k + i];
      }
    }
    StoredInSub(values, rs, back);
    forall i, j | 0 <= i < j < |back| ensures back[i].scheduledTime < back[j].scheduledTime {
      assert back[i] == ordered[k + i] && back[j] == ordered[k + j];
    }
  }

  /** Of three entries, the two that score strictly below the third are the two lowest. */
  lemma TwoOfThree(k1: Entry, k2: Entry, k3: Entry, batch: seq<Entry>)
    requires k1 != k2 && k1.score < k3.score && k2.score < k3.score
    requires IsEarliest({k1, k2, k3}, batch, 2)
    ensures Elems(batch) == {k1, k2} && |batch| == 2
  {
    var pool := {k1, k2, k3};
    assert |pool| == 3 && |{k1, k2}| == 2;
    LowestUniqueAtGap(pool, {k1, k2}, Elems(batch), 2);
    DistinctCard(batch);
  }

  lemma FirstPriorityEntries(a11: SchedulingData, a12: SchedulingData, a13: SchedulingData,
                             a21: SchedulingData, a22: SchedulingData)
    requires a11.assignedPriority == 1 && a12.assignedPriority == 1 && a13.assignedPriority == 1
    requires a21.assignedPriority == 2 && a22.assignedPriority == 2
    ensures (set r | r in [a11, a12, a13, a21, a22] && r.assignedPriority == 1 :: Key(r))
      == {Key(a11), Key(a12), Key(a13)}
  {
  }

  /**
    Fills a fresh store with records of distinct ids and dequeues one batch
    of a priority; the store before the dequeue is given as a ghost result.
  */
  method FilledBatchFor(rs: seq<SchedulingData>, p: nat, n: nat)
    returns (ghost v0: map<string, SchedulingData>, batch: seq<SchedulingData>)
    requires DistinctIds(rs) && n > 0
    ensures v0.Keys == Ids(rs) && StoredIn(v0, rs)
    ensures IsEarliest(EntriesOf(v0, p), EntriesOfBatch(batch), n)
    ensures StoredIn(v0, batch)
  {
    var service, _ := Filled(rs);
    v0 := service.values;
    var result := service.GetNextBatchFor(p, n);
    batch := result.value;
  }

  /**
    Fills a fresh store with records of distinct ids and dequeues one batch
    across all priorities; the store before the dequeue is given as a ghost
    result.
  */
  method FilledBatch(rs: seq<SchedulingData>, n: nat)
    returns (ghost v0: map<string, SchedulingData>, batch: seq<SchedulingData>)
    requires DistinctIds(rs) && n > 0
    ensures v0.Keys == Ids(rs) && StoredIn(v0, rs)
    ensures IsEarliest(AllEntries(v0), EntriesOfBatch(batch), n)
    ensures StoredIn(v0, batch)
  {
    var service, _ := Filled(rs);
    v0 := service.values;
    var result := service.GetNextBatch(n);
    batch := result.value;
  }

  /**
    Fills a fresh store with records of distinct ids and dequeues two
    batches across all priorities, one after the other; the store before
    each dequeue is given as a ghost result.
  */
  method FilledBatches(rs: seq<SchedulingData>, n: nat, m: nat)
    returns (ghost v0: map<string, SchedulingData>, first: seq<SchedulingData>,
             ghost v1: map<string, SchedulingData>, second: seq<SchedulingData>)
    requires DistinctIds(rs) && n > 0 && m > 0
    ensures v0.Keys == Ids(rs) && StoredIn(v0, rs)
    ensures IsEarliest(AllEntries(v0), EntriesOfBatch(first), n) && StoredIn(v0, first)
    ensures v1 == v0 - Ids(first)
    ensures IsEarliest(AllEntries(v1), EntriesOfBatch(second), m) && StoredIn(v1, second)
  {
    var service, _ := Filled(rs);
    v0 := service.values;
    var result := service.GetNextBatch(n);
    first := result.value;
    v1 := service.values;
    result := service.GetNextBatch(m);
    second := result.value;
  }

  /**
    Two dequeues of one priority in a row, on any consistent store, take
    that priority's n + m earliest records between them, the second batch
    no earlier than the first.
  */
  method TwoBatchesFor(service: PersistenceService, priority: nat, n: nat, m: nat)
    returns (first: seq<SchedulingData>, second: seq<SchedulingData>)
    requires service.Valid() && n > 0 && m > 0
    modifies service
    ensures service.Valid()
    ensures IsEarliest(EntriesOf(old(service.values), priority), EntriesOfBatch(first + second), n + m)
    ensures forall i, j :: 0 <= i < |first| && 0 <= j < |second| ==> first[i].scheduledTime <= second[j].scheduledTime
    ensures service.values == old(service.values) - Ids(first) - Ids(second)
  {
    ghost var v0 := service.values;
    var result := service.GetNextBatchFor(priority, n);
    first := result.value;
    result := service.GetNextBatchFor(priority, m);
    second := result.value;
    SuccessiveBatchesFor(v0, priority, first, n, second, m);
  }

  /** The same for two dequeues across all priorities. */
  method TwoBatches(service: PersistenceService, n: nat, m: nat)
    returns (first: seq<SchedulingData>, second: seq<SchedulingData>)
    requires service.Valid() && n > 0 && m > 0
    modifies service
    ensures service.Valid()
    ensures IsEarliest(AllEntries(old(service.values)), EntriesOfBatch(first + second), n + m)
    ensures forall i, j :: 0 <= i < |first| && 0 <= j < |second| ==> first[i].scheduledTime <= second[j].scheduledTime
    ensures service.values == old(service.values) - Ids(first) - Ids(second)
  {
    ghost var v0 := service.values;
    var result := service.GetNextBatch(n);
    first := result.value;
    result := service.GetNextBatch(m);
    second := result.value;
    SuccessiveBatches(v0, first, n, second, m);
  }

  /**
    The batch of one priority holds the two earliest records of that
    priority when a third of it comes strictly later; records of another
    priority are not considered.
  */
  method BatchForOnePriority(a11: SchedulingData, a12: SchedulingData, a13: SchedulingData,
                             a21: SchedulingData, a22: SchedulingData)
    returns (batch: seq<SchedulingData>)
    requires DistinctIds([a11, a12, a13, a21, a22])
    requires a11.assignedPriority == 1 && a12.assignedPriority == 1 && a13.assignedPriority == 1
    requires a21.assignedPriority == 2 && a22.assignedPriority == 2
    requires a11.scheduledTime < a13.scheduledTime && a12.scheduledTime < a13.scheduledTime
    ensures |batch| == 2 && Members(batch) == {a11, a12}
  {
    ghost var v0;
    v0, batch := FilledBatchFor([a11, a12, a13, a21, a22], 1, 2);
    OnePriorityOutcome(a11, a12, a13, a21, a22, v0, batch);
  }

  lemma OnePriorityOutcome(a11: SchedulingData, a12: SchedulingData, a13: SchedulingData,
                           a21: SchedulingData, a22: SchedulingData,
                           v0: map<string, SchedulingData>, batch: seq<SchedulingData>)
    requires DistinctIds([a11, a12, a13, a21, a22])
    requires a11.assignedPriority == 1 && a12.assignedPriority == 1 && a13.assignedPriority == 1
    requires a21.assignedPriority == 2 && a22.assignedPriority == 2
    requires a11.scheduledTime < a13.scheduledTime && a12.scheduledTime < a13.scheduledTime
    requires v0.Keys == Ids([a11, a12, a13, a21, a22]) && StoredIn(v0, [a11, a12, a13, a21, a22])
    requires IsEarliest(EntriesOf(v0, 1), EntriesOfBatch(batch), 2)
    requires StoredIn(v0, batch)
    ensures |batch| == 2 && Members(batch) == {a11, a12}
  {
    var rs := [a11, a12, a13, a21, a22];
    StoredEntries(v0, rs, 1);
    FirstPriorityEntries(a11, a12, a13, a21, a22);
    assert rs[0] == a11 && rs[1] == a12;
    TwoOfThree(Key(a11), Key(a12), Key(a13), EntriesOfBatch(batch));
    TwoMembers(v0, batch, a11, a12);
  }

  /** The batch records named by two entries are the two records stored under their ids. */
  lemma TwoMembers(values: map<string, SchedulingData>, batch: seq<SchedulingData>, a: SchedulingData, b: SchedulingData)
    requires a.id in values && values[a.id] == a && b.id in values && values[b.id] == b
    requires StoredIn(values, batch)
    requires Elems(EntriesOfBatch(batch)) == {Key(a), Key(b)}
    ensures Members(batch) == {a, b}
  {
    forall i | 0 <= i < |batch| ensures batch[i] == a || batch[i] == b {
      assert EntriesOfBatch(batch)[i] in Elems(EntriesOfBatch(batch));
    }
    assert Key(a) in Elems(EntriesOfBatch(batch)) && Key(b) in Elems(EntriesOfBatch(batch));
    var i :| 0 <= i < |batch| && EntriesOfBatch(batch)[i] == Key(a);
    var j :| 0 <= j < |batch| && EntriesOfBatch(batch)[j] == Key(b);
    assert batch[i] == a && batch[j] == b;
  }

  /** When a batch may take every member of a pool, it takes all of them. */
  lemma TakesAll(pool: set<Entry>, batch: seq<Entry>, n: nat)
    requires |pool| <= n && IsEarliest(pool, batch, n)
    ensures Elems(batch) == pool && |batch| == |pool|
  {
    SubsetCard(Elems(batch), pool);
    DistinctCard(batch);
  }

  /** Records with distinct ids have as many distinct entries. */
  lemma DistinctIdsCard(rs: seq<SchedulingData>)
    requires DistinctIds(rs)
    ensures |Elems(EntriesOfBatch(rs))| == |rs|
  {
    assert Distinct(EntriesOfBatch(rs)) by {
      forall i, j | 0 <= i < j < |rs| ensures EntriesOfBatch(rs)[i] != EntriesOfBatch(rs)[j] {
        assert EntriesOfBatch(rs)[i].id == rs[i].id;
      }
    }
    DistinctCard(EntriesOfBatch(rs));
  }

  /**
    Asking one priority for more records than it holds gives all of them:
    the batch is as large as what is available.
  */
  method BatchForOnePriorityExceeding(a1: SchedulingData, a2: SchedulingData, a3: SchedulingData)
    returns (batch: seq<SchedulingData>)
    requires DistinctIds([a1, a2, a3])
    requires a1.assignedPriority == 1 && a2.assignedPriority == 1 && a3.assignedPriority == 1
    ensures |batch| == 3 && Members(batch) == {a1, a2, a3}
  {
    var rs := [a1, a2, a3];
    ghost var v0;
    v0, batch := FilledBatchFor(rs, 1, 5);
    ExceedingOutcome(rs, 1, v0, batch);
    assert Members(rs) == {a1, a2, a3};
  }

  lemma ExceedingOutcome(rs: seq<SchedulingData>, p: nat, v0: map<string, SchedulingData>, batch: seq<SchedulingData>)
    requires DistinctIds(rs) && |rs| == 3
    requires forall i :: 0 <= i < |rs| ==> rs[i].assignedPriority == p
    requires v0.Keys == Ids(rs) && StoredIn(v0, rs)
    requires IsEarliest(EntriesOf(v0, p), EntriesOfBatch(batch), 5)
    requires StoredIn(v0, batch)
    ensures |batch| == 3 && Members(batch) == Members(rs)
  {
    StoredEntries(v0, rs, p);
    assert (set r | r in rs && r.assignedPriority == p :: Key(r)) == Elems(EntriesOfBatch(rs)) by {
      forall r | r in rs ensures Key(r) in Elems(EntriesOfBatch(rs)) {
        var i :| 0 <= i < |rs| && rs[i] == r;
        assert EntriesOfBatch(rs)[i] == Key(r);
      }
    }
    DistinctIdsCard(rs);
    TakesAll(Elems(EntriesOfBatch(rs)), EntriesOfBatch(batch), 5);
    MembersOfKeys(v0, batch, rs);
  }

  /**
    Dequeuing across priorities goes by scheduled time alone: with records
    of two priorities interleaved in time, the first batch of three takes
    the three earliest whatever their priority, and the next batch takes
    the rest, each in ascending time.
  */
  method BatchAcrossPriorities(a11: SchedulingData, a12: SchedulingData, a13: SchedulingData,
                               a21: SchedulingData, a22: SchedulingData)
    returns (first: seq<SchedulingData>, second: seq<SchedulingData>)
    requires DistinctIds([a11, a12, a13, a21, a22])
    requires a11.assignedPriority == 1 && a12.assignedPriority == 1 && a13.assignedPriority == 1
    requires a21.assignedPriority == 2 && a22.assignedPriority == 2
    requires InTimeOrder([a11, a21, a22, a12, a13])
    ensures first == [a11, a21, a22]
    ensures second == [a12, a13]
  {
    var rs := [a11, a12, a13, a21, a22];
    ghost var ordered := [a11, a21, a22, a12, a13];
    ghost var v0, v1;
    v0, first, v1, second := FilledBatches(rs, 3, 10);
    AcrossOutcome(rs, ordered, 3, 10, v0, first, v1, second);
    assert ordered[..3] == [a11, a21, a22] && ordered[3..] == [a12, a13];
  }

  /** Two batches in a row across all priorities take the records in time order. */
  lemma AcrossOutcome(rs: seq<SchedulingData>, ordered: seq<SchedulingData>, n: nat, m: nat,
                      v0: map<string, SchedulingData>, first: seq<SchedulingData>,
                      v1: map<string, SchedulingData>, second: seq<SchedulingData>)
    requires DistinctIds(rs) && Members(ordered) == Members(rs) && InTimeOrder(ordered)
    requires n < |ordered| && |ordered| - n <= m
    requires v0.Keys == Ids(rs) && StoredIn(v0, rs)
    requires IsEarliest(AllEntries(v0), EntriesOfBatch(first), n) && StoredIn(v0, first)
    requires v1 == v0 - Ids(first)
    requires IsEarliest(AllEntries(v1), EntriesOfBatch(second), m) && StoredIn(v1, second)
    ensures first == ordered[..n] && second == ordered[n..]
  {
    EarliestRecords(v0, rs, ordered, first, n);
    RemainingStore(v0, rs, ordered, n);
    EarliestRecords(v1, ordered[n..], ordered[n..], second, m);
  }

  /**
    Asking across priorities for more records than are stored gives all of
    them, in time order.
  */
  method BatchExceeding(a1: SchedulingData, a2: SchedulingData, a3: SchedulingData)
    returns (batch: seq<SchedulingData>)
    requires DistinctIds([a1, a2, a3])
    requires InTimeOrder([a1, a2, a3])
    ensures batch == [a1, a2, a3]
  {
    var rs := [a1, a2, a3];
    ghost var v0;
    v0, batch := FilledBatch(rs, 5);
    EarliestRecords(v0, rs, rs, batch, 5);
  }
}
