/**
  The persistence service: a durable scheduling queue of email scheduling
  records, kept in two structures of an external key-value store.

  - The value store maps a record id to its record.
  - One ordering set per priority holds an (id, score) entry per record of
    that priority, the score being the record's scheduled time in
    milliseconds. An ordering set that becomes empty disappears.

  Both structures are fields of PersistenceService; Valid() is the
  cross-structure invariant: every record is in the ordering set of its own
  priority with its scheduled time as score, and every ordering entry belongs
  to a stored record. Java's null arguments are None here and are refused
  with NullPointer; a non-positive batch size is refused with IllegalArgument.
*/
module Persistence {
  import opened Wrappers
  import opened ScoredSets
  import opened OrderingKeys

  /** The email a record carries; the service never looks into it. */
  type Email = string

  /** A scheduling record: its id, its scheduled time in milliseconds, its priorities and its email. */
  datatype SchedulingData = SchedulingData(
    id: string,
    scheduledTime: int,
    assignedPriority: nat,
    desiredPriority: nat,
    email: Email)

  datatype Error = NullPointer | IllegalArgument(message: string)

  const BatchSizeMessage: string := "Batch size should be a positive integer."

  /** The ordering entry of a record. */
  function Key(r: SchedulingData): Entry {
    Entry(r.id, r.scheduledTime)
  }

  function EntriesOfBatch(batch: seq<SchedulingData>): seq<Entry> {
    seq(|batch|, i requires 0 <= i < |batch| => Key(batch[i]))
  }

  function Ids(batch: seq<SchedulingData>): set<string> {
    set r | r in batch :: r.id
  }

  function EntryIds(entries: seq<Entry>): set<string> {
    set e | e in entries :: e.id
  }

  // ----- The value store as a map -----

  /** Every stored record sits under its own id. */
  ghost predicate WellKeyed(values: map<string, SchedulingData>) {
    forall id :: id in values ==> values[id].id == id
  }

  /** Each of the records is stored under its own id. */
  ghost predicate StoredIn(values: map<string, SchedulingData>, rs: seq<SchedulingData>) {
    forall i :: 0 <= i < |rs| ==> rs[i].id in values && values[rs[i].id] == rs[i]
  }

  /** The value store after adding a record: insert if absent, else keep the original. */
  function Insert(values: map<string, SchedulingData>, r: SchedulingData): map<string, SchedulingData> {
    if r.id in values then values else values[r.id := r]
  }

  /** The value store after adding records one after the other. */
  function InsertAll(values: map<string, SchedulingData>, rs: seq<SchedulingData>): map<string, SchedulingData> {
    if rs == [] then values else Insert(InsertAll(values, rs[..|rs| - 1]), rs[|rs| - 1])
  }

  /** The ordering entries that the records of one priority must have. */
  ghost function EntriesOf(values: map<string, SchedulingData>, priority: nat): set<Entry> {
    set id | id in values && values[id].assignedPriority == priority :: Key(values[id])
  }

  /** The ordering entries of all records. */
  ghost function AllEntries(values: map<string, SchedulingData>): set<Entry> {
    set id | id in values :: Key(values[id])
  }

  /** The number of leading non-null elements of a collection. */
  function FirstNull(rs: seq<Option<SchedulingData>>): (k: nat)
    ensures k <= |rs|
    ensures forall i :: 0 <= i < k ==> rs[i].Some?
    ensures k < |rs| ==> rs[k].None?
  {
    if rs == [] || rs[0].None? then 0 else 1 + FirstNull(rs[1..])
  }

  function Unwrapped(rs: seq<Option<SchedulingData>>): seq<SchedulingData>
    requires forall i :: 0 <= i < |rs| ==> rs[i].Some?
  {
    seq(|rs|, i requires 0 <= i < |rs| && rs[i].Some? => rs[i].value)
  }

  lemma FirstNullAt(rs: seq<Option<SchedulingData>>, i: nat)
    requires i <= |rs|
    requires forall j :: 0 <= j < i ==> rs[j].Some?
    requires i == |rs| || rs[i].None?
    ensures FirstNull(rs) == i
  {
    if i > 0 {
      FirstNullAt(rs[1..], i - 1);
    }
  }

  lemma UnwrappedSnoc(rs: seq<Option<SchedulingData>>, i: nat)
    requires i < |rs|
    requires forall j :: 0 <= j <= i ==> rs[j].Some?
    ensures Unwrapped(rs[..i + 1]) == Unwrapped(rs[..i]) + [rs[i].value]
  {
  }

  // ----- Properties of adding -----

  /** Adding records stores an entry under each of their ids and nothing else, each under its own id. */
  lemma {:induction false} InsertAllStoresEvery(values: map<string, SchedulingData>, rs: seq<SchedulingData>)
    requires WellKeyed(values)
    ensures InsertAll(values, rs).Keys == values.Keys + Ids(rs)
    ensures WellKeyed(InsertAll(values, rs))
  {
    if rs != [] {
      var init := rs[..|rs| - 1];
      InsertAllStoresEvery(values, init);
      assert Ids(rs) == Ids(init) + {rs[|rs| - 1].id} by {
        assert rs == init + [rs[|rs| - 1]];
      }
    }
  }

  /** Adding records never changes a record that is already stored. */
  lemma {:induction false} InsertAllKeepsStored(values: map<string, SchedulingData>, rs: seq<SchedulingData>, id: string)
    requires id in values
    ensures id in InsertAll(values, rs) && InsertAll(values, rs)[id] == values[id]
  {
    if rs != [] {
      InsertAllKeepsStored(values, rs[..|rs| - 1], id);
    }
  }

  /** Adding records whose ids are new and distinct stores each of them as given. */
  lemma {:induction false} InsertAllFresh(values: map<string, SchedulingData>, rs: seq<SchedulingData>)
    requires forall i :: 0 <= i < |rs| ==> rs[i].id !in values
    requires forall i, j :: 0 <= i < j < |rs| ==> rs[i].id != rs[j].id
    ensures forall i :: 0 <= i < |rs| ==> rs[i].id in InsertAll(values, rs) && InsertAll(values, rs)[rs[i].id] == rs[i]
  {
    if rs != [] {
      var init := rs[..|rs| - 1];
      InsertAllFresh(values, init);
      var last := rs[|rs| - 1];
      assert last.id !in InsertAll(values, init) by {
        InsertAllNoNewIds(values, init, last.id);
      }
    }
  }

  /** Adding records stores nothing under an id that none of them has. */
  lemma {:induction false} InsertAllNoNewIds(values: map<string, SchedulingData>, rs: seq<SchedulingData>, id: string)
    requires id !in values
    requires forall i :: 0 <= i < |rs| ==> rs[i].id != id
    ensures id !in InsertAll(values, rs)
  {
    if rs != [] {
      InsertAllNoNewIds(values, rs[..|rs| - 1], id);
    }
  }

  /**
    Adding a second record with the id of a stored one leaves exactly one
    record under that id, and it has that id.
  */
  lemma AddTwiceKeepsOneRecord(values: map<string, SchedulingData>, first: SchedulingData, second: SchedulingData)
    requires WellKeyed(values)
    requires second.id == first.id
    ensures InsertAll(values, [first, second]).Keys == values.Keys + {first.id}
    ensures InsertAll(values, [first, second])[first.id].id == first.id
  {
    InsertAllStoresEvery(values, [first, second]);
    assert Ids([first, second]) == {first.id};
  }

  /** With insert-if-absent, the record added first is the one kept. */
  lemma AddTwiceKeepsFirst(values: map<string, SchedulingData>, first: SchedulingData, second: SchedulingData)
    requires first.id !in values && second.id == first.id
    ensures InsertAll(values, [first, second]) == values[first.id := first]
  {
    assert [first, second][..1] == [first];
    assert [first][..0] == [];
    assert InsertAll(values, []) == values;
    assert InsertAll(values, [first]) == Insert(values, first) == values[first.id := first];
  }

  /** The name a priority's ordering set has in the store names that priority only. */
  lemma OrderingKeyNamesOnePriority(ordering: map<nat, set<Entry>>, p: nat)
    ensures OrderingKey(p) in (set q | q in ordering :: OrderingKey(q)) <==> p in ordering
  {
    if OrderingKey(p) in (set q | q in ordering :: OrderingKey(q)) {
      var q :| q in ordering && OrderingKey(q) == OrderingKey(p);
      OrderingKeyInjective(p, q);
    }
  }

  /** The entries of stored records name records whose entries they are. */
  lemma EntriesStored(values: map<string, SchedulingData>, entries: seq<Entry>)
    requires WellKeyed(values)
    requires forall i :: 0 <= i < |entries| ==> entries[i] in AllEntries(values)
    ensures forall i :: 0 <= i < |entries| ==> entries[i].id in values && Key(values[entries[i].id]) == entries[i]
  {
    forall i | 0 <= i < |entries| ensures entries[i].id in values && Key(values[entries[i].id]) == entries[i] {
      assert entries[i] in AllEntries(values);
    }
  }

  /** Entries with distinct ids: an entry's id is not among those before it. */
  lemma DistinctIdsAhead(values: map<string, SchedulingData>, entries: seq<Entry>, i: nat)
    requires Distinct(entries) && i < |entries|
    requires forall j :: 0 <= j < |entries| ==> entries[j].id in values && Key(values[entries[j].id]) == entries[j]
    ensures entries[i].id !in EntryIds(entries[..i])
  {
    forall j | 0 <= j < i ensures entries[j].id != entries[i].id {
      assert entries[j] != entries[i];
    }
  }

  /** The records the given entries name. */
  ghost function Lookup(values: map<string, SchedulingData>, entries: seq<Entry>): (batch: seq<SchedulingData>)
    requires forall j :: 0 <= j < |entries| ==> entries[j].id in values
    ensures |batch| == |entries|
  {
    seq(|entries|, j requires 0 <= j < |entries| && entries[j].id in values => values[entries[j].id])
  }

  lemma LookupSnoc(values: map<string, SchedulingData>, entries: seq<Entry>, i: nat)
    requires i < |entries|
    requires forall j :: 0 <= j < |entries| ==> entries[j].id in values
    ensures Lookup(values, entries[..i + 1]) == Lookup(values, entries[..i]) + [values[entries[i].id]]
  {
  }

  lemma EntryIdsSnoc(entries: seq<Entry>, i: nat)
    requires i < |entries|
    ensures EntryIds(entries[..i + 1]) == EntryIds(entries[..i]) + {entries[i].id}
  {
    assert entries[..i + 1] == entries[..i] + [entries[i]];
  }

  lemma MapMinusStep(m: map<string, SchedulingData>, gone: set<string>, x: string,
                     before: map<string, SchedulingData>, after: map<string, SchedulingData>)
    requires before == m - gone && after == before - {x}
    ensures after == m - (gone + {x})
  {
  }

  lemma IdsOfKeys(batch: seq<SchedulingData>, entries: seq<Entry>)
    requires EntriesOfBatch(batch) == entries
    ensures Ids(batch) == EntryIds(entries)
  {
    forall j | 0 <= j < |entries| ensures entries[j].id in Ids(batch) {
      assert EntriesOfBatch(batch)[j] == Key(batch[j]);
      assert batch[j] in batch;
    }
    forall j | 0 <= j < |batch| ensures batch[j].id in EntryIds(entries) {
      assert EntriesOfBatch(batch)[j] == Key(batch[j]);
      assert entries[j] in entries;
    }
  }

  /** The entries of a batch followed by another are the two batches' entries in turn. */
  lemma EntriesOfBatchAppend(first: seq<SchedulingData>, second: seq<SchedulingData>)
    ensures EntriesOfBatch(first + second) == EntriesOfBatch(first) + EntriesOfBatch(second)
  {
  }

  /**
    Deleting a batch of stored records from the value store takes exactly
    their entries out of the records' entries.
  */
  lemma AllEntriesAfterDequeue(values: map<string, SchedulingData>, batch: seq<SchedulingData>)
    requires WellKeyed(values) && StoredIn(values, batch)
    ensures AllEntries(values - Ids(batch)) == AllEntries(values) - Elems(EntriesOfBatch(batch))
  {
    var taken := Elems(EntriesOfBatch(batch));
    forall e | e in AllEntries(values - Ids(batch)) ensures e in AllEntries(values) && e !in taken {
      assert e.id in values - Ids(batch) && e == Key(values[e.id]);
      forall i | 0 <= i < |batch| ensures EntriesOfBatch(batch)[i] != e {
        assert batch[i] in batch;
      }
    }
    forall e | e in AllEntries(values) && e !in taken ensures e in AllEntries(values - Ids(batch)) {
      assert e.id in values && e == Key(values[e.id]);
      forall r | r in batch ensures r.id != e.id {
        var i :| 0 <= i < |batch| && batch[i] == r;
        assert EntriesOfBatch(batch)[i] in taken;
      }
      var rest := values - Ids(batch);
      assert e.id in rest && rest[e.id] == values[e.id];
    }
  }

  /** The same for the entries of one priority. */
  lemma EntriesAfterDequeue(values: map<string, SchedulingData>, batch: seq<SchedulingData>, priority: nat)
    requires WellKeyed(values) && StoredIn(values, batch)
    ensures EntriesOf(values - Ids(batch), priority) == EntriesOf(values, priority) - Elems(EntriesOfBatch(batch))
  {
    var taken := Elems(EntriesOfBatch(batch));
    forall e | e in EntriesOf(values - Ids(batch), priority) ensures e in EntriesOf(values, priority) && e !in taken {
      assert e.id in values - Ids(batch) && values[e.id].assignedPriority == priority && e == Key(values[e.id]);
      forall i | 0 <= i < |batch| ensures EntriesOfBatch(batch)[i] != e {
        assert batch[i] in batch;
      }
    }
    forall e | e in EntriesOf(values, priority) && e !in taken ensures e in EntriesOf(values - Ids(batch), priority) {
      assert e.id in values && values[e.id].assignedPriority == priority && e == Key(values[e.id]);
      forall r | r in batch ensures r.id != e.id {
        var i :| 0 <= i < |batch| && batch[i] == r;
        assert EntriesOfBatch(batch)[i] in taken;
      }
      var rest := values - Ids(batch);
      assert e.id in rest && rest[e.id] == values[e.id];
    }
  }

  /**
    Two dequeues of one priority in a row, each as GetNextBatchFor promises,
    together take that priority's n + m earliest records: the second repeats
    none of the first and skips none that the first left behind, and none of
    it comes earlier than the first.
  */
  lemma SuccessiveBatchesFor(values: map<string, SchedulingData>, priority: nat,
                             first: seq<SchedulingData>, n: nat, second: seq<SchedulingData>, m: nat)
    requires WellKeyed(values) && StoredIn(values, first)
    requires IsEarliest(EntriesOf(values, priority), EntriesOfBatch(first), n)
    requires IsEarliest(EntriesOf(values - Ids(first), priority), EntriesOfBatch(second), m)
    ensures IsEarliest(EntriesOf(values, priority), EntriesOfBatch(first + second), n + m)
    ensures forall i, j :: 0 <= i < |first| && 0 <= j < |second| ==> first[i].scheduledTime <= second[j].scheduledTime
  {
    EntriesAfterDequeue(values, first, priority);
    EntriesOfBatchAppend(first, second);
    ConsecutiveBatches(EntriesOf(values, priority), EntriesOfBatch(first), n, EntriesOfBatch(second), m);
    forall i, j | 0 <= i < |first| && 0 <= j < |second| ensures first[i].scheduledTime <= second[j].scheduledTime {
      assert EntriesOfBatch(first)[i].score == first[i].scheduledTime;
      assert EntriesOfBatch(second)[j].score == second[j].scheduledTime;
    }
  }

  /** The same for two dequeues across all priorities, as GetNextBatch promises. */
  lemma SuccessiveBatches(values: map<string, SchedulingData>,
                          first: seq<SchedulingData>, n: nat, second: seq<SchedulingData>, m: nat)
    requires WellKeyed(values) && StoredIn(values, first)
    requires IsEarliest(AllEntries(values), EntriesOfBatch(first), n)
    requires IsEarliest(AllEntries(values - Ids(first)), EntriesOfBatch(second), m)
    ensures IsEarliest(AllEntries(values), EntriesOfBatch(first + second), n + m)
    ensures forall i, j :: 0 <= i < |first| && 0 <= j < |second| ==> first[i].scheduledTime <= second[j].scheduledTime
  {
    AllEntriesAfterDequeue(values, first);
    EntriesOfBatchAppend(first, second);
    ConsecutiveBatches(AllEntries(values), EntriesOfBatch(first), n, EntriesOfBatch(second), m);
    forall i, j | 0 <= i < |first| && 0 <= j < |second| ensures first[i].scheduledTime <= second[j].scheduledTime {
      assert EntriesOfBatch(first)[i].score == first[i].scheduledTime;
      assert EntriesOfBatch(second)[j].score == second[j].scheduledTime;
    }
  }

  // ----- The two stores together -----

  /**
    The cross-structure invariant: every record has its entry in the ordering
    set of its priority, every entry belongs to a stored record of that
    priority, and no ordering set is empty (the store drops an empty one).
  */
  ghost predicate Consistent(values: map<string, SchedulingData>, ordering: map<nat, set<Entry>>) {
    && WellKeyed(values)
    && (forall id :: id in values ==>
          values[id].assignedPriority in ordering && Key(values[id]) in ordering[values[id].assignedPriority])
    && (forall p, e :: p in ordering && e in ordering[p] ==>
          e.id in values && Key(values[e.id]) == e && values[e.id].assignedPriority == p)
    && (forall p :: p in ordering ==> ordering[p] != {})
  }

  /** The ordering sets after adding an entry to the set of a priority, creating it if needed. */
  function WithEntry(ordering: map<nat, set<Entry>>, p: nat, e: Entry): (result: map<nat, set<Entry>>)
    ensures result.Keys == ordering.Keys + {p}
    ensures e in result[p]
  {
    ordering[p := (if p in ordering then ordering[p] else {}) + {e}]
  }

  /** The ordering sets after removing an entry from the set of a priority, dropping it when emptied. */
  function WithoutEntry(ordering: map<nat, set<Entry>>, p: nat, e: Entry): (result: map<nat, set<Entry>>)
    ensures result.Keys <= ordering.Keys
    ensures p in result ==> e !in result[p]
  {
    var rest := (if p in ordering then ordering[p] else {}) - {e};
    if rest == {} then ordering - {p} else ordering[p := rest]
  }

  /** Adding a record with a new id, with its entry, keeps the stores consistent. */
  lemma AddKeepsConsistent(values: map<string, SchedulingData>, ordering: map<nat, set<Entry>>, r: SchedulingData)
    requires Consistent(values, ordering)
    requires r.id !in values
    ensures Consistent(values[r.id := r], WithEntry(ordering, r.assignedPriority, Key(r)))
  {
    var values' := values[r.id := r];
    var ordering' := WithEntry(ordering, r.assignedPriority, Key(r));
    forall q: nat, e: Entry | q in ordering' && e in ordering'[q]
      ensures e.id in values' && Key(values'[e.id]) == e && values'[e.id].assignedPriority == q
    {
      if e != Key(r) || q != r.assignedPriority {
        assert e in ordering[q];
        assert e.id != r.id;
      }
    }
  }

  /**
    Removing a stored record, with its entry, keeps the stores consistent,
    and no entry is left with its id.
  */
  lemma RemoveKeepsConsistent(values: map<string, SchedulingData>, ordering: map<nat, set<Entry>>, id: string)
    requires Consistent(values, ordering)
    requires id in values
    ensures Consistent(values - {id}, WithoutEntry(ordering, values[id].assignedPriority, Key(values[id])))
    ensures var ordering' := WithoutEntry(ordering, values[id].assignedPriority, Key(values[id]));
      forall q, e :: q in ordering' && e in ordering'[q] ==> e.id != id
  {
    var r := values[id];
    var p := r.assignedPriority;
    var values' := values - {id};
    var ordering' := WithoutEntry(ordering, p, Key(r));
    forall other: string | other in values'
      ensures values'[other].assignedPriority in ordering' && Key(values'[other]) in ordering'[values'[other].assignedPriority]
    {
      var q := values[other].assignedPriority;
      assert Key(values[other]) in ordering[q] && Key(values[other]) != Key(r);
      if q == p {
        assert Key(values[other]) in ordering[p] - {Key(r)};
      }
    }
    forall q: nat, e: Entry | q in ordering' && e in ordering'[q]
      ensures e.id in values' && Key(values'[e.id]) == e && values'[e.id].assignedPriority == q
    {
      assert e in ordering[q];
      assert e.id != id;
    }
  }

  class PersistenceService {
    /** The value store: record id to record. */
    var values: map<string, SchedulingData>
    /** The ordering store: priority to that priority's ordering set. */
    var ordering: map<nat, set<Entry>>

    /** The cross-structure invariant. */
    ghost predicate Valid()
      reads this
    {
      Consistent(values, ordering)
    }

    /** The names of the ordering sets present in the store. */
    function OrderingSetNames(): set<string>
      reads this
    {
      set p | p in ordering :: OrderingKey(p)
    }

    constructor ()
      ensures Valid() && values == map[] && ordering == map[]
    {
      values := map[];
      ordering := map[];
    }

    /** Under the invariant the ordering set of a priority holds exactly the entries of its records. */
    lemma BucketIsEntriesOf(priority: nat)
      requires Valid()
      ensures EntriesOf(values, priority) == if priority in ordering then ordering[priority] else {}
    {
      if priority in ordering {
        forall e | e in ordering[priority] ensures e in EntriesOf(values, priority) {
          assert values[e.id].assignedPriority == priority && Key(values[e.id]) == e;
        }
      }
    }

    /** Under the invariant the ordering sets together hold exactly the entries of all records. */
    lemma OrderingIsAllEntries()
      requires Valid()
      ensures Union(ordering) == AllEntries(values)
    {
      forall e | e in Union(ordering) ensures e in AllEntries(values) {
        var p := UnionMember(ordering, e);
        assert Key(values[e.id]) == e;
      }
      forall id | id in values ensures Key(values[id]) in Union(ordering) {
        BucketInUnion(ordering, values[id].assignedPriority);
      }
    }

    /** Adds a record unless one with its id is already stored. */
    method Add(data: Option<SchedulingData>) returns (result: Outcome<Error>)
      requires Valid()
      modifies this
      ensures Valid()
      ensures data.None? ==> result == Fail(NullPointer) && values == old(values) && ordering == old(ordering)
      ensures data.Some? ==> result == Pass && values == Insert(old(values), data.value)
      ensures data.Some? && data.value.id in old(values) ==> ordering == old(ordering)
      ensures data.Some? && data.value.id !in old(values) ==>
        ordering == WithEntry(old(ordering), data.value.assignedPriority, Key(data.value))
      ensures data.Some? ==> OrderingKey(values[data.value.id].assignedPriority) in OrderingSetNames()
    {
      if data.None? {
        return Fail(NullPointer);
      }
      var r := data.value;
      if r.id !in values {
        AddKeepsConsistent(values, ordering, r);
        values := values[r.id := r];
        ordering := WithEntry(ordering, r.assignedPriority, Key(r));
      }
      result := Pass;
    }

    /** Adds every record of a collection in turn; a null element stops it, with the earlier ones added. */
    method AddAll(data: Option<seq<Option<SchedulingData>>>) returns (result: Outcome<Error>)
      requires Valid()
      modifies this
      ensures Valid()
      ensures data.None? ==> result == Fail(NullPointer) && values == old(values) && ordering == old(ordering)
      ensures data.Some? ==>
        && values == InsertAll(old(values), Unwrapped(data.value[..FirstNull(data.value)]))
        && (result == Pass <==> FirstNull(data.value) == |data.value|)
        && (result != Pass ==> result == Fail(NullPointer))
    {
      if data.None? {
        return Fail(NullPointer);
      }
      var rs := data.value;
      var i := 0;
      while i < |rs|
        invariant 0 <= i <= |rs| && Valid()
        invariant forall j :: 0 <= j < i ==> rs[j].Some?
        invariant values == InsertAll(old(values), Unwrapped(rs[..i]))
      {
        var added := Add(rs[i]);
        if added.Fail? {
          FirstNullAt(rs, i);
          return added;
        }
        UnwrappedSnoc(rs, i);
        i := i + 1;
      }
      assert rs[..i] == rs;
      FirstNullAt(rs, i);
      result := Pass;
    }

    /** The stored record with that id, if any. */
    method Get(id: Option<string>) returns (result: Result<Option<SchedulingData>, Error>)
      requires Valid()
      ensures id.None? ==> result == Failure(NullPointer)
      ensures id.Some? ==> result.Success? && (result.value.Some? <==> id.value in values)
      ensures id.Some? && result.Success? && result.value.Some? ==>
        result.value.value == values[id.value] && result.value.value.id == id.value
    {
      if id.None? {
        return Failure(NullPointer);
      }
      if id.value in values {
        result := Success(Some(values[id.value]));
      } else {
        result := Success(None);
      }
    }

    /**
      Removes the record with that id from the value store and its entry from
      the ordering set of its priority; tells whether there was one.
    */
    method Remove(id: Option<string>) returns (result: Result<bool, Error>)
      requires Valid()
      modifies this
      ensures Valid()
      ensures id.None? ==> result == Failure(NullPointer) && values == old(values) && ordering == old(ordering)
      ensures id.Some? ==> result == Success(id.value in old(values)) && values == old(values) - {id.value}
      ensures id.Some? && id.value !in old(values) ==> ordering == old(ordering)
      ensures id.Some? && id.value in old(values) ==>
        ordering == WithoutEntry(old(ordering), old(values)[id.value].assignedPriority, Key(old(values)[id.value]))
      ensures id.Some? ==> forall p, e :: p in ordering && e in ordering[p] ==> e.id != id.value
    {
      if id.None? {
        return Failure(NullPointer);
      }
      var key := id.value;
      if key !in values {
        return Success(false);
      }
      var r := values[key];
      RemoveKeepsConsistent(values, ordering, key);
      values := values - {key};
      ordering := WithoutEntry(ordering, r.assignedPriority, Key(r));
      result := Success(true);
    }

    /**
      Removes the records of the given ordering entries, in order, and
      returns them in that order.
    */
    method Dequeue(entries: seq<Entry>) returns (batch: seq<SchedulingData>)
      requires Valid()
      requires Distinct(entries)
      requires forall i :: 0 <= i < |entries| ==> entries[i] in AllEntries(values)
      modifies this
      ensures Valid()
      ensures EntriesOfBatch(batch) == entries
      ensures forall i :: 0 <= i < |batch| ==> batch[i].id in old(values) && old(values)[batch[i].id] == batch[i]
      ensures values == old(values) - Ids(batch)
    {
      EntriesStored(values, entries);
      batch := [];
      var i := 0;
      while i < |entries|
        invariant 0 <= i <= |entries| && Valid()
        invariant |batch| == i
        invariant forall j :: 0 <= j < |entries| ==>
          entries[j].id in old(values) && Key(old(values)[entries[j].id]) == entries[j]
        invariant batch == Lookup(old(values), entries[..i])
        invariant values == old(values) - EntryIds(entries[..i])
      {
        var e := entries[i];
        DistinctIdsAhead(old(values), entries, i);
        var r := values[e.id];
        assert r == old(values)[e.id];
        LookupSnoc(old(values), entries, i);
        batch := batch + [r];
        ghost var before := values;
        var _ := Remove(Some(e.id));
        EntryIdsSnoc(entries, i);
        MapMinusStep(old(values), EntryIds(entries[..i]), e.id, before, values);
        i := i + 1;
      }
      assert entries[..i] == entries;
      assert EntriesOfBatch(batch) == entries by {
        forall j | 0 <= j < |entries| ensures EntriesOfBatch(batch)[j] == entries[j] {
          assert batch[j] == old(values)[entries[j].id];
        }
      }
      IdsOfKeys(batch, entries);
    }

    /**
      Dequeues the batchSize earliest records of one priority, in ascending
      scheduled time; fewer when fewer are stored, none when there are none.
    */
    method GetNextBatchFor(priority: nat, batchSize: int) returns (result: Result<seq<SchedulingData>, Error>)
      requires Valid()
      modifies this
      ensures Valid()
      ensures batchSize <= 0 ==>
        result == Failure(IllegalArgument(BatchSizeMessage)) && values == old(values) && ordering == old(ordering)
      ensures batchSize > 0 ==> result.Success?
      ensures result.Success? ==>
        && IsEarliest(EntriesOf(old(values), priority), EntriesOfBatch(result.value), batchSize)
        && (forall i :: 0 <= i < |result.value| ==> result.value[i].assignedPriority == priority)
        && StoredIn(old(values), result.value)
        && values == old(values) - Ids(result.value)
    {
      if batchSize <= 0 {
        return Failure(IllegalArgument(BatchSizeMessage));
      }
      var pool := if priority in ordering then ordering[priority] else {};
      BucketIsEntriesOf(priority);
      var entries := RangeLowest(pool, batchSize);
      OrderingIsAllEntries();
      forall i | 0 <= i < |entries| ensures entries[i] in AllEntries(values) {
        assert entries[i] in Elems(entries);
        BucketInUnion(ordering, priority);
      }
      ghost var before := values;
      var batch := Dequeue(entries);
      forall i | 0 <= i < |batch| ensures batch[i].assignedPriority == priority {
        assert EntriesOfBatch(batch)[i] in Elems(entries);
      }
      result := Success(batch);
    }

    /**
      Dequeues the batchSize earliest records of all priorities together, in
      ascending scheduled time: priority is not a sort key here. Each
      priority offers only its own batchSize earliest entries as candidates.
    */
    method GetNextBatch(batchSize: int) returns (result: Result<seq<SchedulingData>, Error>)
      requires Valid()
      modifies this
      ensures Valid()
      ensures batchSize <= 0 ==>
        result == Failure(IllegalArgument(BatchSizeMessage)) && values == old(values) && ordering == old(ordering)
      ensures batchSize > 0 ==> result.Success?
      ensures result.Success? ==>
        && IsEarliest(AllEntries(old(values)), EntriesOfBatch(result.value), batchSize)
        && StoredIn(old(values), result.value)
        && values == old(values) - Ids(result.value)
    {
      if batchSize <= 0 {
        return Failure(IllegalArgument(BatchSizeMessage));
      }
      var merged := MergedLowest(ordering, batchSize);
      OrderingIsAllEntries();
      forall i | 0 <= i < |merged| ensures merged[i] in AllEntries(values) {
        assert merged[i] in Elems(merged);
      }
      var batch := Dequeue(merged);
      result := Success(batch);
    }
  }
}
