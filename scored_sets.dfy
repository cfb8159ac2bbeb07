/**
  The sorted-set primitive the persistence service is built on: one ordering
  set per priority holds (record id, score) members, the score being the
  record's scheduled time in milliseconds, and a range query returns the
  lowest-scored members first.

  A batch taken from a pool is specified by IsEarliest: it lists, without
  repetition and in ascending score, as many members as were asked for (or all
  of them when fewer exist), and no member left behind scores lower than a
  member taken. Members with equal scores may come in any order.
*/
module ScoredSets {

  /** A member of an ordering set: the record id and its score. */
  datatype Entry = Entry(id: string, score: int)

  function Min(a: int, b: int): int { if a <= b then a else b }

  /** The members listed by a batch. */
  function Elems(batch: seq<Entry>): set<Entry> { set e | e in batch }

  predicate Distinct(batch: seq<Entry>) {
    forall i, j :: 0 <= i < j < |batch| ==> batch[i] != batch[j]
  }

  predicate Ascending(batch: seq<Entry>) {
    forall i, j :: 0 <= i < j < |batch| ==> batch[i].score <= batch[j].score
  }

  /** taken holds the n lowest-scored members of pool (all of pool if it has fewer). */
  ghost predicate IsLowest(pool: set<Entry>, taken: set<Entry>, n: nat) {
    && taken <= pool
    && |taken| == Min(n, |pool|)
    && forall t, e :: t in taken && e in pool && e !in taken ==> t.score <= e.score
  }

  /** batch lists the n lowest-scored members of pool, once each, in ascending score. */
  ghost predicate IsEarliest(pool: set<Entry>, batch: seq<Entry>, n: nat) {
    Distinct(batch) && Ascending(batch) && IsLowest(pool, Elems(batch), n)
  }

  /** Every member of pool has its own score. */
  ghost predicate DistinctScores(pool: set<Entry>) {
    forall e, f :: e in pool && f in pool && e != f ==> e.score != f.score
  }

  lemma {:induction false} DistinctCard(batch: seq<Entry>)
    requires Distinct(batch)
    ensures |Elems(batch)| == |batch|
  {
    if batch != [] {
      var init := batch[..|batch| - 1];
      var last := batch[|batch| - 1];
      assert Distinct(init);
      DistinctCard(init);
      assert Elems(batch) == Elems(init) + {last} by {
        assert batch == init + [last];
      }
      assert last !in Elems(init) by {
        forall i | 0 <= i < |init| ensures init[i] != last {
          assert batch[i] != batch[|batch| - 1];
        }
      }
    }
  }

  /** A lowest-scored member of a non-empty ordering set. */
  method MinEntry(pool: set<Entry>) returns (m: Entry)
    requires pool != {}
    ensures m in pool
    ensures forall e :: e in pool ==> m.score <= e.score
  {
    m :| m in pool;
    var todo := pool - {m};
    while todo != {}
      invariant todo <= pool && m in pool
      invariant forall e :: e in pool && e !in todo ==> m.score <= e.score
      decreases todo
    {
      var e :| e in todo;
      if e.score < m.score {
        m := e;
      }
      todo := todo - {e};
    }
  }

  lemma SubsetCard(a: set<Entry>, b: set<Entry>)
    requires a <= b
    ensures |a| <= |b|
    ensures a != b ==> |a| < |b|
  {
    assert b == a + (b - a);
    if a != b {
      var x :| x in b - a;
    }
  }

  /**
    The range query of an ordering set: its n lowest-scored members in
    ascending score, fewer when the set holds fewer, nothing when it is empty.
  */
  method RangeLowest(pool: set<Entry>, n: nat) returns (batch: seq<Entry>)
    ensures IsEarliest(pool, batch, n)
  {
    var rest := pool;
    batch := [];
    while |batch| < n && rest != {}
      invariant rest == pool - Elems(batch)
      invariant Elems(batch) <= pool
      invariant |batch| <= n
      invariant Distinct(batch) && Ascending(batch)
      invariant forall i, e :: 0 <= i < |batch| && e in rest ==> batch[i].score <= e.score
      decreases |rest|
    {
      var m := MinEntry(rest);
      AppendLowest(batch, rest, m);
      batch := batch + [m];
      rest := rest - {m};
    }
    RangeComplete(pool, batch, n);
  }

  /** Appending a lowest member of what is left keeps a selection sorted and free of repeats. */
  lemma AppendLowest(batch: seq<Entry>, rest: set<Entry>, m: Entry)
    requires Distinct(batch) && Ascending(batch)
    requires m in rest && Elems(batch) !! rest
    requires forall e :: e in rest ==> m.score <= e.score
    requires forall i, e :: 0 <= i < |batch| && e in rest ==> batch[i].score <= e.score
    ensures Distinct(batch + [m]) && Ascending(batch + [m])
    ensures Elems(batch + [m]) == Elems(batch) + {m}
    ensures forall i, e :: 0 <= i < |batch + [m]| && e in rest - {m} ==> (batch + [m])[i].score <= e.score
  {
    var b := batch + [m];
    forall i | 0 <= i < |batch| ensures b[i] != m && b[i].score <= m.score {
      assert batch[i] in Elems(batch);
    }
    assert Elems(b) == Elems(batch) + {m};
  }

  /** A selection that stopped because it had enough members or ran out of them is complete. */
  lemma RangeComplete(pool: set<Entry>, batch: seq<Entry>, n: nat)
    requires Elems(batch) <= pool && |batch| <= n
    requires |batch| == n || Elems(batch) == pool
    requires Distinct(batch) && Ascending(batch)
    requires forall i, e :: 0 <= i < |batch| && e in pool - Elems(batch) ==> batch[i].score <= e.score
    ensures IsEarliest(pool, batch, n)
  {
    DistinctCard(batch);
    SubsetCard(Elems(batch), pool);
    forall t, e | t in Elems(batch) && e in pool && e !in Elems(batch) ensures t.score <= e.score {
      var i :| 0 <= i < |batch| && batch[i] == t;
    }
  }

  /**
    Taking n members and then m more from what is left is the same as taking
    n + m at once: a second batch repeats nothing and skips nothing.
  */
  lemma ConsecutiveBatches(pool: set<Entry>, first: seq<Entry>, n: nat, second: seq<Entry>, m: nat)
    requires IsEarliest(pool, first, n)
    requires IsEarliest(pool - Elems(first), second, m)
    ensures IsEarliest(pool, first + second, n + m)
    ensures forall i, j :: 0 <= i < |first| && 0 <= j < |second| ==> first[i].score <= second[j].score
  {
    var e1, e2 := Elems(first), Elems(second);
    forall i, j | 0 <= i < |first| && 0 <= j < |second|
      ensures first[i] != second[j] && first[i].score <= second[j].score
    {
      assert first[i] in e1 && second[j] in e2;
    }
    ConcatSorted(first, second);
    LowestThenLowest(pool, e1, n, e2, m);
  }

  /** Two sorted batches, the first wholly before and apart from the second, concatenate to a sorted batch. */
  lemma ConcatSorted(first: seq<Entry>, second: seq<Entry>)
    requires Distinct(first) && Ascending(first) && Distinct(second) && Ascending(second)
    requires forall i, j :: 0 <= i < |first| && 0 <= j < |second| ==> first[i] != second[j] && first[i].score <= second[j].score
    ensures Distinct(first + second) && Ascending(first + second)
    ensures Elems(first + second) == Elems(first) + Elems(second)
  {
    var both := first + second;
    forall i, j | 0 <= i < j < |both| ensures both[i] != both[j] && both[i].score <= both[j].score {
      if j < |first| {
        assert both[i] == first[i] && both[j] == first[j];
      } else if i >= |first| {
        assert both[i] == second[i - |first|] && both[j] == second[j - |first|];
      } else {
        assert both[i] == first[i] && both[j] == second[j - |first|];
      }
    }
    assert Elems(both) == Elems(first) + Elems(second);
  }

  /** The set form of ConsecutiveBatches. */
  lemma LowestThenLowest(pool: set<Entry>, t1: set<Entry>, n: nat, t2: set<Entry>, m: nat)
    requires IsLowest(pool, t1, n)
    requires IsLowest(pool - t1, t2, m)
    ensures IsLowest(pool, t1 + t2, n + m)
  {
    assert |t1 + t2| == |t1| + |t2|;
    assert |pool - t1| == |pool| - |t1| by {
      assert pool == (pool - t1) + t1;
    }
  }

  /** Two sets of one size differ from each other by equally many members. */
  lemma SameSizeDifferences(a: set<Entry>, b: set<Entry>)
    requires |a| == |b|
    ensures |a - b| == |b - a|
  {
    assert a == (a - b) + (a * b);
    assert b == (b - a) + (a * b);
  }

  /**
    When every member taken scores strictly below every member left behind,
    the lowest subset of that size is unique.
  */
  lemma LowestUniqueAtGap(pool: set<Entry>, taken: set<Entry>, other: set<Entry>, n: nat)
    requires IsLowest(pool, taken, n)
    requires IsLowest(pool, other, n)
    requires forall t, e :: t in taken && e in pool && e !in taken ==> t.score < e.score
    ensures other == taken
  {
    SameSizeDifferences(other, taken);
    // A member of other outside taken scores above every member of taken, yet
    // no higher than the member of taken that other left out.
    if other - taken != {} {
      assert false;
    }
    SubsetCard(other, taken);
  }

  predicate StrictlyAscending(batch: seq<Entry>) {
    forall i, j :: 0 <= i < j < |batch| ==> batch[i].score < batch[j].score
  }

  /** The members of a strictly ascending listing all have their own scores. */
  lemma StrictScores(listing: seq<Entry>)
    requires StrictlyAscending(listing)
    ensures DistinctScores(Elems(listing))
  {
    forall e, f | e in Elems(listing) && f in Elems(listing) && e != f ensures e.score != f.score {
      var a :| 0 <= a < |listing| && listing[a] == e;
      var b :| 0 <= b < |listing| && listing[b] == f;
      assert a != b;
    }
  }

  lemma ElemsEmpty(batch: seq<Entry>)
    ensures Elems(batch) == {} <==> batch == []
  {
    if batch != [] {
      assert batch[0] in Elems(batch);
    }
  }

  lemma ElemsCons(batch: seq<Entry>)
    requires batch != []
    ensures Elems(batch) == {batch[0]} + Elems(batch[1..])
  {
    assert batch == [batch[0]] + batch[1..];
  }

  /** The head of a strictly ascending batch scores below its other members, which are its tail. */
  lemma HeadLowest(a: seq<Entry>)
    requires StrictlyAscending(a) && a != []
    ensures forall e :: e in Elems(a) && e != a[0] ==> a[0].score < e.score
    ensures Elems(a[1..]) == Elems(a) - {a[0]}
  {
    ElemsCons(a);
    forall k | 1 <= k < |a| ensures a[k] != a[0] {
      assert a[0].score < a[k].score;
    }
  }

  /** Two batches over the same members, both strictly ascending in score, are equal. */
  lemma {:induction false} StrictlySortedUnique(a: seq<Entry>, b: seq<Entry>)
    requires Elems(a) == Elems(b)
    requires StrictlyAscending(a) && StrictlyAscending(b)
    ensures a == b
  {
    ElemsEmpty(a);
    ElemsEmpty(b);
    if a != [] {
      HeadLowest(a);
      HeadLowest(b);
      assert a[0] in Elems(b) && b[0] in Elems(a);
      assert a[0] == b[0];
      StrictlySortedUnique(a[1..], b[1..]);
      assert a == [a[0]] + a[1..] && b == [b[0]] + b[1..];
    }
  }

  /** A prefix of a strictly ascending listing holds its lowest members, with a gap after it. */
  lemma PrefixIsLowest(listing: seq<Entry>, n: nat)
    requires StrictlyAscending(listing)
    ensures IsLowest(Elems(listing), Elems(listing[..Min(n, |listing|)]), n)
    ensures forall t, e :: t in Elems(listing[..Min(n, |listing|)]) && e in Elems(listing) && e !in Elems(listing[..Min(n, |listing|)]) ==> t.score < e.score
  {
    var k := Min(n, |listing|);
    var prefix := listing[..k];
    assert Distinct(listing) && Distinct(prefix);
    DistinctCard(listing);
    DistinctCard(prefix);
    forall j | 0 <= j < k ensures listing[j] in Elems(prefix) {
      assert prefix[j] == listing[j];
    }
    forall t, e | t in Elems(prefix) && e in Elems(listing) && e !in Elems(prefix) ensures t.score < e.score {
      var i :| 0 <= i < k && prefix[i] == t;
      var j :| 0 <= j < |listing| && listing[j] == e;
    }
  }

  /**
    When the pool's members all have their own scores, listed in strictly
    ascending order, the batch is exactly the first n of that listing.
  */
  lemma EarliestIsPrefix(listing: seq<Entry>, batch: seq<Entry>, n: nat)
    requires StrictlyAscending(listing)
    requires IsEarliest(Elems(listing), batch, n)
    ensures batch == listing[..Min(n, |listing|)]
  {
    var prefix := listing[..Min(n, |listing|)];
    PrefixIsLowest(listing, n);
    LowestUniqueAtGap(Elems(listing), Elems(prefix), Elems(batch), n);
    StrictScores(listing);
    forall i, j | 0 <= i < j < |batch| ensures batch[i].score < batch[j].score {
      assert batch[i] in Elems(batch) && batch[j] in Elems(batch);
      assert batch[i].score <= batch[j].score && batch[i] != batch[j];
    }
    StrictlySortedUnique(batch, prefix);
  }

  // ----- Merging per-bucket prefixes -----

  /** All members of all buckets together. */
  ghost function Union(buckets: map<nat, set<Entry>>): set<Entry> {
    set p, e | p in buckets && e in buckets[p] :: e
  }

  lemma BucketInUnion(buckets: map<nat, set<Entry>>, p: nat)
    requires p in buckets
    ensures buckets[p] <= Union(buckets)
  {
  }

  lemma UnionAdd(buckets: map<nat, set<Entry>>, p: nat, bucket: set<Entry>)
    requires p !in buckets
    ensures Union(buckets[p := bucket]) == Union(buckets) + bucket
  {
    var grown := buckets[p := bucket];
    forall e | e in Union(grown) ensures e in Union(buckets) + bucket {
      var q := UnionMember(grown, e);
      if q != p {
        BucketInUnion(buckets, q);
      }
    }
    forall q | q in buckets ensures buckets[q] <= Union(grown) {
      BucketInUnion(grown, q);
    }
    BucketInUnion(grown, p);
  }

  lemma UnionMember(buckets: map<nat, set<Entry>>, e: Entry) returns (p: nat)
    requires e in Union(buckets)
    ensures p in buckets && e in buckets[p]
  {
    p :| p in buckets && e in buckets[p];
  }

  /**
    The cross-priority batch is computed without reading whole buckets: each
    bucket contributes its own n lowest members (picked), and the n lowest of
    those candidates are the n lowest of all buckets together.
  */
  lemma LowestOfPrefixes(buckets: map<nat, set<Entry>>, picked: map<nat, set<Entry>>, taken: set<Entry>, n: nat)
    requires picked.Keys == buckets.Keys
    requires Offered(buckets, picked, n)
    requires IsLowest(Union(picked), taken, n)
    ensures IsLowest(Union(buckets), taken, n)
  {
    var all, cands := Union(buckets), Union(picked);
    assert cands <= all by {
      forall e | e in cands ensures e in all {
        var p := UnionMember(picked, e);
        BucketInUnion(buckets, p);
      }
    }
    PrefixesLeaveNothingLower(buckets, picked, taken, n);
    PrefixesOfferEnough(buckets, picked, n);
    SubsetCard(cands, all);
  }

  /** No member of any bucket scores lower than a member taken from the candidates. */
  lemma PrefixesLeaveNothingLower(buckets: map<nat, set<Entry>>, picked: map<nat, set<Entry>>, taken: set<Entry>, n: nat)
    requires picked.Keys == buckets.Keys
    requires forall p :: p in buckets ==> IsLowest(buckets[p], picked[p], n)
    requires IsLowest(Union(picked), taken, n)
    ensures forall t, e :: t in taken && e in Union(buckets) && e !in taken ==> t.score <= e.score
  {
    forall t, e | t in taken && e in Union(buckets) && e !in taken ensures t.score <= e.score {
      var p := UnionMember(buckets, e);
      BucketInUnion(picked, p);
      if e !in picked[p] {
        LeftBehindInBucket(buckets[p], picked[p], taken, Union(picked), t, e, n);
      }
    }
  }

  /** When the candidates number fewer than n, every bucket offered all it had. */
  lemma PrefixesOfferEnough(buckets: map<nat, set<Entry>>, picked: map<nat, set<Entry>>, n: nat)
    requires picked.Keys == buckets.Keys
    requires forall p :: p in buckets ==> IsLowest(buckets[p], picked[p], n)
    ensures |Union(picked)| < n ==> Union(buckets) <= Union(picked)
  {
    if |Union(picked)| < n {
      forall e | e in Union(buckets) ensures e in Union(picked) {
        var p := UnionMember(buckets, e);
        BucketInUnion(picked, p);
        SubsetCard(picked[p], Union(picked));
        SubsetCard(picked[p], buckets[p]);
      }
    }
  }

  /**
    The range query across buckets: each bucket offers its own n lowest
    members as candidates, and the candidates are merged by score and cut to
    n. The result is the n lowest members of all buckets together.
  */
  method MergedLowest(buckets: map<nat, set<Entry>>, n: nat) returns (batch: seq<Entry>)
    ensures IsEarliest(Union(buckets), batch, n)
  {
    var candidates, picked := Candidates(buckets, n);
    batch := RangeLowest(candidates, n);
    LowestOfPrefixes(buckets, picked, Elems(batch), n);
  }

  /** The n lowest members of each bucket, gathered into one set. */
  method Candidates(buckets: map<nat, set<Entry>>, n: nat) returns (candidates: set<Entry>, ghost picked: map<nat, set<Entry>>)
    ensures picked.Keys == buckets.Keys && Offered(buckets, picked, n)
    ensures candidates == Union(picked)
  {
    var todo := buckets.Keys;
    candidates := {};
    picked := map[];
    while todo != {}
      invariant todo <= buckets.Keys
      invariant picked.Keys == buckets.Keys - todo
      invariant forall q :: q in todo ==> q !in picked
      invariant Offered(buckets, picked, n)
      invariant candidates == Union(picked)
      decreases todo
    {
      var p :| p in todo;
      var prefix := RangeLowest(buckets[p], n);
      OfferMore(buckets, picked, n, p, Elems(prefix));
      UnionAdd(picked, p, Elems(prefix));
      picked := picked[p := Elems(prefix)];
      candidates := candidates + Elems(prefix);
      todo := todo - {p};
    }
  }

  /** Each bucket in picked has offered its n lowest members. */
  ghost predicate Offered(buckets: map<nat, set<Entry>>, picked: map<nat, set<Entry>>, n: nat) {
    forall p :: p in picked ==> p in buckets && IsLowest(buckets[p], picked[p], n)
  }

  lemma OfferMore(buckets: map<nat, set<Entry>>, picked: map<nat, set<Entry>>, n: nat, p: nat, prefix: set<Entry>)
    requires Offered(buckets, picked, n)
    requires p in buckets && IsLowest(buckets[p], prefix, n)
    ensures Offered(buckets, picked[p := prefix], n)
  {
  }

  /**
    A member e that its bucket did not even offer as a candidate scores no
    lower than any member taken from the candidates.
  */
  lemma LeftBehindInBucket(bucket: set<Entry>, picked: set<Entry>, taken: set<Entry>, cands: set<Entry>, t: Entry, e: Entry, n: nat)
    requires IsLowest(bucket, picked, n)
    requires picked <= cands
    requires IsLowest(cands, taken, n)
    requires t in taken && e in bucket && e !in picked
    ensures t.score <= e.score
  {
    SubsetCard(picked, bucket);
    assert |picked| == n;
    SubsetCard(taken, cands);
    if picked <= taken {
      SubsetCard(picked, taken);
      assert picked == taken;
    } else {
      var c :| c in picked && c !in taken;
      assert t.score <= c.score;
    }
  }
}
