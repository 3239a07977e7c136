/** The dense `order` field of jobs: every job's `order` is its list position,
    so across N jobs the orders are exactly 0..N-1. Shared by the reorder
    endpoint and the jobs list. */
module Ordering {
  import opened Types
  import opened Sequences

  function OrderOf(j: Job): int { j.order }

  function IdOf(j: Job): string { j.id }

  /** Some row carries the id. */
  predicate HasId(jobs: seq<Job>, id: string) {
    exists k :: 0 <= k < |jobs| && jobs[k].id == id
  }

  /** `all.sort((a, b) => a.order - b.order)`. */
  function SortByOrder(jobs: seq<Job>): seq<Job> {
    SortBy(jobs, OrderOf)
  }

  /** Orders are positions: each lies in 0..N-1 and no two jobs share one. */
  predicate Dense(jobs: seq<Job>) {
    (forall i :: 0 <= i < |jobs| ==> 0 <= jobs[i].order < |jobs|)
    && KeyUnique(jobs, OrderOf)
  }

  /** The set of orders of a table. */
  function Orders(jobs: seq<Job>): set<int> {
    set i | 0 <= i < |jobs| :: jobs[i].order
  }

  predicate IdsUnique(jobs: seq<Job>) {
    KeyUnique(jobs, IdOf)
  }

  /** `jobs.map((job, idx) => ({ ...job, order: idx }))`. */
  function Renumbered(jobs: seq<Job>): seq<Job> {
    seq(|jobs|, i requires 0 <= i < |jobs| => jobs[i].(order := i))
  }

  /** Renumbering leaves every job in place with its position as its order, so
      the result is dense whatever the input orders were. */
  lemma RenumberedIsDense(jobs: seq<Job>)
    ensures |Renumbered(jobs)| == |jobs|
    ensures forall i :: 0 <= i < |jobs| ==> Renumbered(jobs)[i] == jobs[i].(order := i)
    ensures Dense(Renumbered(jobs))
  {
  }

  /** A strictly increasing run of N integers inside 0..N-1 is 0, 1, ..., N-1. */
  lemma {:induction false} IncreasingInRangeIsIdentity(s: seq<Job>, i: nat)
    requires forall k :: 0 <= k < |s| ==> 0 <= s[k].order < |s|
    requires forall a, b :: 0 <= a < b < |s| ==> s[a].order < s[b].order
    requires i < |s|
    ensures s[i].order == i
  {
    AtLeastIndex(s, i);
    AtMostIndex(s, i);
  }

  lemma {:induction false} AtLeastIndex(s: seq<Job>, i: nat)
    requires forall k :: 0 <= k < |s| ==> 0 <= s[k].order
    requires forall a, b :: 0 <= a < b < |s| ==> s[a].order < s[b].order
    requires i < |s|
    ensures s[i].order >= i
  {
    if i > 0 {
      AtLeastIndex(s, i - 1);
    }
  }

  lemma {:induction false} AtMostIndex(s: seq<Job>, i: nat)
    requires forall k :: 0 <= k < |s| ==> s[k].order < |s|
    requires forall a, b :: 0 <= a < b < |s| ==> s[a].order < s[b].order
    requires i < |s|
    ensures s[i].order <= i
    decreases |s| - i
  {
    if i < |s| - 1 {
      AtMostIndex(s, i + 1);
    }
  }

  /** Sorting a dense table puts the job with order i at position i. */
  lemma SortDense(jobs: seq<Job>)
    requires Dense(jobs)
    ensures |SortByOrder(jobs)| == |jobs|
    ensures forall i :: 0 <= i < |jobs| ==> SortByOrder(jobs)[i].order == i
  {
    var s := SortByOrder(jobs);
    KeyUniquePermutation(jobs, s, OrderOf);
    OrdersStayInRange(jobs, s);
    SortedUniqueIsIncreasing(s);
    forall i | 0 <= i < |s| ensures s[i].order == i {
      IncreasingInRangeIsIdentity(s, i);
    }
  }

  lemma OrdersStayInRange(jobs: seq<Job>, s: seq<Job>)
    requires Dense(jobs) && multiset(s) == multiset(jobs)
    ensures forall k :: 0 <= k < |s| ==> 0 <= s[k].order < |s|
  {
    assert |s| == |multiset(s)| == |jobs|;
    forall k | 0 <= k < |s| ensures 0 <= s[k].order < |s| {
      assert s[k] in multiset(jobs);
      var p :| 0 <= p < |jobs| && jobs[p] == s[k];
    }
  }

  lemma SortedUniqueIsIncreasing(s: seq<Job>)
    requires SortedBy(s, OrderOf) && KeyUnique(s, OrderOf)
    ensures forall a, b :: 0 <= a < b < |s| ==> s[a].order < s[b].order
  {
    forall a, b | 0 <= a < b < |s| ensures s[a].order < s[b].order {
      assert OrderOf(s[a]) <= OrderOf(s[b]);
    }
  }

  /** A dense table's orders are exactly {0, ..., N-1}. */
  lemma DenseOrdersAreRange(jobs: seq<Job>)
    requires Dense(jobs)
    ensures forall x :: x in Orders(jobs) <==> 0 <= x < |jobs|
  {
    var s := SortByOrder(jobs);
    SortDense(jobs);
    forall i | 0 <= i < |jobs| ensures i in Orders(jobs) {
      assert s[i] in multiset(jobs);
      var k :| 0 <= k < |jobs| && jobs[k] == s[i];
      assert jobs[k].order == i;
    }
  }

  /** In a dense table the job sorted to position `p` is the one whose order is `p`,
      and it is the only one. */
  lemma SortedPositionIsOrder(jobs: seq<Job>, p: nat)
    requires Dense(jobs) && p < |jobs|
    ensures SortByOrder(jobs)[p] in jobs
    ensures SortByOrder(jobs)[p].order == p
    ensures forall k :: 0 <= k < |jobs| && jobs[k].order == p ==> jobs[k] == SortByOrder(jobs)[p]
  {
    var s := SortByOrder(jobs);
    SortDense(jobs);
    assert s[p] in multiset(jobs);
    var q :| 0 <= q < |jobs| && jobs[q] == s[p];
    forall k | 0 <= k < |jobs| && jobs[k].order == p ensures jobs[k] == s[p] {
      assert k == q;
    }
  }
}
