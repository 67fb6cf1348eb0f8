/**
 * The display order of view_tasks: records are sorted by the rank of their
 * priority (high, medium, low, then anything else) with list.sort, which is
 * stable. A stable sort on a key with four values puts the group of rank 1
 * first, then the group of rank 2, and so on, each group in its original
 * order; SortByRank is defined that way, and SortByRankUnique shows that no
 * other ordering meets the contract of a stable sort.
 */
module PriorityOrder {
  import opened TaskStore

  /** The sort key: high = 1, medium = 2, low = 3, anything else = 4. */
  function Rank(priority: string): (r: nat)
    ensures 1 <= r <= 4
    ensures r <= 3 <==> priority in ValidPriorities
  {
    if priority == "high" then 1
    else if priority == "medium" then 2
    else if priority == "low" then 3
    else 4
  }

  function RankOf(t: Task): nat
  {
    Rank(t.priority)
  }

  /** The records of s whose rank is k, in their order in s. */
  function Bucket(s: seq<Task>, k: nat): (r: seq<Task>)
    ensures |r| <= |s|
  {
    if s == [] then []
    else Bucket(s[..|s| - 1], k) + (if RankOf(s[|s| - 1]) == k then [s[|s| - 1]] else [])
  }

  /** The groups of ranks k, k + 1, ..., 4 of s, one after the other. */
  function GroupsFrom(s: seq<Task>, k: nat): seq<Task>
    decreases 5 - k
  {
    if k > 4 then [] else Bucket(s, k) + GroupsFrom(s, k + 1)
  }

  /** The list after sort(key = rank): the high records, then the medium ones,
      then the low ones, then the rest, each group in its original order. */
  function SortByRank(s: seq<Task>): seq<Task>
  {
    GroupsFrom(s, 1)
  }

  /** Ranks never decrease along s. */
  predicate SortedByRank(s: seq<Task>)
  {
    forall i, j :: 0 <= i < j < |s| ==> RankOf(s[i]) <= RankOf(s[j])
  }

  /** Every record of s has rank at most m. */
  predicate RanksAtMost(s: seq<Task>, m: nat)
  {
    forall i :: 0 <= i < |s| ==> RankOf(s[i]) <= m
  }

  /** Every record of s has rank at least m. */
  predicate RanksAtLeast(s: seq<Task>, m: nat)
  {
    forall i :: 0 <= i < |s| ==> m <= RankOf(s[i])
  }

  // ---------------------------------------------------------------------------
  // Facts about one group
  // ---------------------------------------------------------------------------

  /** Every record of the group of rank k has rank k. */
  lemma {:induction false} BucketRanks(s: seq<Task>, k: nat)
    ensures forall i :: 0 <= i < |Bucket(s, k)| ==> RankOf(Bucket(s, k)[i]) == k
  {
    if s != [] {
      BucketRanks(s[..|s| - 1], k);
    }
  }

  /** Appending one record appends it to the group of its rank only. */
  lemma BucketSnoc(init: seq<Task>, last: Task, k: nat)
    ensures Bucket(init + [last], k) == Bucket(init, k) + (if RankOf(last) == k then [last] else [])
  {
  }

  /** Grouping distributes over concatenation. */
  lemma {:induction false} BucketAppend(a: seq<Task>, b: seq<Task>, k: nat)
    ensures Bucket(a + b, k) == Bucket(a, k) + Bucket(b, k)
  {
    if b == [] {
      assert a + b == a;
    } else {
      var init := b[..|b| - 1];
      assert (a + b)[..|a + b| - 1] == a + init;
      BucketAppend(a, init, k);
    }
  }

  /** The group of rank k of a sequence whose records all have rank k is the
      whole sequence. */
  lemma {:induction false} BucketOfUniform(s: seq<Task>, k: nat)
    requires forall i :: 0 <= i < |s| ==> RankOf(s[i]) == k
    ensures Bucket(s, k) == s
  {
    if s != [] {
      var init := s[..|s| - 1];
      BucketOfUniform(init, k);
      assert s == init + [s[|s| - 1]];
    }
  }

  /** The group of rank k of a sequence with no record of rank k is empty. */
  lemma {:induction false} BucketOfOther(s: seq<Task>, k: nat)
    requires forall i :: 0 <= i < |s| ==> RankOf(s[i]) != k
    ensures Bucket(s, k) == []
  {
    if s != [] {
      BucketOfOther(s[..|s| - 1], k);
    }
  }

  /** The group of rank k holds every record of rank k as often as s does,
      and nothing else. */
  lemma {:induction false} BucketCount(s: seq<Task>, k: nat, x: Task)
    ensures multiset(Bucket(s, k))[x] == if RankOf(x) == k then multiset(s)[x] else 0
  {
    if s != [] {
      var init, last := s[..|s| - 1], s[|s| - 1];
      BucketCount(init, k, x);
      assert s == init + [last];
      BucketSnoc(init, last, k);
    }
  }

  /** Concatenating a rank-sorted sequence with one whose records rank no lower
      gives a rank-sorted sequence. */
  lemma ConcatSorted(a: seq<Task>, b: seq<Task>, m: nat)
    requires SortedByRank(a) && SortedByRank(b)
    requires RanksAtMost(a, m) && RanksAtLeast(b, m)
    ensures SortedByRank(a + b)
  {
  }

  // ---------------------------------------------------------------------------
  // Facts about the groups from rank k on
  // ---------------------------------------------------------------------------

  /** The groups from rank k on are rank-sorted and rank at least k. */
  lemma {:induction false} GroupsFromSorted(s: seq<Task>, k: nat)
    ensures SortedByRank(GroupsFrom(s, k)) && RanksAtLeast(GroupsFrom(s, k), k)
    decreases 5 - k
  {
    if k <= 4 {
      var b, rest := Bucket(s, k), GroupsFrom(s, k + 1);
      BucketRanks(s, k);
      GroupsFromSorted(s, k + 1);
      ConcatSorted(b, rest, k);
    }
  }

  /** The groups from rank j on hold no record of a lower rank k. */
  lemma {:induction false} GroupsFromMissLower(s: seq<Task>, j: nat, k: nat)
    requires k < j
    ensures Bucket(GroupsFrom(s, j), k) == []
    decreases 5 - j
  {
    if j <= 4 {
      var b, rest := Bucket(s, j), GroupsFrom(s, j + 1);
      assert GroupsFrom(s, j) == b + rest;
      BucketAppend(b, rest, k);
      BucketRanks(s, j);
      BucketOfOther(b, k);
      GroupsFromMissLower(s, j + 1, k);
    }
  }

  /** Regrouping the groups from rank j on gives back the group of each rank
      k >= j unchanged. */
  lemma {:induction false} GroupsFromStable(s: seq<Task>, j: nat, k: nat)
    requires j <= k <= 4
    ensures Bucket(GroupsFrom(s, j), k) == Bucket(s, k)
    decreases 5 - j
  {
    var b, rest := Bucket(s, j), GroupsFrom(s, j + 1);
    assert GroupsFrom(s, j) == b + rest;
    BucketAppend(b, rest, k);
    BucketRanks(s, j);
    if j == k {
      BucketOfUniform(b, k);
      GroupsFromMissLower(s, j + 1, k);
      assert b + [] == b;
    } else {
      BucketOfOther(b, k);
      GroupsFromStable(s, j + 1, k);
      assert [] + Bucket(rest, k) == Bucket(rest, k);
    }
  }

  /** Groups above every rank present are empty. */
  lemma {:induction false} GroupsAboveAreEmpty(s: seq<Task>, m: nat, k: nat)
    requires RanksAtMost(s, m) && m < k
    ensures GroupsFrom(s, k) == []
    decreases 5 - k
  {
    if k <= 4 {
      GroupsAboveAreEmpty(s, m, k + 1);
      BucketOfOther(s, k);
    }
  }

  /** Appending a record that ranks no lower than any record before it
      appends it to the regrouped list as well. */
  lemma {:induction false} GroupsFromSnocHighest(init: seq<Task>, last: Task, j: nat)
    requires RanksAtMost(init, RankOf(last)) && j <= RankOf(last)
    ensures GroupsFrom(init + [last], j) == GroupsFrom(init, j) + [last]
    decreases 5 - j
  {
    var s := init + [last];
    BucketSnoc(init, last, j);
    assert GroupsFrom(s, j) == Bucket(s, j) + GroupsFrom(s, j + 1);
    assert GroupsFrom(init, j) == Bucket(init, j) + GroupsFrom(init, j + 1);
    if j == RankOf(last) {
      SnocHighestAtItsRank(init, last);
    } else {
      GroupsFromSnocHighest(init, last, j + 1);
      assert Bucket(s, j) == Bucket(init, j) + [];
      assert GroupsFrom(s, j) == Bucket(init, j) + (GroupsFrom(init, j + 1) + [last]);
    }
  }

  /** The base case: from the rank of the appended record on, only its own
      group is non-empty, and the record ends it. */
  lemma SnocHighestAtItsRank(init: seq<Task>, last: Task)
    requires RanksAtMost(init, RankOf(last))
    ensures GroupsFrom(init + [last], RankOf(last)) == GroupsFrom(init, RankOf(last)) + [last]
  {
    var s, k := init + [last], RankOf(last);
    assert RanksAtMost(s, k) by {
      forall i | 0 <= i < |s| ensures RankOf(s[i]) <= k {
        if i < |init| {
          assert s[i] == init[i];
        }
      }
    }
    BucketSnoc(init, last, k);
    GroupsAboveAreEmpty(s, k, k + 1);
    GroupsAboveAreEmpty(init, k, k + 1);
    assert GroupsFrom(s, k) == (Bucket(init, k) + [last]) + [];
    assert GroupsFrom(init, k) == Bucket(init, k) + [];
  }

  // ---------------------------------------------------------------------------
  // The properties of a stable sort
  // ---------------------------------------------------------------------------

  /** The sorted list holds the same records, each as often: a permutation. */
  lemma SortByRankPermutation(s: seq<Task>)
    ensures multiset(SortByRank(s)) == multiset(s)
    ensures |SortByRank(s)| == |s|
  {
    var b1, b2, b3, b4 := Bucket(s, 1), Bucket(s, 2), Bucket(s, 3), Bucket(s, 4);
    assert SortByRank(s) == b1 + (b2 + (b3 + (b4 + [])));
    forall x
      ensures multiset(SortByRank(s))[x] == multiset(s)[x]
    {
      BucketCount(s, 1, x);
      BucketCount(s, 2, x);
      BucketCount(s, 3, x);
      BucketCount(s, 4, x);
    }
    assert multiset(SortByRank(s)) == multiset(s);
  }

  /** Ranks never decrease along the sorted list. */
  lemma SortByRankSorted(s: seq<Task>)
    ensures SortedByRank(SortByRank(s))
  {
    GroupsFromSorted(s, 1);
  }

  /** Records of equal rank keep their relative order: the group of each rank
      is the same before and after sorting. */
  lemma SortByRankStable(s: seq<Task>, k: nat)
    requires 1 <= k <= 4
    ensures Bucket(SortByRank(s), k) == Bucket(s, k)
  {
    GroupsFromStable(s, 1, k);
  }

  /** A list that is already rank-sorted is left as it is. */
  lemma {:induction false} SortedIsFixed(s: seq<Task>)
    requires SortedByRank(s)
    ensures SortByRank(s) == s
  {
    if s != [] {
      var init, last := s[..|s| - 1], s[|s| - 1];
      assert SortedByRank(init);
      SortedIsFixed(init);
      assert RanksAtMost(init, RankOf(last));
      assert s == init + [last];
      GroupsFromSnocHighest(init, last, 1);
    }
  }

  /** Sorting twice is sorting once: viewing all tasks a second time does not
      reorder the store again. */
  lemma SortByRankIdempotent(s: seq<Task>)
    ensures SortByRank(SortByRank(s)) == SortByRank(s)
  {
    SortByRankSorted(s);
    SortedIsFixed(SortByRank(s));
  }

  /** SortByRank is the only stable sort by rank: any rank-sorted list that
      keeps every rank's records in their order in s equals it. */
  lemma SortByRankUnique(s: seq<Task>, r: seq<Task>)
    requires SortedByRank(r)
    requires forall k :: 1 <= k <= 4 ==> Bucket(r, k) == Bucket(s, k)
    ensures r == SortByRank(s)
  {
    SortedIsFixed(r);
    assert Bucket(r, 1) == Bucket(s, 1) && Bucket(r, 2) == Bucket(s, 2);
    assert Bucket(r, 3) == Bucket(s, 3) && Bucket(r, 4) == Bucket(s, 4);
  }

  /** Sorting keeps the store invariants, which speak of membership only. */
  lemma SortByRankKeepsInvariants(s: seq<Task>)
    ensures DatesConsistent(s) ==> DatesConsistent(SortByRank(s))
    ensures PrioritiesValid(s) ==> PrioritiesValid(SortByRank(s))
  {
    SortByRankPermutation(s);
    assert forall t :: t in SortByRank(s) ==> t in multiset(s);
  }

  /** The ordering example: priorities low, high, medium, high are shown as the
      two high tasks in their original order, then medium, then low. */
  lemma SortScenario(lo: Task, h1: Task, md: Task, h2: Task)
    requires lo.priority == "low" && h1.priority == "high"
    requires md.priority == "medium" && h2.priority == "high"
    ensures SortByRank([lo, h1, md, h2]) == [h1, h2, md, lo]
  {
    var s := [lo, h1, md, h2];
    assert RankOf(lo) == 3 && RankOf(h1) == 1 && RankOf(md) == 2 && RankOf(h2) == 1;
    BucketOfFour(lo, h1, md, h2, 1);
    BucketOfFour(lo, h1, md, h2, 2);
    BucketOfFour(lo, h1, md, h2, 3);
    BucketOfFour(lo, h1, md, h2, 4);
    assert GroupsFrom(s, 5) == [];
    assert GroupsFrom(s, 4) == [];
    assert GroupsFrom(s, 3) == [lo];
    assert GroupsFrom(s, 2) == [md, lo];
  }

  /** The group of rank k of a four-record list, record by record. */
  lemma BucketOfFour(a: Task, b: Task, c: Task, d: Task, k: nat)
    ensures Bucket([a, b, c, d], k) == Only(a, k) + Only(b, k) + Only(c, k) + Only(d, k)
  {
    assert [a, b, c, d] == [a, b, c] + [d];
    assert [a, b, c] == [a, b] + [c];
    assert [a, b] == [a] + [b];
    assert [a] == [] + [a];
    BucketSnoc([a, b, c], d, k);
    BucketSnoc([a, b], c, k);
    BucketSnoc([a], b, k);
    BucketSnoc([], a, k);
  }

  /** The record as a one-element group when its rank is k, else nothing. */
  function Only(t: Task, k: nat): seq<Task>
  {
    if RankOf(t) == k then [t] else []
  }
}
