/**
 * The counts that get_stats reports: total, completed and pending records, the
 * pending records per priority, and the completion rate, which is computed only
 * while some record is still pending.
 */
module Statistics {
  import opened Wrappers
  import opened TaskStore

  // ---------------------------------------------------------------------------
  // Counts over the list
  // ---------------------------------------------------------------------------

  /** The number of completed records. */
  function CompletedCount(ts: seq<Task>): (n: nat)
    ensures n <= |ts|
    ensures n == 0 <==> forall t :: t in ts ==> !t.completed
  {
    if ts == [] then 0
    else
      var last := ts[|ts| - 1];
      assert ts == ts[..|ts| - 1] + [last];
      CompletedCount(ts[..|ts| - 1]) + (if last.completed then 1 else 0)
  }

  /** Every record is either completed or pending: completed + pending == total. */
  lemma {:induction false} CompletedPlusPending(ts: seq<Task>)
    ensures CompletedCount(ts) + |Pending(ts)| == |ts|
  {
    if ts != [] {
      CompletedPlusPending(ts[..|ts| - 1]);
    }
  }

  /** The number of pending records whose priority is p. */
  function PendingWithPriority(ts: seq<Task>, p: string): (n: nat)
    ensures n <= |Pending(ts)|
  {
    if ts == [] then 0
    else
      var last := ts[|ts| - 1];
      PendingWithPriority(ts[..|ts| - 1], p) + (if !last.completed && last.priority == p then 1 else 0)
  }

  /** The priorities of the pending records. */
  function PendingPriorities(ts: seq<Task>): set<string>
  {
    set t | t in ts && !t.completed :: t.priority
  }

  // ---------------------------------------------------------------------------
  // The per-priority dictionary
  // ---------------------------------------------------------------------------

  /** The dictionary get_stats starts from: each accepted priority at zero. */
  const InitialCounts: map<string, nat> := map["high" := 0, "medium" := 0, "low" := 0]

  /** One more record of priority p: the count becomes its old value (0 when
      the key is missing) plus one. */
  function Bump(m: map<string, nat>, p: string): (r: map<string, nat>)
    ensures r.Keys == m.Keys + {p}
    ensures r[p] == (if p in m then m[p] else 0) + 1
    ensures forall q :: q in m && q != p ==> r[q] == m[q]
  {
    m[p := (if p in m then m[p] else 0) + 1]
  }

  /** The dictionary after counting the pending records of ts in order. */
  function PendingByPriority(ts: seq<Task>): (r: map<string, nat>)
  {
    if ts == [] then InitialCounts
    else
      var last := ts[|ts| - 1];
      var m := PendingByPriority(ts[..|ts| - 1]);
      if last.completed then m else Bump(m, last.priority)
  }

  /** One step of the counting loop: the dictionary for the first i + 1
      records is the one for the first i, bumped when record i is pending. */
  lemma PendingByPriorityStep(ts: seq<Task>, i: nat)
    requires i < |ts|
    ensures PendingByPriority(ts[..i + 1]) ==
      if ts[i].completed then PendingByPriority(ts[..i]) else Bump(PendingByPriority(ts[..i]), ts[i].priority)
  {
    assert ts[..i + 1][..i] == ts[..i];
  }

  /** Its keys are the three accepted priorities plus every priority some
      pending record carries. */
  lemma {:induction false} PendingByPriorityKeys(ts: seq<Task>)
    ensures PendingByPriority(ts).Keys == ValidPriorities + PendingPriorities(ts)
  {
    if ts != [] {
      var init, last := ts[..|ts| - 1], ts[|ts| - 1];
      PendingByPriorityKeys(init);
      PendingPrioritiesSnoc(init, last);
      assert ts == init + [last];
    }
  }

  lemma PendingPrioritiesSnoc(init: seq<Task>, last: Task)
    ensures PendingPriorities(init + [last]) ==
      PendingPriorities(init) + (if last.completed then {} else {last.priority})
  {
  }

  /** Each value is the number of pending records with that priority. */
  lemma {:induction false} PendingByPriorityValues(ts: seq<Task>, p: string)
    requires p in PendingByPriority(ts)
    ensures PendingByPriority(ts)[p] == PendingWithPriority(ts, p)
  {
    if ts != [] {
      var init, last := ts[..|ts| - 1], ts[|ts| - 1];
      var m := PendingByPriority(init);
      if last.completed || last.priority != p {
        PendingByPriorityValues(init, p);
      } else if p in m {
        PendingByPriorityValues(init, p);
      } else {
        PendingByPriorityKeys(init);
        PendingWithPriorityAbsent(init, p);
      }
    }
  }

  /** No pending record has a priority that is not a key of the counts. */
  lemma {:induction false} PendingWithPriorityAbsent(ts: seq<Task>, p: string)
    requires p !in PendingPriorities(ts)
    ensures PendingWithPriority(ts, p) == 0
  {
    if ts != [] {
      var init, last := ts[..|ts| - 1], ts[|ts| - 1];
      PendingPrioritiesSnoc(init, last);
      assert ts == init + [last];
      PendingWithPriorityAbsent(init, p);
    }
  }

  // ---------------------------------------------------------------------------
  // Summing the dictionary
  // ---------------------------------------------------------------------------

  /** The sum of the values of m. */
  ghost function MapSum(m: map<string, nat>): nat
    decreases |m.Keys|
  {
    if m == map[] then 0
    else
      var k :| k in m;
      m[k] + MapSum(m - {k})
  }

  /** The sum may be taken by removing any key first, not only the chosen one. */
  lemma {:induction false} MapSumRemove(m: map<string, nat>, k: string)
    requires k in m
    ensures MapSum(m) == m[k] + MapSum(m - {k})
    decreases |m.Keys|
  {
    var c :| c in m && MapSum(m) == m[c] + MapSum(m - {c});
    if c != k {
      MapSumRemove(m - {c}, k);
      MapSumRemove(m - {k}, c);
      assert (m - {c}) - {k} == (m - {k}) - {c};
    }
  }

  /** A map whose values are all zero sums to zero. */
  lemma {:induction false} MapSumZero(m: map<string, nat>)
    requires forall k :: k in m ==> m[k] == 0
    ensures MapSum(m) == 0
    decreases |m.Keys|
  {
    if m != map[] {
      var k :| k in m && MapSum(m) == m[k] + MapSum(m - {k});
      MapSumZero(m - {k});
    }
  }

  /** Counting one more record adds one to the sum. */
  lemma MapSumBump(m: map<string, nat>, p: string)
    ensures MapSum(Bump(m, p)) == MapSum(m) + 1
  {
    var r := Bump(m, p);
    MapSumRemove(r, p);
    assert r - {p} == m - {p};
    if p in m {
      MapSumRemove(m, p);
    } else {
      assert m - {p} == m;
    }
  }

  /** The per-priority counts, including keys for priorities outside the
      accepted three, add up to the number of pending records. */
  lemma {:induction false} PendingByPrioritySum(ts: seq<Task>)
    ensures MapSum(PendingByPriority(ts)) == |Pending(ts)|
  {
    if ts == [] {
      MapSumZero(InitialCounts);
    } else {
      var init, last := ts[..|ts| - 1], ts[|ts| - 1];
      PendingByPrioritySum(init);
      if !last.completed {
        MapSumBump(PendingByPriority(init), last.priority);
      }
    }
  }

  /** When every priority is one of the three, the three displayed counts
      cover all pending records. */
  lemma {:induction false} ValidCountsCoverPending(ts: seq<Task>)
    requires PrioritiesValid(ts)
    ensures PendingWithPriority(ts, "high") + PendingWithPriority(ts, "medium")
      + PendingWithPriority(ts, "low") == |Pending(ts)|
  {
    if ts != [] {
      var init, last := ts[..|ts| - 1], ts[|ts| - 1];
      assert last in ts;
      assert PrioritiesValid(init) by {
        forall t | t in init ensures t.priority in ValidPriorities {
          assert t in ts;
        }
      }
      ValidCountsCoverPending(init);
      assert |Pending(ts)| == |Pending(init)| + (if last.completed then 0 else 1);
      assert PendingWithPriority(ts, "high") == PendingWithPriority(init, "high") + (if !last.completed && last.priority == "high" then 1 else 0);
      assert PendingWithPriority(ts, "medium") == PendingWithPriority(init, "medium") + (if !last.completed && last.priority == "medium" then 1 else 0);
      assert PendingWithPriority(ts, "low") == PendingWithPriority(init, "low") + (if !last.completed && last.priority == "low" then 1 else 0);
    }
  }

  // ---------------------------------------------------------------------------
  // The report
  // ---------------------------------------------------------------------------

  /** What get_stats reports. `completionRate` is the percentage of completed
      records and is present only when some record is pending. */
  datatype Stats = Stats(
    total: nat,
    completed: nat,
    pending: nat,
    pendingByPriority: map<string, nat>,
    completionRate: Option<real>)

  /** The report for ts. Pending is total minus completed; the rate divides by
      total only under the guard pending > 0. */
  function StatsOf(ts: seq<Task>): (st: Stats)
    ensures st.total == |ts| && st.completed + st.pending == st.total
    ensures st.pending == |Pending(ts)|
    ensures st.pendingByPriority == PendingByPriority(ts)
    ensures st.completionRate == CompletionRate(st.completed, st.total)
  {
    CompletedPlusPending(ts);
    var total := |ts|;
    var completed := CompletedCount(ts);
    var pending := total - completed;
    Stats(total, completed, pending, PendingByPriority(ts), CompletionRate(completed, total))
  }

  /** The completion percentage, computed only under the guard that some
      record is pending (total - completed > 0), so the division never sees a
      zero total. */
  function CompletionRate(completed: nat, total: nat): (r: Option<real>)
    requires completed <= total
    ensures r.Some? <==> total - completed > 0
    ensures r.Some? ==> 0.0 <= r.value < 100.0
    ensures r.Some? ==> r.value * (total as real) == (completed as real) * 100.0
  {
    if total - completed > 0 then
      RateBounds(completed, total);
      Some((completed as real / total as real) * 100.0)
    else None
  }

  /** Proof aid: unfolds CompletionRate for the get_stats method, which
      computes the same guarded percentage inline. */
  lemma CompletionRateComputed(completed: nat, total: nat)
    requires completed <= total
    ensures CompletionRate(completed, total) ==
      if total - completed > 0 then Some((completed as real / total as real) * 100.0) else None
  {
  }

  /** The percentage completed/total*100 lies in [0, 100) while some record
      is pending, and times total gives back completed*100. */
  lemma RateBounds(completed: nat, total: nat)
    requires completed < total
    ensures 0.0 <= (completed as real / total as real) * 100.0 < 100.0
    ensures (completed as real / total as real) * 100.0 * (total as real) == (completed as real) * 100.0
  {
  }

  /** One high-priority task and one completed low-priority task: two in
      total, one completed, one pending (high), a completion rate of 50. */
  lemma StatsScenario(a: Task, b: Task)
    requires a.priority == "high" && !a.completed
    requires b.priority == "low" && b.completed
    ensures StatsOf([a, b]).completed == 1 && StatsOf([a, b]).pending == 1
    ensures StatsOf([a, b]).pendingByPriority == map["high" := 1, "medium" := 0, "low" := 0]
    ensures StatsOf([a, b]).completionRate == Some(50.0)
  {
    var ts := [a, b];
    assert ts[..1] == [a];
    assert [a][..0] == [];
    assert PendingByPriority([a]) == Bump(InitialCounts, "high");
  }
}
