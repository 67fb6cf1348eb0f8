/**
 * The task manager object: one ordered list of task records that add, complete,
 * delete and view change in place, and the statistics read from it. Each method
 * is specified by the pure operations of TaskStore, PriorityOrder and Statistics.
 */
module Manager {
  import opened Wrappers
  import opened TaskStore
  import opened PriorityOrder
  import opened Statistics

  /** What view_tasks shows: the empty-store message, the "no pending/completed
      tasks" message, or the listed records in display order. */
  datatype ViewResult = NoTasks | NoneToShow | Listing(rows: seq<Task>)

  class TaskManager {
    /** The records, in list order. */
    var tasks: seq<Task>

    /** A new manager holds the records that loading produced, or none when
        there was nothing to load. */
    constructor(loaded: Option<seq<Task>>)
      ensures tasks == (if loaded.Some? then loaded.value else [])
    {
      tasks := [];
      if loaded.Some? {
        tasks := loaded.value;
      }
    }

    /** add_task: appends a pending record numbered one past the length. */
    method AddTask(description: string, priority: string, now: string)
      modifies this
      ensures tasks == Add(old(tasks), description, priority, now)
      ensures DatesConsistent(old(tasks)) ==> DatesConsistent(tasks)
    {
      var task := Task(|tasks| + 1, description, Lower(priority), false, now, None);
      tasks := tasks + [task];
      AddKeepsInvariants(old(tasks), description, priority, now);
    }

    /** find_task_by_id: scans the list from the front and stops at the first
        record with the id. */
    method FindTaskById(id: int) returns (pos: Option<nat>)
      ensures pos == FirstIndex(tasks, id)
    {
      var i := 0;
      while i < |tasks|
        invariant 0 <= i <= |tasks|
        invariant forall j :: 0 <= j < i ==> tasks[j].id != id
      {
        if tasks[i].id == id {
          return Some(i);
        }
        i := i + 1;
      }
      return None;
    }

    /** complete_task: marks the record found by id as completed, unless it
        is missing or completed already. */
    method CompleteTask(id: int, now: string) returns (outcome: CompleteOutcome)
      modifies this
      ensures (tasks, outcome) == Complete(old(tasks), id, now)
      ensures DatesConsistent(old(tasks)) ==> DatesConsistent(tasks)
    {
      var pos := FindTaskById(id);
      match pos {
        case None =>
          outcome := NotFound;
        case Some(i) =>
          if tasks[i].completed {
            outcome := AlreadyCompleted;
          } else {
            tasks := tasks[i := MarkCompleted(tasks[i], now)];
            outcome := MarkedCompleted;
          }
      }
      CompleteKeepsInvariants(old(tasks), id, now);
    }

    /** delete_task: removes the record found by id with list.remove; reports
        whether there was one. */
    method DeleteTask(id: int) returns (found: bool)
      modifies this
      ensures found <==> FirstIndex(old(tasks), id).Some?
      ensures tasks == Delete(old(tasks), id)
      ensures found ==> |tasks| == |old(tasks)| - 1
      ensures DatesConsistent(old(tasks)) ==> DatesConsistent(tasks)
    {
      var pos := FindTaskById(id);
      found := pos.Some?;
      if found {
        tasks := RemoveFirst(tasks, tasks[pos.value]);
      }
      DeleteRemovesFirstMatch(old(tasks), id);
      DeleteKeepsInvariants(old(tasks), id);
    }

    /** view_tasks: an empty store shows nothing and is untouched. Otherwise
        the shown records are all of them, or only the pending ones, sorted by
        priority rank. With all records shown the list being sorted is the
        store itself, so the store is left in that order. */
    method ViewTasks(showCompleted: bool) returns (v: ViewResult)
      modifies this
      ensures old(tasks) == [] ==> v == NoTasks && tasks == old(tasks)
      ensures old(tasks) != [] ==>
        var shown := if showCompleted then old(tasks) else Pending(old(tasks));
        (shown == [] <==> v == NoneToShow) &&
        (shown != [] ==> v == Listing(SortByRank(shown)))
      ensures v.Listing? ==> SortedByRank(v.rows)
      ensures v.Listing? && !showCompleted ==> multiset(v.rows) == multiset(Pending(old(tasks)))
      ensures showCompleted ==> tasks == SortByRank(old(tasks))
      ensures showCompleted ==> multiset(tasks) == multiset(old(tasks)) && SortedByRank(tasks)
      ensures !showCompleted ==> tasks == old(tasks)
    {
      SortByRankPermutation(tasks);
      SortByRankSorted(tasks);
      if tasks == [] {
        return NoTasks;
      }
      var filtered := tasks;
      if !showCompleted {
        filtered := Pending(tasks);
      }
      if filtered == [] {
        return NoneToShow;
      }
      SortByRankPermutation(filtered);
      SortByRankSorted(filtered);
      filtered := SortByRank(filtered);
      if showCompleted {
        tasks := filtered;
      }
      v := Listing(filtered);
    }

    /** get_stats: totals from the list, and the per-priority dictionary built
        by one pass that bumps the count of each pending record's priority.
        The rate is computed only while some record is pending. */
    method GetStats() returns (st: Stats)
      ensures st == StatsOf(tasks)
      ensures MapSum(st.pendingByPriority) == st.pending
    {
      var total := |tasks|;
      var completed := CompletedCount(tasks);
      CompletedPlusPending(tasks);
      var pending := total - completed;

      var counts := InitialCounts;
      var i := 0;
      while i < |tasks|
        invariant 0 <= i <= |tasks|
        invariant counts == PendingByPriority(tasks[..i])
      {
        PendingByPriorityStep(tasks, i);
        if !tasks[i].completed {
          counts := Bump(counts, tasks[i].priority);
        }
        i := i + 1;
      }
      assert tasks[..i] == tasks;

      var rate: Option<real> := None;
      if pending > 0 {
        rate := Some((completed as real / total as real) * 100.0);
      }
      CompletionRateComputed(completed, total);
      st := Stats(total, completed, pending, counts, rate);
      PendingByPrioritySum(tasks);
    }
  }
}
