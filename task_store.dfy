/**
 * The task records of the personal task manager and the pure operations on the
 * ordered list that holds them: lookup by id, completion, deletion and the
 * pending filter. The class in module Manager applies these to its own list.
 */
module TaskStore {
  import opened Wrappers

  /** One record, as the dictionary that add_task builds. `completedDate` is
      absent (None) until the task is completed. Ids are not assumed unique. */
  datatype Task = Task(
    id: int,
    description: string,
    priority: string,
    completed: bool,
    createdDate: string,
    completedDate: Option<string>)

  /** The three priorities the menu accepts. */
  const ValidPriorities: set<string> := {"high", "medium", "low"}

  // ---------------------------------------------------------------------------
  // Lower-casing (str.lower), restricted to ASCII letters
  // ---------------------------------------------------------------------------

  function LowerChar(c: char): char
  {
    if 'A' <= c <= 'Z' then (c as int + 32) as char else c
  }

  /** The string with every upper-case ASCII letter replaced by its lower-case form. */
  function Lower(s: string): (r: string)
    ensures |r| == |s|
    ensures forall i :: 0 <= i < |s| ==> r[i] == LowerChar(s[i])
  {
    if s == [] then [] else [LowerChar(s[0])] + Lower(s[1..])
  }

  // ---------------------------------------------------------------------------
  // Lookup (find_task_by_id)
  // ---------------------------------------------------------------------------

  /** The position of the first record, in list order, whose id is `id`;
      None exactly when no record has that id. */
  function FirstIndex(ts: seq<Task>, id: int): (r: Option<nat>)
    ensures r.Some? ==> r.value < |ts| && ts[r.value].id == id
    ensures r.Some? ==> forall j :: 0 <= j < r.value ==> ts[j].id != id
    ensures r.None? <==> forall j :: 0 <= j < |ts| ==> ts[j].id != id
  {
    if ts == [] then None
    else if ts[0].id == id then Some(0)
    else match FirstIndex(ts[1..], id)
      case None => None
      case Some(i) => Some(i + 1)
  }

  /** The lookup only looks at ids: two lists with the same ids at the same
      positions give the same answer. */
  lemma FirstIndexOnlyReadsIds(a: seq<Task>, b: seq<Task>, id: int)
    requires |a| == |b|
    requires forall i :: 0 <= i < |a| ==> a[i].id == b[i].id
    ensures FirstIndex(a, id) == FirstIndex(b, id)
  {
  }

  // ---------------------------------------------------------------------------
  // Adding (add_task)
  // ---------------------------------------------------------------------------

  /** The list after add_task: a pending record numbered one past the current
      length, with the priority lower-cased, appended at the end. */
  function Add(ts: seq<Task>, description: string, priority: string, now: string): (r: seq<Task>)
    ensures |r| == |ts| + 1 && r[..|ts|] == ts
    ensures r[|ts|].id == |ts| + 1 && r[|ts|].priority == Lower(priority)
    ensures !r[|ts|].completed && r[|ts|].completedDate == None
    ensures r[|ts|].description == description && r[|ts|].createdDate == now
  {
    ts + [Task(|ts| + 1, description, Lower(priority), false, now, None)]
  }

  // ---------------------------------------------------------------------------
  // Completing (complete_task)
  // ---------------------------------------------------------------------------

  /** What complete_task reports. */
  datatype CompleteOutcome = NotFound | AlreadyCompleted | MarkedCompleted

  /** The record after the pending -> completed transition. */
  function MarkCompleted(t: Task, now: string): Task
  {
    t.(completed := true, completedDate := Some(now))
  }

  /** complete_task: the first record with the id goes from pending to
      completed, stamped `now`; a missing id or an already completed record
      leaves the list as it is. */
  function Complete(ts: seq<Task>, id: int, now: string): (r: (seq<Task>, CompleteOutcome))
    ensures |r.0| == |ts|
    ensures r.1 == NotFound <==> FirstIndex(ts, id).None?
    ensures r.1 == AlreadyCompleted <==> FirstIndex(ts, id).Some? && ts[FirstIndex(ts, id).value].completed
    ensures r.1 != MarkedCompleted ==> r.0 == ts
    ensures r.1 == MarkedCompleted ==>
      var i := FirstIndex(ts, id).value;
      !ts[i].completed && r.0[i] == MarkCompleted(ts[i], now)
    ensures forall i :: 0 <= i < |ts| && FirstIndex(ts, id) != Some(i) ==> r.0[i] == ts[i]
  {
    match FirstIndex(ts, id)
    case None => (ts, NotFound)
    case Some(i) =>
      if ts[i].completed then (ts, AlreadyCompleted)
      else (ts[i := MarkCompleted(ts[i], now)], MarkedCompleted)
  }

  /** The per-record state machine only moves forward: a completed record is
      never touched again, and a record that becomes completed is the first one
      with the id, stamped with `now`. */
  lemma CompleteIsOneWay(ts: seq<Task>, id: int, now: string, i: nat)
    requires i < |ts|
    ensures ts[i].completed ==> Complete(ts, id, now).0[i] == ts[i]
    ensures Complete(ts, id, now).0[i].completed <==> ts[i].completed || FirstIndex(ts, id) == Some(i)
    ensures !ts[i].completed && Complete(ts, id, now).0[i].completed ==>
      Complete(ts, id, now).0[i].completedDate == Some(now)
    ensures Complete(ts, id, now).0[i].id == ts[i].id
  {
  }

  /** Completing the same id twice has the effect of completing it once: the
      second call finds the record already completed (or still finds nothing)
      and keeps the first completion date. */
  lemma CompleteIdempotent(ts: seq<Task>, id: int, now1: string, now2: string)
    ensures Complete(Complete(ts, id, now1).0, id, now2).0 == Complete(ts, id, now1).0
    ensures Complete(Complete(ts, id, now1).0, id, now2).1 != MarkedCompleted
  {
  }

  // ---------------------------------------------------------------------------
  // Deleting (delete_task)
  // ---------------------------------------------------------------------------

  /** list.remove(x): drops the first element equal to x. Python raises
      ValueError when no element equals x, so x must be present. */
  function RemoveFirst(s: seq<Task>, x: Task): (r: seq<Task>)
    requires x in s
    ensures |r| == |s| - 1
  {
    if s[0] == x then s[1..]
    else
      assert s == [s[0]] + s[1..];
      [s[0]] + RemoveFirst(s[1..], x)
  }

  /** list.remove takes away one occurrence of x, and nothing else. */
  lemma {:induction false} RemoveFirstMultiset(s: seq<Task>, x: Task)
    requires x in s
    ensures multiset(RemoveFirst(s, x)) == multiset(s) - multiset{x}
  {
    assert s == [s[0]] + s[1..];
    if s[0] != x {
      RemoveFirstMultiset(s[1..], x);
    }
  }

  /** Removing the element at i, when no earlier element equals it, keeps
      everything before and after it, in order. */
  lemma {:induction false} RemoveFirstAt(s: seq<Task>, i: nat)
    requires i < |s|
    requires forall j :: 0 <= j < i ==> s[j] != s[i]
    ensures RemoveFirst(s, s[i]) == s[..i] + s[i + 1..]
  {
    if i > 0 {
      var rest := s[1..];
      assert rest[i - 1] == s[i];
      assert s[0] != s[i];
      assert RemoveFirst(s, s[i]) == [s[0]] + RemoveFirst(rest, s[i]);
      forall j | 0 <= j < i - 1
        ensures rest[j] != rest[i - 1]
      {
        assert rest[j] == s[j + 1];
      }
      RemoveFirstAt(rest, i - 1);
      assert s[..i] == [s[0]] + rest[..i - 1];
      assert s[i + 1..] == rest[i..];
    }
  }

  /** delete_task: the record that find_task_by_id returns is removed with
      list.remove; an id that no record has changes nothing. */
  function Delete(ts: seq<Task>, id: int): (r: seq<Task>)
    ensures multiset(r) <= multiset(ts)
  {
    match FirstIndex(ts, id)
    case None => ts
    case Some(i) =>
      RemoveFirstMultiset(ts, ts[i]);
      RemoveFirst(ts, ts[i])
  }

  /** Deleting removes exactly the first record with the id and keeps the
      others in their relative order; with an absent id it is a no-op. */
  lemma DeleteRemovesFirstMatch(ts: seq<Task>, id: int)
    ensures FirstIndex(ts, id).None? ==> Delete(ts, id) == ts
    ensures FirstIndex(ts, id).Some? ==>
      var i := FirstIndex(ts, id).value;
      |Delete(ts, id)| == |ts| - 1 && Delete(ts, id) == ts[..i] + ts[i + 1..]
  {
    match FirstIndex(ts, id)
    case None =>
    case Some(i) =>
      forall j | 0 <= j < i
        ensures ts[j] != ts[i]
      {
        assert ts[j].id != id;
      }
      RemoveFirstAt(ts, i);
  }

  /** Deleting the middle of three tasks numbered 1, 2, 3 makes id 2 unknown
      while ids 1 and 3 are still found. */
  lemma DeleteMiddleScenario(ts: seq<Task>)
    requires |ts| == 3 && ts[0].id == 1 && ts[1].id == 2 && ts[2].id == 3
    ensures FirstIndex(Delete(ts, 2), 2) == None
    ensures FirstIndex(Delete(ts, 2), 1) == Some(0)
    ensures FirstIndex(Delete(ts, 2), 3) == Some(1)
  {
    assert FirstIndex(ts, 2) == Some(1);
    DeleteRemovesFirstMatch(ts, 2);
    var r := Delete(ts, 2);
    assert |r| == 2 && r[0] == ts[0] && r[1] == ts[2];
    assert FirstIndex(r, 1).Some?;
    assert FirstIndex(r, 3).Some?;
  }

  /** Ids are the list length plus one at creation, so after a delete a new
      task can share its id with a surviving one: three adds, deleting id 2,
      and one more add leave two records numbered 3. */
  lemma IdsCollideAfterDelete(d1: string, d2: string, d3: string, d4: string, p: string, now: string)
    ensures
      var three := Add(Add(Add([], d1, p, now), d2, p, now), d3, p, now);
      var after := Add(Delete(three, 2), d4, p, now);
      |after| == 3 && after[1].id == 3 && after[2].id == 3
  {
    var three := Add(Add(Add([], d1, p, now), d2, p, now), d3, p, now);
    assert three[0].id == 1 && three[1].id == 2 && three[2].id == 3;
    DeleteRemovesFirstMatch(three, 2);
    assert Delete(three, 2) == [three[0], three[2]];
  }

  // ---------------------------------------------------------------------------
  // The pending filter of view_tasks
  // ---------------------------------------------------------------------------

  /** The records that are not completed, in their order in ts. */
  function Pending(ts: seq<Task>): (r: seq<Task>)
    ensures |r| <= |ts|
    ensures forall t :: t in r <==> t in ts && !t.completed
  {
    if ts == [] then []
    else
      var last := ts[|ts| - 1];
      assert ts == ts[..|ts| - 1] + [last];
      Pending(ts[..|ts| - 1]) + (if last.completed then [] else [last])
  }

  /** Filtering keeps the relative order: Pending distributes over concatenation. */
  lemma {:induction false} PendingAppend(a: seq<Task>, b: seq<Task>)
    ensures Pending(a + b) == Pending(a) + Pending(b)
  {
    if b != [] {
      var init := b[..|b| - 1];
      assert (a + b)[..|a + b| - 1] == a + init;
      PendingAppend(a, init);
    } else {
      assert a + b == a;
    }
  }

  // ---------------------------------------------------------------------------
  // Invariants of the store
  // ---------------------------------------------------------------------------

  /** A completion date is present exactly on completed records. */
  predicate DatesConsistent(ts: seq<Task>)
  {
    forall t :: t in ts ==> (t.completed <==> t.completedDate.Some?)
  }

  /** Every stored priority is one the menu accepts. */
  predicate PrioritiesValid(ts: seq<Task>)
  {
    forall t :: t in ts ==> t.priority in ValidPriorities
  }

  /** add_task keeps completion dates consistent, and keeps priorities valid
      when the lower-cased priority is one of the three. */
  lemma AddKeepsInvariants(ts: seq<Task>, description: string, priority: string, now: string)
    ensures DatesConsistent(ts) ==> DatesConsistent(Add(ts, description, priority, now))
    ensures PrioritiesValid(ts) && Lower(priority) in ValidPriorities ==>
      PrioritiesValid(Add(ts, description, priority, now))
  {
  }

  /** complete_task keeps completion dates consistent and priorities valid. */
  lemma CompleteKeepsInvariants(ts: seq<Task>, id: int, now: string)
    ensures DatesConsistent(ts) ==> DatesConsistent(Complete(ts, id, now).0)
    ensures PrioritiesValid(ts) ==> PrioritiesValid(Complete(ts, id, now).0)
  {
  }

  /** delete_task keeps completion dates consistent and priorities valid. */
  lemma DeleteKeepsInvariants(ts: seq<Task>, id: int)
    ensures DatesConsistent(ts) ==> DatesConsistent(Delete(ts, id))
    ensures PrioritiesValid(ts) ==> PrioritiesValid(Delete(ts, id))
  {
    var deleted := Delete(ts, id);
    assert forall t :: t in deleted ==> t in multiset(ts);
  }
}
