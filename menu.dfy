/**
 * The one piece of the interactive menu that decides what is stored: the
 * priority typed for a new task is replaced by "medium" when it is empty or not
 * one of high/medium/low in any letter case, before add_task lower-cases it.
 */
module Menu {
  import opened TaskStore

  /** The priority handed to add_task for what the user typed. */
  function CoercePriority(entered: string): (p: string)
    ensures Lower(p) in ValidPriorities
    ensures entered == "" ==> p == "medium"
    ensures entered != "" && Lower(entered) in ValidPriorities ==> p == entered
    ensures entered != "" && Lower(entered) !in ValidPriorities ==> p == "medium"
  {
    LowerMedium();
    var p := if entered == "" then "medium" else entered;
    if Lower(p) !in ValidPriorities then "medium" else p
  }

  /** Proof aid for CoercePriority: "medium" is already lower-case. */
  lemma LowerMedium()
    ensures Lower("medium") == "medium"
  {
  }

  /** Whatever was typed, the record add_task stores carries one of the three
      priorities, so a store built through the menu keeps every priority valid. */
  lemma CoercedAddKeepsPrioritiesValid(ts: seq<Task>, description: string, entered: string, now: string)
    ensures Add(ts, description, CoercePriority(entered), now)[|ts|].priority in ValidPriorities
    ensures PrioritiesValid(ts) ==> PrioritiesValid(Add(ts, description, CoercePriority(entered), now))
  {
  }

  /** An unknown priority falls back to "medium". */
  lemma CoerceUnknownScenario()
    ensures CoercePriority("URGENT") == "medium"
  {
  }

  /** An upper-case priority is kept as typed and stored lower-cased. */
  lemma CoerceUpperCaseScenario()
    ensures CoercePriority("HIGH") == "HIGH"
    ensures Add([], "Ship it", CoercePriority("HIGH"), "2024-01-01 09:00")[0].priority == "high"
  {
    assert Lower("HIGH") == "high";
  }

  /** The store after a menu session that only adds tasks, one per
      (description, typed priority) entry, in order. */
  function AddSession(ts: seq<Task>, entries: seq<(string, string)>, now: string): (r: seq<Task>)
    ensures |r| == |ts| + |entries|
  {
    if entries == [] then ts
    else
      var last := entries[|entries| - 1];
      Add(AddSession(ts, entries[..|entries| - 1], now), last.0, CoercePriority(last.1), now)
  }

  /** As long as nothing is deleted, a fresh store numbers its tasks 1, 2, 3, ...
      in list order, so ids are distinct, and every stored priority is valid. */
  lemma {:induction false} AddSessionNumbersInOrder(entries: seq<(string, string)>, now: string)
    ensures forall i :: 0 <= i < |entries| ==> AddSession([], entries, now)[i].id == i + 1
    ensures PrioritiesValid(AddSession([], entries, now))
  {
    if entries != [] {
      var init := entries[..|entries| - 1];
      var last := entries[|entries| - 1];
      var before := AddSession([], init, now);
      AddSessionNumbersInOrder(init, now);
      CoercedAddKeepsPrioritiesValid(before, last.0, last.1, now);
    }
  }
}
