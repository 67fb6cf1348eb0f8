# Personal task manager — a verified model of the task store

The program is a console to-do list. One `TaskManager` object owns an ordered list of
task records. Each record has an id, a description, a priority, a completion flag, a
creation date, and a completion date that is present once the task is done. The
menu adds tasks, lists pending or all tasks sorted by priority, completes or deletes a
task by id, and shows statistics.

This project models that store:

- `TaskStore` (task_store.dfy): the record type and the pure operations on the list.
  These are lookup by id, add, complete, delete (with `list.remove` semantics) and the
  pending filter, plus the invariants the store keeps.
- `PriorityOrder` (priority_order.dfy): the priority rank, and the stable sort by rank
  that `view_tasks` performs. It is defined as the high group, then medium, then low,
  then every other priority, each group in list order. It is proved to be a
  rank-sorted permutation that keeps equal ranks in order, and to be the only such
  list.
- `Statistics` (statistics.dfy): the completed, pending and per-priority counts of
  `get_stats`. It includes the dictionary built by bumping one key per pending record,
  and the completion rate behind its `pending > 0` guard.
- `Manager` (task_manager.dfy): the class `TaskManager`, whose field `tasks` the
  methods change in place. Each method is proved against the pure operations above.
- `Menu` (menu.dfy): the priority coercion that the menu applies before `add_task`.

Three behaviours of the code are modelled as written:

- An id is the list length plus one at creation, so after a delete two records can
  share an id (`TaskStore.IdsCollideAfterDelete`). Nothing in the model assumes that
  ids are unique.
- `view_tasks(show_completed=True)` sorts the store's own list object, so viewing all
  tasks permanently reorders the store (`Manager.TaskManager.ViewTasks`). The
  docstring of `view_tasks` speaks only of displaying (Main.py:27); the model
  follows the code.
- The priority prompt offers only high, medium or low (Main.py:189). The code
  guarantees this only for tasks added through the menu, whose coercion runs
  before `add_task`. The model proves it in that form (`Menu.CoercedAddKeepsPrioritiesValid`,
  `Menu.AddSessionNumbersInOrder`). `TaskManager.AddTask` itself stores any
  lower-cased string, and the ranking and counting handle unknown priorities as the
  code does.

## Model

| member | source | states |
|---|---|---|
| TaskStore.Lower | Main.py:18 | lower-casing keeps the length and maps each character to its lower-case form |
| TaskStore.FirstIndex | Main.py:81-86 | the lookup gives the first position, in list order, whose id matches; None exactly when no record has the id |
| TaskStore.FirstIndexOnlyReadsIds | Main.py:81-86 | the lookup depends only on the ids, so changing other fields never changes which record is found |
| TaskStore.Add | Main.py:13-22 | the list grows by one; earlier records are unchanged; the new last record has id old length + 1, the lower-cased priority, is pending and has no completion date |
| TaskStore.Complete | Main.py:57-69 | NotFound exactly when no record has the id; AlreadyCompleted exactly when the found record is completed; the list changes only on MarkedCompleted, where the found record becomes completed with the given date; no other record changes |
| TaskStore.CompleteIsOneWay | Main.py:62-65 | a completed record is never changed again; a record ends up completed exactly when it already was or it is the found one; ids never change |
| TaskStore.CompleteIdempotent | Main.py:61-62 | completing the same id twice leaves the list as after the first completion, and the second call never marks anything |
| TaskStore.RemoveFirst | Main.py:75 | list.remove, called on an element the list holds (Python raises ValueError otherwise), shortens the list by exactly one |
| TaskStore.RemoveFirstMultiset | Main.py:75 | list.remove takes away exactly one occurrence of the element and nothing else (multiset difference) |
| TaskStore.RemoveFirstAt | Main.py:75 | removing the element at i, when no earlier element equals it, keeps everything before and after i in order |
| TaskStore.Delete | Main.py:71-79 | deleting never adds records: the result is a sub-multiset of the list |
| TaskStore.DeleteRemovesFirstMatch | Main.py:71-79 | with an absent id the list is unchanged; otherwise exactly the first record with the id is removed, the length drops by one, and the others keep their order |
| TaskStore.DeleteMiddleScenario | Main.py:71-79 | in the list with ids 1, 2, 3, deleting 2 makes id 2 unknown while 1 and 3 are found at positions 0 and 1 |
| TaskStore.IdsCollideAfterDelete | Main.py:16 | three adds, deleting id 2, and another add leave two records with id 3 |
| TaskStore.Pending | Main.py:37-38 | the pending filter keeps exactly the records that are not completed |
| TaskStore.PendingAppend | Main.py:38 | the filter keeps the relative order: it distributes over concatenation |
| TaskStore.AddKeepsInvariants | Main.py:15-22 | add keeps "completion date present iff completed"; it keeps every priority valid when the lower-cased priority is valid |
| TaskStore.CompleteKeepsInvariants | Main.py:63-65 | complete sets the flag and the date together, so both invariants are kept |
| TaskStore.DeleteKeepsInvariants | Main.py:75 | delete keeps both invariants |
| PriorityOrder.Rank | Main.py:46-47 | ranks are 1 to 4, and a rank is at most 3 exactly for high, medium and low |
| PriorityOrder.BucketCount | Main.py:47 | the group of rank k holds each record of rank k as often as the list does, and nothing else |
| PriorityOrder.SortByRankPermutation | Main.py:47 | the sorted list is a permutation of the input |
| PriorityOrder.SortByRankSorted | Main.py:47 | ranks never decrease along the sorted list |
| PriorityOrder.SortByRankStable | Main.py:47 | records of equal rank keep their relative order (the sort is stable) |
| PriorityOrder.SortedIsFixed | Main.py:47 | a list that is already rank-sorted is left unchanged |
| PriorityOrder.SortByRankIdempotent | Main.py:47 | sorting twice equals sorting once, so a second "view all" does not reorder the store again |
| PriorityOrder.SortByRankUnique | Main.py:47 | any rank-sorted list that keeps each rank's records in input order equals the sorted list, so it is the one a stable sort produces |
| PriorityOrder.SortByRankKeepsInvariants | Main.py:47 | sorting the store keeps both store invariants |
| PriorityOrder.SortScenario | Main.py:45-47 | priorities low, high, medium, high are ordered as the two highs in their original order, then medium, then low |
| Statistics.CompletedCount | Main.py:91 | the completed count is at most the total, and zero exactly when no record is completed |
| Statistics.CompletedPlusPending | Main.py:90-92 | completed + pending == total |
| Statistics.PendingWithPriority | Main.py:94-97 | the count for a priority is at most the number of pending records |
| Statistics.Bump | Main.py:97 | one increment: the key is added if missing, its count goes from old value (or 0) to one more, and other keys are unchanged |
| Statistics.PendingByPriorityKeys | Main.py:94-97 | the dictionary's keys are high, medium and low plus every priority some pending record carries |
| Statistics.PendingByPriorityValues | Main.py:94-97 | each value is the number of pending records with that priority |
| Statistics.MapSumBump | Main.py:97 | each increment adds one to the sum of the counts |
| Statistics.PendingByPrioritySum | Main.py:94-97 | the per-priority counts, including keys for unknown priorities, add up to the number of pending records |
| Statistics.ValidCountsCoverPending | Main.py:110-112 | when every priority is valid, the three displayed counts add up to the pending count |
| Statistics.CompletionRate | Main.py:106-107 | the rate exists exactly when pending > 0, so the division never sees a zero total; it is in [0, 100) and equals completed * 100 / total |
| Statistics.RateBounds | Main.py:107 | with completed < total, completed / total * 100 is in [0, 100) and times total gives completed * 100 |
| Statistics.StatsOf | Main.py:88-107 | the report: total is the length, completed + pending == total, pending is the number of pending records, and the rate is guarded as above |
| Statistics.StatsScenario | Main.py:88-107 | one pending high task and one completed low task give 1 completed, 1 pending, counts high 1 / medium 0 / low 0, and rate 50 |
| Manager.TaskManager.constructor | Main.py:8-11 | the store starts as what loading produced, or empty |
| Manager.TaskManager.AddTask | Main.py:13-22 | the store becomes Add of the old store, and dates stay consistent |
| Manager.TaskManager.FindTaskById | Main.py:81-86 | the front-to-back scan with early return finds exactly FirstIndex |
| Manager.TaskManager.CompleteTask | Main.py:57-69 | the new store and the outcome are those of Complete, and dates stay consistent |
| Manager.TaskManager.DeleteTask | Main.py:71-79 | reports whether the id was found; the new store is Delete of the old one and is one shorter when found |
| Manager.TaskManager.ViewTasks | Main.py:26-47 | an empty store gives NoTasks and is untouched; otherwise the shown rows are SortByRank of all or of the pending records; an empty selection gives NoneToShow; the rows are rank-sorted and, for pending, a permutation of the pending records; "view all" leaves the store as SortByRank of itself, a sorted permutation; "view pending" leaves it unchanged |
| Manager.TaskManager.GetStats | Main.py:88-97 | the loop that bumps one count per pending record produces StatsOf(tasks), and the counts sum to the pending total |
| Menu.CoercePriority | Main.py:188-194 | empty input gives "medium"; input whose lower-case form is high/medium/low is kept as typed; anything else gives "medium"; the result always lower-cases to a valid priority |
| Menu.CoercedAddKeepsPrioritiesValid | Main.py:188-196 | whatever is typed, add_task stores a valid priority, so a store built through the menu keeps every priority valid |
| Menu.CoerceUnknownScenario | Main.py:192-194 | "URGENT" becomes "medium" |
| Menu.CoerceUpperCaseScenario | Main.py:192-196 | "HIGH" is kept as typed and stored as "high" |
| Menu.AddSession | Main.py:184-196 | a session of adds grows the store by one record per entry |
| Menu.AddSessionNumbersInOrder | Main.py:16 | as long as nothing is deleted, a fresh store numbers its tasks 1, 2, 3, ... and keeps every priority valid |

## Left out

- `save_tasks` / `load_tasks` (Main.py:114-130): file I/O through JSON. The constructor takes the outcome of loading as a parameter. The rewrite after each change is not modelled, and neither are records of another shape read from the file.
- `datetime.now().strftime(...)`: wall-clock time. The date is a `now` string parameter of add and complete.
- All console output and `display_menu`: presentation only.
- `get_user_input` and the `main` dispatch loop (Main.py:146-234): interactive input, re-prompting, the delete confirmation and the exit path. Only the priority coercion is modelled.
- `future_enhancements`: an empty stub.
- TaskStore.Lower: ASCII letters only. Python's `str.lower` is full Unicode case mapping.
- Statistics.CompletionRate: the rate is an exact real. Python's float division and the one-decimal formatting are not modelled.
- Records are values, not shared dictionaries. `find_task_by_id` returns the record's position, and completing it replaces the record at that position. This is the same effect as mutating the dictionary the store holds, because nothing else holds a reference to it.
- `list.remove` compares whole dictionaries. It is modelled as removing the first element equal to the found record. Since no earlier record has the same id, this is always the found record.
