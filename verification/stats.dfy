/**
 The three counters `updateStats` displays after every change: total,
 completed and remaining, and how each handler moves them.
 */
module Stats {
  import opened Text
  import opened Tasks
  import opened TodoApp

  /** `updateStats`: counts the tasks, the completed ones among them, and
      the difference. */
  method UpdateStats(tasks: seq<Task>) returns (total: nat, completed: nat, remaining: int)
    ensures total == |tasks|
    ensures completed == CountCompleted(tasks)
    ensures remaining == total - completed
    ensures 0 <= completed <= total && remaining >= 0
  {
    total := |tasks|;
    completed := 0;
    var k := 0;
    while k < |tasks|
      invariant 0 <= k <= |tasks|
      invariant completed == CountCompleted(tasks[..k])
    {
      assert tasks[..k + 1] == tasks[..k] + [tasks[k]];
      CountCompletedConcat(tasks[..k], [tasks[k]]);
      if tasks[k].completed {
        completed := completed + 1;
      }
      k := k + 1;
    }
    assert tasks[..k] == tasks;
    remaining := total - completed;
  }

  /** Adding a task raises the total and the remaining count by one and
      leaves the completed count alone; rewriting a text changes no count. */
  lemma AddTaskCounts(s: State, raw: string, now: Timestamp)
    requires |Trim(raw)| > 0
    ensures var r := AddTask(s, raw, now);
      && CountCompleted(r.tasks) == CountCompleted(s.tasks)
      && |r.tasks| == |s.tasks| + (if Truthy(s.editing) then 0 else 1)
  {
    var r := AddTask(s, raw, now);
    if Truthy(s.editing) {
      match FindIndex(s.tasks, s.editing.value)
      case None =>
      case Some(i) =>
        CountCompletedUpdate(s.tasks, i, s.tasks[i].(text := Trim(raw)));
        assert s.tasks[i := s.tasks[i].(text := Trim(raw))] == r.tasks;
    } else {
      assert r.tasks == [r.tasks[0]] + s.tasks;
      CountCompletedConcat([r.tasks[0]], s.tasks);
    }
  }

  /** Toggling a present task moves it between completed and remaining. */
  lemma ToggleTaskCounts(s: State, k: int)
    requires Valid(s) && 0 <= k < |s.tasks|
    ensures var r := ToggleTask(s, s.tasks[k].id);
      && |r.tasks| == |s.tasks|
      && CountCompleted(r.tasks) == CountCompleted(s.tasks) + (if s.tasks[k].completed then -1 else 1)
  {
    var id := s.tasks[k].id;
    DistinctFirstWithId(s.tasks, id, k);
    var r := ToggleTask(s, id);
    assert r.tasks == s.tasks[k := s.tasks[k].(completed := !s.tasks[k].completed)];
    CountCompletedUpdate(s.tasks, k, s.tasks[k].(completed := !s.tasks[k].completed));
  }

  /** Deleting a present task lowers the total by one, and the completed
      count by one exactly when that task was completed. */
  lemma DeleteTaskCounts(s: State, k: int)
    requires Valid(s) && 0 <= k < |s.tasks|
    ensures var r := DeleteTask(s, s.tasks[k].id);
      && |r.tasks| == |s.tasks| - 1
      && CountCompleted(r.tasks) == CountCompleted(s.tasks) - (if s.tasks[k].completed then 1 else 0)
  {
    DeleteCutsOut(s, k);
    SplitAt(s.tasks, k);
    CountCompletedConcat(s.tasks[..k], [s.tasks[k]] + s.tasks[k + 1..]);
    CountCompletedConcat([s.tasks[k]], s.tasks[k + 1..]);
    CountCompletedConcat(s.tasks[..k], s.tasks[k + 1..]);
  }
}
