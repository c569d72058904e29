/**
 The `TodoApp` state machine: an ordered task list (newest first), the
 counter that hands out the next id, and the optional id of the task whose
 text the next submit replaces. Every handler is a function from the old
 state to the new one; the raw input text, the clock reading and the answer
 to the confirmation dialog are parameters.
 */
module TodoApp {
  import opened Wrappers
  import opened Text
  import opened Tasks

  datatype State = State(tasks: seq<Task>, counter: int, editing: Option<int>)

  /** Well-formedness: ids are distinct and below the counter, and so is the
      id under edit. Stored data is not checked on load, so this is assumed
      of a start state and then kept by every handler. */
  predicate Valid(s: State) {
    && DistinctIds(s.tasks)
    && IdsBelow(s.tasks, s.counter)
    && (s.editing.Some? ==> s.editing.value < s.counter)
  }

  /** Every id, the counter and the id under edit are at least 1, as they are
      whenever the counter started at its default of 1. */
  predicate Positive(s: State) {
    && s.counter >= 1
    && (forall k :: 0 <= k < |s.tasks| ==> s.tasks[k].id >= 1)
    && (s.editing.Some? ==> s.editing.value >= 1)
  }

  /** JavaScript truthiness of the editing id: `null` and the number 0 are falsy. */
  predicate Truthy(editing: Option<int>) {
    editing.Some? && editing.value != 0
  }

  /** In a positive state (every id, the counter and the editing id at
      least 1), the truthiness test is exactly "an id is set". */
  lemma TruthyIffSet(s: State)
    requires Positive(s)
    ensures Truthy(s.editing) <==> s.editing.Some?
  {
  }

  /** The constructor's start state. `storedTasks` is the parsed task list,
      none when the key is missing; `storedCounter` is what `parseInt` made of
      the stored counter, none when that is `NaN`. Both `NaN` and 0 fall back
      to 1. */
  function Load(storedTasks: Option<seq<Task>>, storedCounter: Option<int>): (r: State)
    ensures storedCounter == Some(0) ==> r.counter == 1
    ensures r.counter != 0
    ensures r.editing == None
    ensures storedTasks.None? ==> r.tasks == []
    ensures storedTasks.Some? ==> r.tasks == storedTasks.value
    ensures storedCounter.None? ==> r.counter == 1
    ensures storedCounter.Some? && storedCounter.value != 0 ==> r.counter == storedCounter.value
  {
    var counter := if storedCounter.None? || storedCounter.value == 0 then 1 else storedCounter.value;
    State(if storedTasks.None? then [] else storedTasks.value, counter, None)
  }

  /** With nothing stored, the start state is empty, well formed and positive. */
  lemma FreshLoadValid()
    ensures Load(None, None).tasks == []
    ensures Valid(Load(None, None)) && Positive(Load(None, None))
  {
  }

  /** `addTask`, the submit handler: trims the input; ignores it when empty;
      otherwise replaces the text of the task under edit (when the editing id
      is truthy) or prepends a new task numbered by the counter. */
  function AddTask(s: State, raw: string, now: Timestamp): (r: State)
    ensures |Trim(raw)| == 0 ==> r == s
    ensures |Trim(raw)| > 0 && Truthy(s.editing) ==>
      && r.counter == s.counter
      && r.editing == None
      && |r.tasks| == |s.tasks|
      && forall k :: 0 <= k < |r.tasks| ==>
           && r.tasks[k].id == s.tasks[k].id
           && r.tasks[k].completed == s.tasks[k].completed
           && r.tasks[k].createdAt == s.tasks[k].createdAt
           && r.tasks[k].text == (if FirstWithId(s.tasks, s.editing.value, k) then Trim(raw) else s.tasks[k].text)
    ensures |Trim(raw)| > 0 && !Truthy(s.editing) ==>
      && |r.tasks| == |s.tasks| + 1
      && r.tasks[0] == Task(s.counter, Trim(raw), false, now)
      && r.tasks[1..] == s.tasks
      && r.counter == s.counter + 1
      && r.editing == s.editing
    ensures r.counter >= s.counter
    ensures Valid(s) ==> Valid(r)
    ensures Positive(s) ==> Positive(r)
  {
    var text := Trim(raw);
    if |text| == 0 then s
    else if Truthy(s.editing) then
      State(UpdateTask(s.tasks, s.editing.value, text), s.counter, None)
    else
      var tasks := [Task(s.counter, text, false, now)] + s.tasks;
      assert forall k :: 1 <= k < |tasks| ==> tasks[k] == s.tasks[k - 1];
      State(tasks, s.counter + 1, s.editing)
  }

  /** `toggleTask`: flips `completed` of the first task with the id and
      nothing else; an absent id changes nothing. */
  function ToggleTask(s: State, id: int): (r: State)
    ensures r.counter == s.counter && r.editing == s.editing
    ensures |r.tasks| == |s.tasks|
    ensures forall k :: 0 <= k < |r.tasks| ==>
      r.tasks[k] == if FirstWithId(s.tasks, id, k) then s.tasks[k].(completed := !s.tasks[k].completed) else s.tasks[k]
    ensures !HasId(s.tasks, id) ==> r == s
    ensures Valid(s) ==> Valid(r)
    ensures Positive(s) ==> Positive(r)
  {
    match FindIndex(s.tasks, id)
    case None => s
    case Some(i) => s.(tasks := s.tasks[i := s.tasks[i].(completed := !s.tasks[i].completed)])
  }

  /** `deleteTask`: drops every task with the id and keeps the rest. */
  function DeleteTask(s: State, id: int): (r: State)
    ensures r.counter == s.counter && r.editing == s.editing
    ensures !HasId(r.tasks, id)
    ensures forall t :: t in r.tasks <==> t in s.tasks && t.id != id
    ensures !HasId(s.tasks, id) ==> r == s
    ensures Valid(s) ==> Valid(r)
    ensures Positive(s) ==> Positive(r)
  {
    WithoutIdKeepsDistinct(s.tasks, id);
    WithoutAbsentId(s.tasks, id);
    s.(tasks := WithoutId(s.tasks, id))
  }

  /** `editTask`: points the editing id at the task, if it exists; the list
      and the counter are never touched. */
  function EditTask(s: State, id: int): (r: State)
    ensures r.tasks == s.tasks && r.counter == s.counter
    ensures HasId(s.tasks, id) ==> r.editing == Some(id)
    ensures !HasId(s.tasks, id) ==> r.editing == s.editing
    ensures Valid(s) ==> Valid(r)
    ensures Positive(s) ==> Positive(r)
  {
    match FindIndex(s.tasks, id)
    case None => s
    case Some(_) => s.(editing := Some(id))
  }

  /** `clearAllTasks`: on confirmation empties the list; the counter and the
      editing id are left as they were. */
  function ClearAllTasks(s: State, confirmed: bool): (r: State)
    ensures confirmed ==> r.tasks == [] && r.counter == s.counter && r.editing == s.editing
    ensures !confirmed ==> r == s
    ensures Valid(s) ==> Valid(r)
    ensures Positive(s) ==> Positive(r)
  {
    if confirmed then s.(tasks := []) else s
  }

  /** Toggling the same id twice gives back the original state. */
  lemma ToggleTwice(s: State, id: int)
    ensures ToggleTask(ToggleTask(s, id), id) == s
  {
    var s1 := ToggleTask(s, id);
    assert SameIds(s.tasks, s1.tasks);
    FindIndexSameIds(s.tasks, s1.tasks, id);
    var s2 := ToggleTask(s1, id);
    assert s2.tasks == s.tasks;
  }

  /** In a well-formed state, the submit while editing rewrites the text of
      exactly the task carrying the editing id. */
  lemma UpdateRewritesEditedTask(s: State, raw: string, now: Timestamp)
    requires Valid(s) && Truthy(s.editing) && |Trim(raw)| > 0
    ensures var r := AddTask(s, raw, now);
      && |r.tasks| == |s.tasks|
      && forall k :: 0 <= k < |r.tasks| ==>
           r.tasks[k] == if s.tasks[k].id == s.editing.value then s.tasks[k].(text := Trim(raw)) else s.tasks[k]
  {
    forall k | 0 <= k < |s.tasks| {
      DistinctFirstWithId(s.tasks, s.editing.value, k);
    }
  }

  /** The dangling editing id: when the task under edit is gone, a non-empty
      submit only clears the editing id; its text is discarded and no task is
      created. */
  lemma DanglingEditDiscardsText(s: State, raw: string, now: Timestamp)
    requires Truthy(s.editing) && !HasId(s.tasks, s.editing.value) && |Trim(raw)| > 0
    ensures AddTask(s, raw, now) == s.(editing := None)
  {
    var r := AddTask(s, raw, now);
    assert r.tasks == s.tasks;
  }

  /** In a well-formed state, deleting the id of the task at `k` cuts out
      that one task; the others keep their order. */
  lemma DeleteCutsOut(s: State, k: int)
    requires Valid(s) && 0 <= k < |s.tasks|
    ensures DeleteTask(s, s.tasks[k].id).tasks == s.tasks[..k] + s.tasks[k + 1..]
  {
    WithoutIdDistinct(s.tasks, k);
  }
}
