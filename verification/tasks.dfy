/**
 The task record and the list operations that the handlers of `TodoApp`
 perform on it: `findIndex`/`find` by id, the in-place text and completion
 updates, and the `filter` that deletes.
 */
module Tasks {
  import opened Wrappers

  /** The creation time, an ISO-8601 string; the clock that produces it is a parameter. */
  type Timestamp = string

  datatype Task = Task(id: int, text: string, completed: bool, createdAt: Timestamp)

  predicate HasId(tasks: seq<Task>, id: int) {
    exists k :: 0 <= k < |tasks| && tasks[k].id == id
  }

  /** `k` is where `findIndex(task => task.id === id)` stops: the first task with that id. */
  predicate FirstWithId(tasks: seq<Task>, id: int, k: int) {
    && 0 <= k < |tasks|
    && tasks[k].id == id
    && forall j :: 0 <= j < k ==> tasks[j].id != id
  }

  predicate DistinctIds(tasks: seq<Task>) {
    forall i, j :: 0 <= i < j < |tasks| ==> tasks[i].id != tasks[j].id
  }

  predicate IdsBelow(tasks: seq<Task>, bound: int) {
    forall k :: 0 <= k < |tasks| ==> tasks[k].id < bound
  }

  /** Two lists that agree position by position on their ids. */
  predicate SameIds(a: seq<Task>, b: seq<Task>) {
    |a| == |b| && forall k :: 0 <= k < |a| ==> a[k].id == b[k].id
  }

  /** `findIndex` by id: the first matching position, or none when no task has the id. */
  function FindIndex(tasks: seq<Task>, id: int): (r: Option<nat>)
    ensures r.Some? ==> FirstWithId(tasks, id, r.value)
    ensures r.None? <==> !HasId(tasks, id)
  {
    if |tasks| == 0 then None
    else if tasks[0].id == id then Some(0)
    else match FindIndex(tasks[1..], id)
      case None => None
      case Some(k) =>
        assert forall j :: 1 <= j < k + 1 ==> tasks[j] == tasks[1..][j - 1];
        Some(k + 1)
  }

  /** There is only one first match. */
  lemma FirstWithIdUnique(tasks: seq<Task>, id: int, a: int, b: int)
    requires FirstWithId(tasks, id, a) && FirstWithId(tasks, id, b)
    ensures a == b
  {
  }

  /** With distinct ids, every task carrying the id is the first one carrying it. */
  lemma DistinctFirstWithId(tasks: seq<Task>, id: int, k: int)
    requires DistinctIds(tasks)
    ensures FirstWithId(tasks, id, k) <==> 0 <= k < |tasks| && tasks[k].id == id
  {
  }

  /** The search only looks at ids, so changing other fields does not move it. */
  lemma FindIndexSameIds(a: seq<Task>, b: seq<Task>, id: int)
    requires SameIds(a, b)
    ensures FindIndex(a, id) == FindIndex(b, id)
  {
    var ra, rb := FindIndex(a, id), FindIndex(b, id);
    if ra.Some? {
      assert FirstWithId(b, id, ra.value);
      FirstWithIdUnique(b, id, ra.value, rb.value);
    }
  }

  /** `updateTask`: the first task with the id gets the new text; every other
      task, and every other field, stays as it was. */
  function UpdateTask(tasks: seq<Task>, id: int, text: string): (r: seq<Task>)
    ensures |r| == |tasks|
    ensures forall k :: 0 <= k < |r| ==>
      r[k] == if FirstWithId(tasks, id, k) then tasks[k].(text := text) else tasks[k]
  {
    match FindIndex(tasks, id)
    case None => tasks
    case Some(i) => tasks[i := tasks[i].(text := text)]
  }

  /** The list after `filter(task => task.id !== id)`. */
  function WithoutId(tasks: seq<Task>, id: int): (r: seq<Task>)
    ensures |r| <= |tasks|
    ensures !HasId(r, id)
    ensures forall t :: t in r <==> t in tasks && t.id != id
  {
    if |tasks| == 0 then []
    else
      var rest := WithoutId(tasks[1..], id);
      assert forall t :: t in tasks <==> t == tasks[0] || t in tasks[1..];
      if tasks[0].id == id then rest else [tasks[0]] + rest
  }

  /** Filtering keeps ids distinct. */
  lemma {:induction false} WithoutIdKeepsDistinct(tasks: seq<Task>, id: int)
    ensures DistinctIds(tasks) ==> DistinctIds(WithoutId(tasks, id))
    decreases |tasks|
  {
    if |tasks| > 0 && DistinctIds(tasks) {
      var rest := WithoutId(tasks[1..], id);
      WithoutIdKeepsDistinct(tasks[1..], id);
      if tasks[0].id != id {
        var r := [tasks[0]] + rest;
        forall i, j | 0 <= i < j < |r| ensures r[i].id != r[j].id {
          if i == 0 {
            assert r[j] in rest;
            assert r[j] in tasks[1..];
          }
        }
      }
    }
  }

  /** The filter works piece by piece, so the survivors keep their relative order. */
  lemma {:induction false} WithoutIdConcat(a: seq<Task>, b: seq<Task>, id: int)
    ensures WithoutId(a + b, id) == WithoutId(a, id) + WithoutId(b, id)
    decreases |a|
  {
    if |a| == 0 {
      assert a + b == b;
    } else {
      assert (a + b)[1..] == a[1..] + b;
      WithoutIdConcat(a[1..], b, id);
    }
  }

  /** A filter that matches nothing returns the list itself. */
  lemma {:induction false} WithoutAbsentId(tasks: seq<Task>, id: int)
    ensures !HasId(tasks, id) ==> WithoutId(tasks, id) == tasks
    decreases |tasks|
  {
    if |tasks| > 0 && !HasId(tasks, id) {
      assert tasks[0].id != id;
      assert !HasId(tasks[1..], id) by {
        forall k | 0 <= k < |tasks[1..]| ensures tasks[1..][k].id != id {
          assert tasks[1..][k] == tasks[k + 1];
        }
      }
      WithoutAbsentId(tasks[1..], id);
      assert tasks == [tasks[0]] + tasks[1..];
    }
  }

  /** With distinct ids, deleting a present id cuts exactly that one task out. */
  lemma WithoutIdDistinct(tasks: seq<Task>, k: int)
    requires DistinctIds(tasks) && 0 <= k < |tasks|
    ensures WithoutId(tasks, tasks[k].id) == tasks[..k] + tasks[k + 1..]
  {
    var id := tasks[k].id;
    var prefix, suffix := tasks[..k], tasks[k + 1..];
    IdOnlyAt(tasks, k);
    WithoutAbsentId(prefix, id);
    WithoutAbsentId(suffix, id);
    SplitAt(tasks, k);
    WithoutIdConcat(prefix, [tasks[k]] + suffix, id);
    WithoutIdConcat([tasks[k]], suffix, id);
    assert WithoutId([tasks[k]], id) == [];
    assert [] + suffix == suffix;
  }

  /** With distinct ids, the id of the task at `k` occurs neither before nor after it. */
  lemma IdOnlyAt(tasks: seq<Task>, k: int)
    requires DistinctIds(tasks) && 0 <= k < |tasks|
    ensures !HasId(tasks[..k], tasks[k].id) && !HasId(tasks[k + 1..], tasks[k].id)
  {
    var prefix, suffix := tasks[..k], tasks[k + 1..];
    forall j | 0 <= j < |prefix| ensures prefix[j].id != tasks[k].id {
      assert prefix[j] == tasks[j];
    }
    forall j | 0 <= j < |suffix| ensures suffix[j].id != tasks[k].id {
      assert suffix[j] == tasks[k + 1 + j];
    }
  }

  /** A sequence is what comes before position `k`, the element there, and what comes after. */
  lemma SplitAt<T>(s: seq<T>, k: int)
    requires 0 <= k < |s|
    ensures s == s[..k] + ([s[k]] + s[k + 1..])
  {
  }

  /** How many tasks are completed: `filter(task => task.completed).length`. */
  function CountCompleted(tasks: seq<Task>): (n: nat)
    ensures n <= |tasks|
    ensures n == 0 <==> forall k :: 0 <= k < |tasks| ==> !tasks[k].completed
    ensures n == |tasks| <==> forall k :: 0 <= k < |tasks| ==> tasks[k].completed
  {
    if |tasks| == 0 then 0
    else
      assert forall k :: 1 <= k < |tasks| ==> tasks[k] == tasks[1..][k - 1];
      (if tasks[0].completed then 1 else 0) + CountCompleted(tasks[1..])
  }

  /** The completed count of a concatenation is the sum of the counts. */
  lemma {:induction false} CountCompletedConcat(a: seq<Task>, b: seq<Task>)
    ensures CountCompleted(a + b) == CountCompleted(a) + CountCompleted(b)
    decreases |a|
  {
    if |a| == 0 {
      assert a + b == b;
    } else {
      assert (a + b)[1..] == a[1..] + b;
      CountCompletedConcat(a[1..], b);
    }
  }

  /** Replacing one task changes the completed count by the difference of its flag. */
  lemma {:induction false} CountCompletedUpdate(tasks: seq<Task>, i: int, t: Task)
    requires 0 <= i < |tasks|
    ensures CountCompleted(tasks[i := t]) ==
      CountCompleted(tasks) - (if tasks[i].completed then 1 else 0) + (if t.completed then 1 else 0)
    decreases |tasks|
  {
    UpdateTail(tasks, i, t);
    if i > 0 {
      CountCompletedUpdate(tasks[1..], i - 1, t);
    }
  }

  /** Replacing an element and then dropping the head is dropping the head and then
      replacing (or, for the head itself, just dropping it). */
  lemma UpdateTail<T>(s: seq<T>, i: int, x: T)
    requires 0 <= i < |s|
    ensures i == 0 ==> s[i := x][1..] == s[1..]
    ensures i > 0 ==> s[i := x][1..] == s[1..][i - 1 := x]
  {
  }
}
