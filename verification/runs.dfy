/**
 Sequences of user actions. Each action runs to completion before the next
 begins, so a session is a left fold of the handlers over its events.
 */
module Runs {
  import opened Wrappers
  import opened Text
  import opened Tasks
  import opened TodoApp

  /** One user action: a submit (with the input box's text and the clock
      reading), a click on a task's toggle, delete or edit control, or the
      clear-all button with the answer to its confirmation dialog. */
  datatype Event =
    | Submit(raw: string, now: Timestamp)
    | Toggle(id: int)
    | Delete(id: int)
    | Edit(id: int)
    | ClearAll(confirmed: bool)

  /** The handler an event triggers. */
  function Step(s: State, e: Event): (r: State)
    ensures r.counter >= s.counter
    ensures Valid(s) ==> Valid(r)
    ensures Positive(s) ==> Positive(r)
  {
    match e
    case Submit(raw, now) => AddTask(s, raw, now)
    case Toggle(id) => ToggleTask(s, id)
    case Delete(id) => DeleteTask(s, id)
    case Edit(id) => EditTask(s, id)
    case ClearAll(confirmed) => ClearAllTasks(s, confirmed)
  }

  /** The state after the events, in order. */
  function Run(s: State, es: seq<Event>): (r: State)
    ensures r.counter >= s.counter
    decreases |es|
  {
    if |es| == 0 then s else Run(Step(s, es[0]), es[1..])
  }

  /** Every session from a well-formed state stays well formed, and one
      from a positive state stays positive. */
  lemma {:induction false} RunPreserves(s: State, es: seq<Event>)
    ensures Valid(s) ==> Valid(Run(s, es))
    ensures Positive(s) ==> Positive(Run(s, es))
    decreases |es|
  {
    if |es| > 0 {
      RunPreserves(Step(s, es[0]), es[1..]);
    }
  }

  /** Running two event sequences one after the other is running their concatenation. */
  lemma {:induction false} RunConcat(s: State, a: seq<Event>, b: seq<Event>)
    ensures Run(s, a + b) == Run(Run(s, a), b)
    decreases |a|
  {
    if |a| == 0 {
      assert a + b == b;
    } else {
      assert (a + b)[0] == a[0];
      assert (a + b)[1..] == a[1..] + b;
      RunConcat(Step(s, a[0]), a[1..], b);
    }
  }

  /** Ids are never reused: every id held at any point of a well-formed
      session is below the counter at its end. */
  lemma IssuedIdsBelowCounter(s: State, es: seq<Event>, k: int, t: Task)
    requires Valid(s) && 0 <= k <= |es|
    requires t in Run(s, es[..k]).tasks
    ensures t.id < Run(s, es).counter
  {
    var mid := Run(s, es[..k]);
    assert t.id < mid.counter by {
      RunPreserves(s, es[..k]);
    }
    assert Run(s, es) == Run(mid, es[k..]) by {
      TakeDrop(es, k);
      RunConcat(s, es[..k], es[k..]);
    }
  }

  /** A sequence is its first `k` elements followed by the rest. */
  lemma TakeDrop<T>(s: seq<T>, k: int)
    requires 0 <= k <= |s|
    ensures s[..k] + s[k..] == s
  {
  }

  /** Clearing the list does not reset the counter: after any well-formed
      session, a confirmed clear-all and an add, the new task's id is above
      every id that appeared at any point of the session. */
  lemma ClearThenAddAboveHistory(s: State, es: seq<Event>, raw: string, now: Timestamp)
    requires Valid(s) && !Truthy(Run(s, es).editing) && |Trim(raw)| > 0
    ensures var r := Run(s, es + [ClearAll(true), Submit(raw, now)]);
      && |r.tasks| == 1
      && forall k, t :: 0 <= k <= |es| && t in Run(s, es[..k]).tasks ==> t.id < r.tasks[0].id
  {
    var mid := Run(s, es);
    RunConcat(s, es, [ClearAll(true), Submit(raw, now)]);
    var c := ClearAllTasks(mid, true);
    assert Run(mid, [ClearAll(true), Submit(raw, now)]) == Run(c, [Submit(raw, now)]);
    var r := AddTask(c, raw, now);
    assert Run(c, [Submit(raw, now)]) == Run(r, []);
    forall k, t | 0 <= k <= |es| && t in Run(s, es[..k]).tasks
      ensures t.id < r.tasks[0].id
    {
      IssuedIdsBelowCounter(s, es, k, t);
    }
  }

  /** Every event is a submit whose input is not blank. */
  predicate AllAdds(es: seq<Event>) {
    forall k :: 0 <= k < |es| ==> es[k].Submit? && !AllWhitespace(es[k].raw)
  }

  /** The task a submit creates when it adds: numbered `id`, holding the trimmed input. */
  function Created(id: int, e: Event): Task
    requires e.Submit?
  {
    Task(id, Trim(e.raw), false, e.now)
  }

  /** The tasks a run of submits creates, numbered from `counter`, each
      new one in front of the ones before it. */
  function NewestFirst(counter: int, es: seq<Event>): (r: seq<Task>)
    requires forall k :: 0 <= k < |es| ==> es[k].Submit?
    ensures |r| == |es|
    ensures forall i :: 0 <= i < |r| ==> r[i] == Created(counter + |es| - 1 - i, es[|es| - 1 - i])
    decreases |es|
  {
    if |es| == 0 then [] else NewestFirst(counter + 1, es[1..]) + [Created(counter, es[0])]
  }

  /** Adding tasks one after another, while no edit is pending, stacks them
      in front of the old list newest first, with consecutive ids from the
      counter. */
  lemma {:induction false} AddsAreNewestFirst(s: State, es: seq<Event>)
    requires !Truthy(s.editing) && AllAdds(es)
    ensures Run(s, es) == State(NewestFirst(s.counter, es) + s.tasks, s.counter + |es|, s.editing)
    decreases |es|
  {
    if |es| == 0 {
      assert NewestFirst(s.counter, es) + s.tasks == s.tasks;
    } else {
      var s1 := State([Created(s.counter, es[0])] + s.tasks, s.counter + 1, s.editing);
      AllAddsTail(es);
      AddsAreNewestFirst(s1, es[1..]);
      AddThenRest(s, es);
    }
  }

  /** After a run of adds, one more add puts its task, numbered by the
      counter the run left, in front of the list the run built. */
  lemma LatestAddFirst(s: State, es: seq<Event>, e: Event)
    requires !Truthy(s.editing) && AllAdds(es) && e.Submit? && !AllWhitespace(e.raw)
    ensures |Run(s, es + [e]).tasks| == |Run(s, es).tasks| + 1
    ensures Run(s, es + [e]).tasks == [Created(Run(s, es).counter, e)] + Run(s, es).tasks
  {
    var mid := Run(s, es);
    AddsAreNewestFirst(s, es);
    assert !Truthy(mid.editing);
    RunConcat(s, es, [e]);
    AddStep(mid, e);
    assert Run(mid, [e]) == Run(Step(mid, e), []);
  }

  /** The inductive step: the first add, then the rest of the adds stacked in front. */
  lemma AddThenRest(s: State, es: seq<Event>)
    requires !Truthy(s.editing) && |es| > 0 && AllAdds(es)
    requires var s1 := State([Created(s.counter, es[0])] + s.tasks, s.counter + 1, s.editing);
      Run(s1, es[1..]) == State(NewestFirst(s1.counter, es[1..]) + s1.tasks, s1.counter + |es[1..]|, s1.editing)
    ensures Run(s, es) == State(NewestFirst(s.counter, es) + s.tasks, s.counter + |es|, s.editing)
  {
    var t0 := Created(s.counter, es[0]);
    var front := NewestFirst(s.counter + 1, es[1..]);
    RunFirstAdd(s, es);
    assert NewestFirst(s.counter, es) == front + [t0];
    ConcatAssoc(front, [t0], s.tasks);
  }

  /** Concatenation is associative; stated apart so that tasks are not compared element by element. */
  lemma ConcatAssoc<T>(a: seq<T>, b: seq<T>, c: seq<T>)
    ensures a + (b + c) == (a + b) + c
  {
  }

  /** The events after the first of a run of adds are still adds. */
  lemma AllAddsTail(es: seq<Event>)
    requires |es| > 0 && AllAdds(es)
    ensures AllAdds(es[1..])
  {
    forall k | 0 <= k < |es| - 1 ensures es[1..][k].Submit? && !AllWhitespace(es[1..][k].raw) {
      assert es[1..][k] == es[k + 1];
    }
  }

  /** A session that opens with an adding submit continues from the state that add left. */
  lemma RunFirstAdd(s: State, es: seq<Event>)
    requires !Truthy(s.editing) && |es| > 0 && es[0].Submit? && !AllWhitespace(es[0].raw)
    ensures Run(s, es) == Run(State([Created(s.counter, es[0])] + s.tasks, s.counter + 1, s.editing), es[1..])
  {
    AddStep(s, es[0]);
  }

  /** A submit that adds, as a single step. */
  lemma AddStep(s: State, e: Event)
    requires !Truthy(s.editing) && e.Submit? && !AllWhitespace(e.raw)
    ensures Step(s, e) == State([Created(s.counter, e)] + s.tasks, s.counter + 1, s.editing)
  {
    var r := AddTask(s, e.raw, e.now);
    assert r.tasks == [r.tasks[0]] + r.tasks[1..];
  }

  /** The dangling editing id in a session: edit a task, delete it, then
      submit. The submit finds nothing to rewrite and creates nothing, so the
      text is lost; the list is the one the delete left, with no edit pending. */
  lemma EditDeleteSubmit(s: State, k: int, raw: string, now: Timestamp)
    requires Valid(s) && Positive(s) && 0 <= k < |s.tasks| && |Trim(raw)| > 0
    ensures var id := s.tasks[k].id;
      var r := Run(s, [Edit(id), Delete(id), Submit(raw, now)]);
      && r.tasks == s.tasks[..k] + s.tasks[k + 1..]
      && r.counter == s.counter
      && r.editing == None
  {
    var id := s.tasks[k].id;
    var s1 := EditTask(s, id);
    var s2 := DeleteTask(s1, id);
    DeleteCutsOut(s1, k);
    DanglingEditDiscardsText(s2, raw, now);
    var s3 := AddTask(s2, raw, now);
    assert Run(s, [Edit(id), Delete(id), Submit(raw, now)]) == Run(s1, [Delete(id), Submit(raw, now)]);
    assert Run(s1, [Delete(id), Submit(raw, now)]) == Run(s2, [Submit(raw, now)]);
    assert Run(s2, [Submit(raw, now)]) == Run(s3, []);
  }
}
