/**
 One day's list of tasks, in insertion (and display) order, and the two
 list operations the page performs on it: `find` the first task with a
 given id and flip its `completed` flag, and `filter` out every task with
 a given id. Ids come from a clock read and are not guaranteed distinct,
 so the contracts say what happens when several tasks share an id.
 */
module DayList {

  datatype Option<T> = None | Some(value: T)

  /** A task record `{id, text, completed}`. */
  datatype Task = Task(id: int, text: string, completed: bool)

  /** The same task with its completion flag inverted. */
  function Flip(t: Task): (r: Task)
    ensures r.id == t.id && r.text == t.text && r.completed != t.completed
  {
    t.(completed := !t.completed)
  }

  /** Some task in the list carries `id`. */
  predicate HasId(tasks: seq<Task>, id: int) {
    exists k :: 0 <= k < |tasks| && tasks[k].id == id
  }

  /** Position `k` holds the first task carrying `id`. */
  predicate IsFirstMatch(tasks: seq<Task>, id: int, k: int) {
    && 0 <= k < |tasks|
    && tasks[k].id == id
    && forall j :: 0 <= j < k ==> tasks[j].id != id
  }

  /** No two tasks of the list share an id. */
  ghost predicate UniqueIds(tasks: seq<Task>) {
    forall i, j :: 0 <= i < j < |tasks| ==> tasks[i].id != tasks[j].id
  }

  /** `a` can be obtained from `b` by deleting elements, so the elements
      of `a` occur in `b` in the same relative order. */
  ghost predicate IsSubsequence<T>(a: seq<T>, b: seq<T>)
    decreases |b|
  {
    || |a| == 0
    || (&& |b| > 0
        && ((a[0] == b[0] && IsSubsequence(a[1..], b[1..])) || IsSubsequence(a, b[1..])))
  }

  /** `Array.prototype.find` with the predicate `t.id === id`, as a
      position: the index of the first task carrying `id`, or None. */
  function FindFirst(tasks: seq<Task>, id: int): (r: Option<nat>)
    ensures r.None? <==> !HasId(tasks, id)
    ensures r.Some? ==> IsFirstMatch(tasks, id, r.value)
    decreases |tasks|
  {
    if |tasks| == 0 then None
    else if tasks[0].id == id then Some(0)
    else
      match FindFirst(tasks[1..], id)
      case None =>
        assert forall k :: 1 <= k < |tasks| ==> tasks[k] == tasks[1..][k - 1];
        None
      case Some(i) =>
        assert forall k :: 1 <= k < i + 1 ==> tasks[k] == tasks[1..][k - 1];
        Some(i + 1)
  }

  /** The list after `toggleTask`: the first task carrying `id`, if any,
      has its flag inverted in place; every other position is untouched. */
  function ToggleList(tasks: seq<Task>, id: int): (r: seq<Task>)
    ensures |r| == |tasks|
    ensures forall k :: 0 <= k < |tasks| ==>
      r[k] == (if IsFirstMatch(tasks, id, k) then Flip(tasks[k]) else tasks[k])
  {
    match FindFirst(tasks, id)
    case None => tasks
    case Some(i) => tasks[i := Flip(tasks[i])]
  }

  /** The list after `deleteTask`: `Array.prototype.filter` keeping the
      tasks whose id differs from `id`, scanning from the front. */
  function FilterOut(tasks: seq<Task>, id: int): (r: seq<Task>)
    ensures |r| <= |tasks|
    ensures !HasId(r, id)
    decreases |tasks|
  {
    if |tasks| == 0 then []
    else
      var rest := FilterOut(tasks[1..], id);
      if tasks[0].id == id then rest else [tasks[0]] + rest
  }

  /** Filtering keeps every task whose id differs, as often as it occurs,
      and drops every task whose id matches. */
  lemma {:induction false} FilterKeepsOthers(tasks: seq<Task>, id: int)
    ensures forall t: Task {:trigger multiset(FilterOut(tasks, id))[t]} :: multiset(FilterOut(tasks, id))[t]
                              == (if t.id == id then 0 else multiset(tasks)[t])
    decreases |tasks|
  {
    if |tasks| > 0 {
      FilterKeepsOthers(tasks[1..], id);
      assert tasks == [tasks[0]] + tasks[1..];
    }
  }

  /** Filtering keeps the surviving tasks in their original relative order. */
  lemma {:induction false} FilterKeepsOrder(tasks: seq<Task>, id: int)
    ensures IsSubsequence(FilterOut(tasks, id), tasks)
    decreases |tasks|
  {
    if |tasks| > 0 {
      var rest := FilterOut(tasks[1..], id);
      FilterKeepsOrder(tasks[1..], id);
      if tasks[0].id != id {
        var r := [tasks[0]] + rest;
        assert r[0] == tasks[0] && r[1..] == rest;
      }
    }
  }

  /** Toggling the same id twice gives back the original list: the first
      toggle keeps every id, so the second one finds the same position. */
  lemma ToggleTwice(tasks: seq<Task>, id: int)
    ensures ToggleList(ToggleList(tasks, id), id) == tasks
  {
  }

  /** Toggling the id of a task appended to a list where no task carried
      that id flips exactly that last task. */
  lemma ToggleAppended(tasks: seq<Task>, t: Task)
    requires !HasId(tasks, t.id)
    ensures ToggleList(tasks + [t], t.id) == tasks + [Flip(t)]
  {
    assert IsFirstMatch(tasks + [t], t.id, |tasks|);
  }

  /** Toggling an id that no task carries changes nothing. */
  lemma ToggleAbsent(tasks: seq<Task>, id: int)
    requires !HasId(tasks, id)
    ensures ToggleList(tasks, id) == tasks
  {
  }

  /** With several tasks sharing `id`, only the earliest one is flipped. */
  lemma ToggleFirstOfDuplicates(tasks: seq<Task>, id: int, i: nat, j: nat)
    requires i < j < |tasks|
    requires tasks[i].id == id && tasks[j].id == id
    ensures ToggleList(tasks, id)[j] == tasks[j]
  {
  }

  /** Toggling keeps the ids in place, so it keeps them distinct. */
  lemma TogglePreservesUniqueIds(tasks: seq<Task>, id: int)
    requires UniqueIds(tasks)
    ensures UniqueIds(ToggleList(tasks, id))
  {
  }

  /** Filtering changes the list exactly when some task carries `id`. */
  lemma {:induction false} FilterUnchangedIff(tasks: seq<Task>, id: int)
    ensures FilterOut(tasks, id) == tasks <==> !HasId(tasks, id)
    decreases |tasks|
  {
    if |tasks| > 0 {
      FilterUnchangedIff(tasks[1..], id);
      if !HasId(tasks, id) {
        assert !HasId(tasks[1..], id) by {
          forall k | 0 <= k < |tasks[1..]| ensures tasks[1..][k].id != id {
            assert tasks[1..][k] == tasks[k + 1];
          }
        }
        assert tasks == [tasks[0]] + tasks[1..];
      }
    }
  }

  /** Filtering a second time with the same id has no further effect. */
  lemma FilterIdempotent(tasks: seq<Task>, id: int)
    ensures FilterOut(FilterOut(tasks, id), id) == FilterOut(tasks, id)
  {
    FilterUnchangedIff(FilterOut(tasks, id), id);
  }

  /** `filter` distributes over concatenation. */
  lemma {:induction false} FilterAppend(a: seq<Task>, b: seq<Task>, id: int)
    ensures FilterOut(a + b, id) == FilterOut(a, id) + FilterOut(b, id)
    decreases |a|
  {
    if |a| == 0 {
      assert a + b == b;
    } else {
      var ab := a + b;
      assert ab[0] == a[0];
      assert ab[1..] == a[1..] + b;
      FilterAppend(a[1..], b, id);
      var kept := if a[0].id == id then [] else [a[0]];
      assert FilterOut(ab, id) == kept + FilterOut(a[1..] + b, id);
      assert FilterOut(a, id) == kept + FilterOut(a[1..], id);
    }
  }

  /** Filtering out the id of a task appended to a list where no task
      carried that id gives back the list. */
  lemma FilterUndoesAppend(tasks: seq<Task>, t: Task)
    requires !HasId(tasks, t.id)
    ensures FilterOut(tasks + [t], t.id) == tasks
  {
    FilterAppend(tasks, [t], t.id);
    FilterUnchangedIff(tasks, t.id);
    assert FilterOut([t], t.id) == [];
  }

  /** When ids are distinct and one task carries `id`, deleting removes
      exactly one task. */
  lemma {:induction false} FilterRemovesOneWhenUnique(tasks: seq<Task>, id: int)
    requires UniqueIds(tasks)
    requires HasId(tasks, id)
    ensures |FilterOut(tasks, id)| == |tasks| - 1
    decreases |tasks|
  {
    var tail := tasks[1..];
    assert forall k :: 0 <= k < |tail| ==> tail[k] == tasks[k + 1];
    if tasks[0].id == id {
      FilterUnchangedIff(tail, id);
    } else {
      FilterRemovesOneWhenUnique(tail, id);
    }
  }

  /** Deleting keeps the remaining ids distinct. */
  lemma {:induction false} FilterPreservesUniqueIds(tasks: seq<Task>, id: int)
    requires UniqueIds(tasks)
    ensures UniqueIds(FilterOut(tasks, id))
    decreases |tasks|
  {
    if |tasks| > 0 {
      var tail := tasks[1..];
      assert forall k :: 0 <= k < |tail| ==> tail[k] == tasks[k + 1];
      FilterPreservesUniqueIds(tail, id);
      var rest := FilterOut(tail, id);
      FilterKeepsOthers(tail, id);
      if tasks[0].id != id {
        var r := [tasks[0]] + rest;
        forall k | 0 <= k < |rest|
          ensures rest[k].id != tasks[0].id
        {
          assert multiset(rest)[rest[k]] > 0;
          assert rest[k] in tail;
        }
        assert r == FilterOut(tasks, id);
        assert forall k :: 1 <= k < |r| ==> r[k] == rest[k - 1];
      }
    }
  }
}
