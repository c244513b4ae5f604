/**
 The task store: a map from a date key to that day's ordered task list,
 with the page's three mutations (add, toggle, delete) and the lookup
 that `loadTasks` renders. The date key is an opaque string, the new
 task's id is supplied by the caller, and the text reaching `Add` is the
 input box's value after trimming.
 */
module TaskStore {
  import opened DayList
  import Text

  type Store = map<string, seq<Task>>

  /** Every day other than `day` is present in `s'` exactly when it is in
      `s`, and holds the same list there. */
  ghost predicate OtherDaysUnchanged(s: Store, s': Store, day: string) {
    forall d :: d != day ==> (d in s' <==> d in s) && (d in s ==> s'[d] == s[d])
  }

  /** Each day's list has distinct ids. */
  ghost predicate UniqueIdsPerDay(s: Store) {
    forall d :: d in s ==> UniqueIds(s[d])
  }

  /** What `loadTasks` renders for `day`: the stored list, or nothing when
      the day has no entry. That this list is in insertion order is
      `History.InsertionOrder` and `History.ShownFromEmpty`. */
  function Lookup(s: Store, day: string): (r: seq<Task>)
    ensures day in s ==> r == s[day]
    ensures day !in s ==> r == []
  {
    if day in s then s[day] else []
  }

  /** `addTask` given the trimmed text: empty text is rejected and the
      store is returned as it was; otherwise the day's list, created empty
      if absent, gets a new incomplete task appended at its end. */
  function Add(s: Store, day: string, text: string, id: int): (s': Store)
    ensures text == [] ==> s' == s
    ensures text != [] ==> && s'.Keys == s.Keys + {day}
                           && |s'[day]| == |Lookup(s, day)| + 1
                           && s'[day][..|Lookup(s, day)|] == Lookup(s, day)
                           && s'[day][|s'[day]| - 1] == Task(id, text, false)
    ensures OtherDaysUnchanged(s, s', day)
  {
    if text == [] then s
    else s[day := Lookup(s, day) + [Task(id, text, false)]]
  }

  /** `addTask` from the raw value of the input box: whitespace-only input
      adds nothing; anything else adds one task whose text is the input
      with its whitespace margins removed. */
  function AddInput(s: Store, day: string, input: string, id: int): (s': Store)
    ensures Text.AllWhitespace(input) ==> s' == s
    ensures !Text.AllWhitespace(input) ==>
      && day in s'
      && |s'[day]| == |Lookup(s, day)| + 1
      && s'[day][..|Lookup(s, day)|] == Lookup(s, day)
      && s'[day][|s'[day]| - 1] == Task(id, Text.Trim(input), false)
      && Text.Trim(input) != []
    ensures OtherDaysUnchanged(s, s', day)
  {
    var text := Text.Trim(input);
    assert text == [] <==> Text.AllWhitespace(input);
    Add(s, day, text, id)
  }

  /** `toggleTask`: flips `completed` on the first task of the day whose
      id matches. The day must have an entry: the page only offers a
      toggle for a task it has rendered from that day's list. */
  function Toggle(s: Store, day: string, id: int): (s': Store)
    requires day in s
    ensures s'.Keys == s.Keys
    ensures |s'[day]| == |s[day]|
    ensures forall k :: 0 <= k < |s[day]| ==>
      && s'[day][k].id == s[day][k].id
      && s'[day][k].text == s[day][k].text
      && (s'[day][k].completed != s[day][k].completed <==> IsFirstMatch(s[day], id, k))
    ensures !HasId(s[day], id) ==> s' == s
    ensures OtherDaysUnchanged(s, s', day)
  {
    var r := s[day := ToggleList(s[day], id)];
    assert !HasId(s[day], id) ==> r == s by {
      if !HasId(s[day], id) {
        ToggleAbsent(s[day], id);
      }
    }
    r
  }

  /** `deleteTask`: replaces the day's list by the tasks whose id differs
      from `id`, in their original relative order. The day must have an
      entry, as for `Toggle`. */
  function Delete(s: Store, day: string, id: int): (s': Store)
    requires day in s
    ensures s'.Keys == s.Keys
    ensures !HasId(s'[day], id)
    ensures |s'[day]| <= |s[day]|
    ensures IsSubsequence(s'[day], s[day])
    ensures forall t: Task {:trigger multiset(s'[day])[t]} :: t.id != id ==> multiset(s'[day])[t] == multiset(s[day])[t]
    ensures s'[day] == s[day] <==> !HasId(s[day], id)
    ensures OtherDaysUnchanged(s, s', day)
  {
    FilterUnchangedIff(s[day], id);
    FilterKeepsOthers(s[day], id);
    FilterKeepsOrder(s[day], id);
    s[day := FilterOut(s[day], id)]
  }

  /** `addTask` renders the new task by appending it to what is on screen
      rather than re-rendering; that agrees with a full `loadTasks` of the
      new store, for the day added to and for every other day. */
  lemma AddRenderMatchesReload(s: Store, day: string, text: string, id: int, other: string)
    requires text != []
    ensures Lookup(Add(s, day, text, id), day) == Lookup(s, day) + [Task(id, text, false)]
    ensures other != day ==> Lookup(Add(s, day, text, id), other) == Lookup(s, other)
  {
  }

  /** Toggling the same id twice restores the whole store. */
  lemma ToggleTwiceRestores(s: Store, day: string, id: int)
    requires day in s
    ensures Toggle(Toggle(s, day, id), day, id) == s
  {
    ToggleTwice(s[day], id);
    assert Toggle(Toggle(s, day, id), day, id)[day] == s[day];
  }

  /** Deleting the same id twice is deleting it once. */
  lemma DeleteIdempotent(s: Store, day: string, id: int)
    requires day in s
    ensures Delete(Delete(s, day, id), day, id) == Delete(s, day, id)
  {
    FilterIdempotent(s[day], id);
  }

  /** Deleting the id of a task just added, when no earlier task of that
      day carries it, undoes the add; if the add created the day's list,
      that list stays behind, empty. */
  lemma DeleteUndoesAdd(s: Store, day: string, text: string, id: int)
    requires text != [] && !HasId(Lookup(s, day), id)
    ensures day in s ==> Delete(Add(s, day, text, id), day, id) == s
    ensures day !in s ==> Delete(Add(s, day, text, id), day, id) == s[day := []]
  {
    var before := Lookup(s, day);
    var added := Add(s, day, text, id);
    assert Delete(added, day, id) == s[day := before] by {
      assert added == s[day := before + [Task(id, text, false)]];
      FilterUndoesAppend(before, Task(id, text, false));
      assert Delete(added, day, id) == added[day := before];
    }
  }

  /** Toggling the id of a task just added, when no earlier task of that
      day carries it, marks exactly that new task completed. */
  lemma ToggleAfterAdd(s: Store, day: string, text: string, id: int)
    requires text != [] && !HasId(Lookup(s, day), id)
    ensures Toggle(Add(s, day, text, id), day, id)
            == s[day := Lookup(s, day) + [Task(id, text, true)]]
  {
    ToggleAppended(Lookup(s, day), Task(id, text, false));
  }

  /** Adding with an id new to that day keeps ids distinct within every day. */
  lemma AddPreservesUniqueIds(s: Store, day: string, text: string, id: int)
    requires UniqueIdsPerDay(s)
    requires !HasId(Lookup(s, day), id)
    ensures UniqueIdsPerDay(Add(s, day, text, id))
  {
    var s' := Add(s, day, text, id);
    if text != [] {
      var l := s'[day];
      forall i, j | 0 <= i < j < |l| ensures l[i].id != l[j].id {
        if j < |l| - 1 {
          assert l[i] == Lookup(s, day)[i] && l[j] == Lookup(s, day)[j];
        } else {
          assert l[i] == Lookup(s, day)[i];
        }
      }
    }
  }

  /** Toggling keeps ids distinct within every day. */
  lemma TogglePreservesUniqueIdsPerDay(s: Store, day: string, id: int)
    requires day in s
    requires UniqueIdsPerDay(s)
    ensures UniqueIdsPerDay(Toggle(s, day, id))
  {
    TogglePreservesUniqueIds(s[day], id);
  }

  /** Deleting keeps ids distinct within every day, and then removes
      exactly one task when its id is present. */
  lemma DeleteUnderUniqueIds(s: Store, day: string, id: int)
    requires day in s
    requires UniqueIdsPerDay(s)
    ensures UniqueIdsPerDay(Delete(s, day, id))
    ensures HasId(s[day], id) ==> |Delete(s, day, id)[day]| == |s[day]| - 1
  {
    FilterPreservesUniqueIds(s[day], id);
    if HasId(s[day], id) {
      FilterRemovesOneWhenUnique(s[day], id);
    }
  }
}
