/**
 A run of `addTask` submissions against one day, and what `loadTasks`
 then shows for it: the accepted submissions, in the order they were
 made, after whatever the day already held.
 */
module History {
  import opened DayList
  import opened TaskStore

  /** One submission: the trimmed text and the id it was given. */
  datatype Submission = Submission(text: string, id: int)

  /** The store after submitting each entry of `subs` to `day` in turn. */
  function AddAll(s: Store, day: string, subs: seq<Submission>): Store
    decreases |subs|
  {
    if |subs| == 0 then s
    else AddAll(Add(s, day, subs[0].text, subs[0].id), day, subs[1..])
  }

  /** The tasks the accepted submissions create, in submission order;
      submissions with empty text create none. */
  function Created(subs: seq<Submission>): (r: seq<Task>)
    ensures |r| <= |subs|
    ensures forall k :: 0 <= k < |r| ==> !r[k].completed && r[k].text != []
    decreases |subs|
  {
    if |subs| == 0 then []
    else if subs[0].text == [] then Created(subs[1..])
    else [Task(subs[0].id, subs[0].text, false)] + Created(subs[1..])
  }

  /** Insertion order: after a run of submissions the day shows what it
      held before followed by the accepted submissions in the order made. */
  lemma {:induction false} InsertionOrder(s: Store, day: string, subs: seq<Submission>)
    ensures Lookup(AddAll(s, day, subs), day) == Lookup(s, day) + Created(subs)
    decreases |subs|
  {
    if |subs| > 0 {
      var s1 := Add(s, day, subs[0].text, subs[0].id);
      InsertionOrder(s1, day, subs[1..]);
      if subs[0].text != [] {
        AddRenderMatchesReload(s, day, subs[0].text, subs[0].id, day);
      }
    }
  }

  /** Starting from no data, a day shows exactly its accepted submissions,
      in order; a day never submitted to shows nothing. */
  lemma ShownFromEmpty(day: string, subs: seq<Submission>, other: string)
    ensures Lookup(AddAll(map[], day, subs), day) == Created(subs)
    ensures other != day ==> Lookup(AddAll(map[], day, subs), other) == []
  {
    InsertionOrder(map[], day, subs);
    AddAllOtherDays(map[], day, subs);
  }

  /** A run of submissions to one day leaves every other day as it was. */
  lemma {:induction false} AddAllOtherDays(s: Store, day: string, subs: seq<Submission>)
    ensures OtherDaysUnchanged(s, AddAll(s, day, subs), day)
    decreases |subs|
  {
    if |subs| > 0 {
      AddAllOtherDays(Add(s, day, subs[0].text, subs[0].id), day, subs[1..]);
    }
  }
}
