/**
 Concrete walks through the page's behaviour on small stores.
 */
module Scenarios {
  import opened DayList
  import opened TaskStore
  import Text

  /** Submitting "Buy milk" on an empty store shows one incomplete task
      for that day; a whitespace-only submission adds nothing. */
  lemma BuyMilk()
    ensures Lookup(AddInput(map[], "2024-06-01", "Buy milk", 7), "2024-06-01")
            == [Task(7, "Buy milk", false)]
    ensures AddInput(map[], "2024-06-01", " \t\n", 7) == map[]
  {
    assert Text.SkipLeading("Buy milk", 0) == 0;
    assert Text.SkipTrailing("Buy milk", 8) == 8;
    assert Text.Trim("Buy milk") == "Buy milk";
    assert AddInput(map[], "2024-06-01", "Buy milk", 7) == Add(map[], "2024-06-01", "Buy milk", 7);
    assert Text.AllWhitespace(" \t\n");
  }

  /** Adding a task and toggling it twice: completed, then not again. */
  lemma AddToggleToggle()
    ensures var s := Add(map[], "2024-06-01", "Buy milk", 7);
            && Toggle(s, "2024-06-01", 7)["2024-06-01"] == [Task(7, "Buy milk", true)]
            && Toggle(Toggle(s, "2024-06-01", 7), "2024-06-01", 7) == s
  {
    var s := Add(map[], "2024-06-01", "Buy milk", 7);
    ToggleAfterAdd(map[], "2024-06-01", "Buy milk", 7);
    ToggleTwiceRestores(s, "2024-06-01", 7);
  }

  /** Two tasks created in the same millisecond share an id: toggling
      flips only the earlier one, deleting removes both. */
  lemma SharedId()
    ensures var s := map["d" := [Task(5, "a", false), Task(5, "b", false), Task(6, "c", false)]];
            && Toggle(s, "d", 5)["d"] == [Task(5, "a", true), Task(5, "b", false), Task(6, "c", false)]
            && Delete(s, "d", 5)["d"] == [Task(6, "c", false)]
  {
    var l := [Task(5, "a", false), Task(5, "b", false), Task(6, "c", false)];
    assert IsFirstMatch(l, 5, 0);
    assert !IsFirstMatch(l, 5, 1);
  }
}
