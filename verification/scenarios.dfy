/** Worked examples of the controller on small lists. */
module Scenarios {
  import opened Wrappers
  import opened Strings
  import Filtering
  import Reconciler
  import opened Items
  import opened Alerts
  import opened Search
  import opened Controller

  const Rice: Item := Item("rice", 2, None, 6.0, None, None)

  /** A quantity-only add of a priced entry adds to the quantity and keeps the line total. */
  lemma AddWithoutPriceKeepsTotal()
    ensures var r := UpdateList(State([Rice], false, [], None),
                                Command(AddToList(AddRequest("rice", Some(1), None, Some(0.0), None, None))));
            && r.list == [Rice.(quantity := 3)]
            && r.alert == Some(Added(1, "rice"))
  {
  }

  /** Removing more than the entry holds deletes it. */
  lemma RemoveMoreThanHeldDeletes()
    ensures UpdateList(State([Rice], false, [], None),
                       Command(RemoveFromList(RemoveRequest("rice", Given(5))))).list == []
  {
  }

  /** A remove whose quantity is JSON `null` keeps the entry, yet reports it removed. */
  lemma RemoveNullKeepsRice()
    ensures var r := UpdateList(State([Rice], false, [], None),
                                Command(RemoveFromList(RemoveRequest("rice", Null))));
            && r.list == [Rice]
            && Message(r.alert.value) == "\U{274C} Removed null rice(s)"
  {
    Reconciler.RemoveNullKeepsList([Rice], "rice", 0);
  }

  /** Searching "brea" among milk and bread finds bread only. */
  lemma SearchBreadOnly()
    ensures var milk, bread := Item("milk", 1, None, 0.0, None, None), Item("bread", 1, None, 0.0, None, None);
            UpdateList(State([milk, bread], false, [], None), Command(SearchItem("brea"))).results == [bread]
  {
    var milk, bread := Item("milk", 1, None, 0.0, None, None), Item("bread", 1, None, 0.0, None, None);
    assert Lower("brea") == "brea" && Lower("milk") == "milk" && Lower("bread") == "bread";
    assert !Contains("milk", "brea") by {
      assert "milk"[1..] == "ilk" && "ilk"[1..] == "lk" && "lk"[1..] == "k" && "k"[1..] == "";
      assert "milk"[..4] == "milk" != "brea";
      assert !Contains("lk", "brea");
    }
    assert Contains("bread", "brea") by { assert "bread"[..4] == "brea"; }
    assert !Matches(milk, "brea") && Matches(bread, "brea");
    var p := MatchesTerm("brea");
    assert [milk, bread][1..] == [bread] && [bread][1..] == [];
    assert Filtering.Filter([bread], p) == [bread];
    assert Filtering.Filter([milk, bread], p) == [bread];
  }

  /** The sentinel only raises the warning. */
  lemma SentinelOnlyWarns(s: State)
    ensures var r := UpdateList(s, Text("Not a shopping command."));
            r.list == s.list && r.searched == s.searched && r.results == s.results
            && r.alert == Some(NotAShoppingCommand)
  {
  }
}
