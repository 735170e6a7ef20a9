/**
 * `updateList` (client/src/App.jsx) as a transition of the controller state: the live list,
 * whether the search view is shown, the search results and the current alert.
 */
module Controller {
  import opened Wrappers
  import opened Items
  import opened Alerts
  import opened Reconciler
  import opened Search

  /** The sentinel string the extraction service sends for anything that is not a command. */
  const NotACommandText: string := "Not a shopping command."

  /** What `updateList` receives: a falsy value, a bare string, or a decoded intent object. */
  datatype Input = Falsy | Text(text: string) | Command(intent: Intent)

  datatype State = State(list: seq<Item>, searched: bool, results: seq<Item>, alert: Option<Alert>)

  const Initial: State := State([], false, [], None)

  /** `!data || data === 'Not a shopping command.'`; the empty string is falsy too. */
  predicate Ignored(d: Input) {
    d.Falsy? || (d.Text? && (d.text == "" || d.text == NotACommandText))
  }

  /** The intent `handleAddOrRemove` sees: a string carries no `intent` field. */
  function IntentOf(d: Input): Intent {
    if d.Command? then d.intent else Unrecognized
  }

  /** `handleSearch`: shows the matches of `term` and reports how many there are. */
  function HandleSearch(s: State, term: string): (r: State)
    ensures r.list == s.list && r.searched
    ensures forall x :: x in r.results ==> x in s.list && Matches(x, term)
    ensures forall i :: 0 <= i < |s.list| && Matches(s.list[i], term) ==> s.list[i] in r.results
    ensures r.results == [] <==> forall i :: 0 <= i < |s.list| ==> !Matches(s.list[i], term)
    ensures r.alert == Some(if r.results == [] then NoMatches else Found(|r.results|, term))
  {
    var found := SearchList(s.list, term);
    SearchResultsMatch(s.list, term);
    s.(searched := true, results := found,
       alert := Some(if |found| == 0 then NoMatches else Found(|found|, term)))
  }

  /** `updateList`. */
  function UpdateList(s: State, d: Input): (r: State)
    ensures Ignored(d) ==> r == s.(alert := Some(NotAShoppingCommand))
    ensures !Ignored(d) && IntentOf(d).SearchItem? ==> r.list == s.list && r.searched
    ensures !Ignored(d) && !IntentOf(d).SearchItem? ==> !r.searched && r.results == []
  {
    if Ignored(d) then s.(alert := Some(NotAShoppingCommand))
    else if IntentOf(d).SearchItem? then HandleSearch(s, IntentOf(d).searchTerm)
    else
      var o := HandleAddOrRemove(s.list, IntentOf(d));
      State(o.list, false, [], if o.alert.Some? then o.alert else s.alert)
  }

  /** A search intent leaves the list alone and shows exactly the matching entries, in order. */
  lemma SearchShowsMatches(s: State, term: string)
    ensures var r := UpdateList(s, Command(SearchItem(term)));
            && r.list == s.list && r.searched
            && r.results == SearchList(s.list, term)
            && (r.results == [] <==> forall i :: 0 <= i < |s.list| ==> !Matches(s.list[i], term))
            && r.alert == Some(if r.results == [] then NoMatches else Found(|r.results|, term))
  {
  }

  /**
   * Any other input clears the search view and applies the reconciler; the alert changes only
   * when the reconciler raises one, so a remove of an absent name keeps the previous alert.
   */
  lemma ChangeClearsSearch(s: State, d: Input)
    requires !Ignored(d) && !IntentOf(d).SearchItem?
    ensures var r, o := UpdateList(s, d), HandleAddOrRemove(s.list, IntentOf(d));
            && r.list == o.list && !r.searched && r.results == []
            && r.alert == (if o.alert.Some? then o.alert else s.alert)
            && (d.Text? || IntentOf(d).Unrecognized? ==> r.list == s.list && r.alert == s.alert)
  {
  }

  /** The state the controller keeps consistent. */
  predicate Consistent(s: State) {
    && UniqueKeys(s.list)
    && (forall x :: x in s.results ==> x in s.list)
    && (!s.searched ==> s.results == [])
  }

  lemma InitialConsistent()
    ensures Consistent(Initial)
  {
  }

  /** Every transition keeps names unique and shows only entries of the current list. */
  lemma UpdateListKeepsConsistent(s: State, d: Input)
    requires Consistent(s)
    ensures Consistent(UpdateList(s, d))
  {
    if !Ignored(d) && !IntentOf(d).SearchItem? {
      ReconcileKeepsUniqueKeys(s.list, IntentOf(d));
    }
  }

  /** Adds of absent or non-negative quantities, and all removes, keep quantities positive. */
  lemma UpdateListKeepsQuantitiesPositive(s: State, d: Input)
    requires UniqueKeys(s.list) && AllPositive(s.list)
    requires IntentOf(d).AddToList? ==> IntentOf(d).add.quantity.None? || IntentOf(d).add.quantity.value >= 0
    ensures AllPositive(UpdateList(s, d).list)
  {
  }
}
