/**
 * `handleSearch`'s filter (client/src/App.jsx): keeps, in list order, the entries whose name,
 * category or brand contains the term, all lower-cased. A missing category or brand is skipped.
 */
module Search {
  import opened Wrappers
  import opened Strings
  import opened Filtering
  import opened Items

  /** The lower-cased `field` contains the lower-cased `term`; an absent field never does. */
  predicate FieldMatches(field: Option<string>, term: string) {
    field.Some? && Contains(Lower(field.value), Lower(term))
  }

  lemma FieldMatchesIffOccurs(field: Option<string>, term: string)
    ensures FieldMatches(field, term) <==> field.Some? && Occurs(Lower(field.value), Lower(term))
  {
    if field.Some? {
      ContainsIffOccurs(Lower(field.value), Lower(term));
    }
  }

  /** Whether the search keeps `item`. */
  function Matches(item: Item, term: string): (b: bool)
    ensures b <==>
      || Occurs(Lower(item.name), Lower(term))
      || (item.category.Some? && Occurs(Lower(item.category.value), Lower(term)))
      || (item.brand.Some? && Occurs(Lower(item.brand.value), Lower(term)))
  {
    ContainsIffOccurs(Lower(item.name), Lower(term));
    FieldMatchesIffOccurs(item.category, term);
    FieldMatchesIffOccurs(item.brand, term);
    || Contains(Lower(item.name), Lower(term))
    || FieldMatches(item.category, term)
    || FieldMatches(item.brand, term)
  }

  function MatchesTerm(term: string): Item -> bool {
    (item: Item) => Matches(item, term)
  }

  /** `shoppingList.filter(...)` with the match above: the matching entries and no others. */
  function SearchList(list: seq<Item>, term: string): (r: seq<Item>)
    ensures |r| <= |list|
    ensures forall x :: x in r <==> x in list && Matches(x, term)
  {
    Filter(list, MatchesTerm(term))
  }

  /**
   * The results are exactly the matching entries, each once, in list order: the entries at
   * an increasing run of positions, which are the positions of the matching entries.
   */
  lemma SearchSelectsMatches(list: seq<Item>, term: string)
    ensures SelectsMatches(SearchList(list, term), list, MatchesTerm(term), MatchIndices(list, MatchesTerm(term)))
  {
    FilterSelectsMatches(list, MatchesTerm(term));
  }

  /** Every result is an entry of the list that matches. */
  lemma SearchResultsMatch(list: seq<Item>, term: string)
    ensures forall x :: x in SearchList(list, term) ==> x in list && Matches(x, term)
    ensures SearchList(list, term) == [] <==> forall i :: 0 <= i < |list| ==> !Matches(list[i], term)
  {
    var r := SearchList(list, term);
    if r != [] {
      assert r[0] in r;
      var i :| 0 <= i < |list| && list[i] == r[0];
      assert Matches(list[i], term);
    }
  }

  /** An empty term is contained in every name, so it returns the whole list. */
  lemma SearchEmptyTerm(list: seq<Item>)
    ensures SearchList(list, "") == list
  {
    forall i | 0 <= i < |list|
      ensures MatchesTerm("")(list[i])
    {
      ContainsEmpty(Lower(list[i].name));
    }
    FilterKeepsAll(list, MatchesTerm(""));
  }

  /** An entry without category and brand is found by its name alone. */
  lemma AbsentFieldsNeverMatch(item: Item, term: string)
    requires item.category.None? && item.brand.None?
    ensures Matches(item, term) <==> Occurs(Lower(item.name), Lower(term))
  {
  }

  /** Searching with the name of an entry, in any case, finds that entry. */
  lemma SearchFindsByName(list: seq<Item>, term: string, i: int)
    requires 0 <= i < |list| && SameKey(list[i].name, term)
    ensures list[i] in SearchList(list, term)
  {
  }

  /** The case of the term does not matter. */
  lemma SearchIgnoresCase(list: seq<Item>, t1: string, t2: string)
    requires Lower(t1) == Lower(t2)
    ensures SearchList(list, t1) == SearchList(list, t2)
  {
    FilterSamePredicate(list, MatchesTerm(t1), MatchesTerm(t2));
  }
}
