/**
 * The records of the live shopping list and the intents decoded from a user's utterance
 * (client/src/App.jsx). An entry is identified by its name compared without regard to case.
 */
module Items {
  import opened Wrappers
  import opened Strings

  const DefaultCategory: string := "Uncategorized"
  const AnyValue: string := "any"

  /**
   * One entry of the live list. `name` is the record's `item` field, kept as first given.
   * Records read back from the store may lack category, brand or size, hence the options.
   */
  datatype Item = Item(
    name: string,
    quantity: int,
    category: Option<string>,
    price: real,
    brand: Option<string>,
    size: Option<string>)

  /**
   * The fields of an `add_to_list` intent. `None` is a field the object does not carry or that
   * is `null`: the `||` defaults treat the two alike.
   */
  datatype AddRequest = AddRequest(
    item: string,
    quantity: Option<int>,
    category: Option<string>,
    price: Option<real>,
    brand: Option<string>,
    size: Option<string>)

  /**
   * The `quantity` of a remove intent. Here `undefined` and `null` differ: the comparison and
   * the subtraction in `removeItem` read `null` as 0 and `undefined` as NaN, and the alert
   * prints them as "null" and "undefined".
   */
  datatype Requested = Absent | Null | Given(count: int)

  /** The fields of a `remove_from_list` intent that the list update reads. */
  datatype RemoveRequest = RemoveRequest(item: string, quantity: Requested)

  /** A decoded intent object, by the value of its `intent` field. */
  datatype Intent =
    | AddToList(add: AddRequest)
    | RemoveFromList(remove: RemoveRequest)
    | SearchItem(searchTerm: string)
    | Unrecognized

  /** Two names denote the same entry when they agree after lower-casing (no trimming). */
  predicate SameKey(a: string, b: string) {
    Lower(a) == Lower(b)
  }

  predicate HasKey(list: seq<Item>, name: string) {
    exists i :: 0 <= i < |list| && SameKey(list[i].name, name)
  }

  /** Position of the first entry whose name matches `name`, or -1. */
  function FindIndex(list: seq<Item>, name: string): (k: int)
    ensures -1 <= k < |list|
    ensures k >= 0 ==> SameKey(list[k].name, name)
    ensures forall j :: 0 <= j < |list| && (k < 0 || j < k) ==> !SameKey(list[j].name, name)
    decreases |list|
  {
    if list == [] then -1
    else if SameKey(list[0].name, name) then 0
    else
      var k := FindIndex(list[1..], name);
      if k < 0 then -1 else k + 1
  }

  /** `list.find` of the first entry whose lower-cased name equals the lower-cased `name`. */
  function Find(list: seq<Item>, name: string): (r: Option<Item>)
    ensures r.Some? <==> HasKey(list, name)
    ensures r.Some? ==> exists i :: && 0 <= i < |list| && r.value == list[i] && SameKey(list[i].name, name)
                                    && forall j :: 0 <= j < i ==> !SameKey(list[j].name, name)
  {
    var k := FindIndex(list, name);
    if k < 0 then None else Some(list[k])
  }

  /** At most one entry per case-insensitive name. */
  predicate UniqueKeys(list: seq<Item>) {
    forall i, j :: 0 <= i < j < |list| ==> !SameKey(list[i].name, list[j].name)
  }

  predicate AllPositive(list: seq<Item>) {
    forall i :: 0 <= i < |list| ==> list[i].quantity > 0
  }
}
