/**
 * `handleAddOrRemove`, `addItem` and `removeItem` (client/src/App.jsx) with the store writes
 * stripped away: pure functions from the previous list and an intent to the next list and
 * the alert they raise.
 */
module Reconciler {
  import opened Wrappers
  import opened Strings
  import opened Filtering
  import opened Items
  import opened Alerts

  /** `v || default` on a string field: absent or empty gives the default. */
  function TextOr(v: Option<string>, default: string): string {
    if v.Some? && v.value != "" then v.value else default
  }

  /** `q || 1`: absent or zero gives one. */
  function QuantityOr1(q: Option<int>): (n: int)
    ensures n != 0
  {
    if q.Some? && q.value != 0 then q.value else 1
  }

  /** `p || 0` on a price. */
  function PriceOr0(p: Option<real>): real {
    p.GetOr(0.0)
  }

  /** The `newItem` record `addItem` builds: defaults filled in, `price` the line total. */
  function NewEntry(a: AddRequest): Item {
    var q := QuantityOr1(a.quantity);
    Item(a.item, q,
         Some(TextOr(a.category, DefaultCategory)),
         PriceOr0(a.price) * q as real,
         Some(TextOr(a.brand, AnyValue)),
         Some(TextOr(a.size, AnyValue)))
  }

  /** One matching entry after an add: the spread of `entry` with the merged fields. */
  function Merge(entry: Item, a: AddRequest): Item {
    var n := NewEntry(a);
    var merged := entry.quantity + n.quantity;
    entry.(
      quantity := merged,
      price := if n.price != 0.0 then merged as real * (n.price / n.quantity as real) else entry.price,
      category := if n.category != Some(DefaultCategory) then n.category else entry.category,
      brand := if n.brand != Some(AnyValue) then n.brand else entry.brand,
      size := if n.size != Some(AnyValue) then n.size else entry.size)
  }

  /** The next list and, when one is raised, the alert. */
  datatype Outcome = Outcome(list: seq<Item>, alert: Option<Alert>)

  /**
   * `addItem`: merge into every matching entry when one exists, else append the new record.
   * Either way the alert reports the defaulted quantity.
   */
  function AddItem(prev: seq<Item>, existing: Option<Item>, a: AddRequest): (o: Outcome)
    ensures o.alert == Some(Added(QuantityOr1(a.quantity), a.item))
    ensures existing.None? ==> |o.list| == |prev| + 1 && o.list[..|prev|] == prev && o.list[|prev|].name == a.item
    ensures existing.Some? ==> |o.list| == |prev|
    ensures existing.Some? ==> forall i :: 0 <= i < |prev| ==>
              && o.list[i].name == prev[i].name
              && (SameKey(prev[i].name, a.item) ==> o.list[i].quantity == prev[i].quantity + QuantityOr1(a.quantity))
              && (!SameKey(prev[i].name, a.item) ==> o.list[i] == prev[i])
  {
    var n := NewEntry(a);
    var list :=
      if existing.Some? then
        seq(|prev|, i requires 0 <= i < |prev| =>
          if SameKey(prev[i].name, a.item) then Merge(prev[i], a) else prev[i])
      else prev + [n];
    Outcome(list, Some(Added(n.quantity, n.name)))
  }

  /** The filter `removeItem` uses to drop an entry: names that differ from `name`. */
  function KeyDiffers(name: string): Item -> bool {
    (e: Item) => !SameKey(e.name, name)
  }

  /**
   * The number `>` and `-` see for a remove quantity: `null` converts to 0, and `undefined` to
   * NaN, which compares false with everything (`None`).
   */
  function NumericValue(q: Requested): Option<int> {
    match q
    case Absent => None
    case Null => Some(0)
    case Given(n) => Some(n)
  }

  /** `existing.quantity > data.quantity`: the remove lowers the quantity instead of deleting. */
  predicate Decrements(existing: Item, q: Requested) {
    NumericValue(q).Some? && existing.quantity > NumericValue(q).value
  }

  /**
   * `removeItem`: when `existing` holds more than the requested quantity, every matching entry
   * goes down by it; otherwise every matching entry goes. Entries with other names stay.
   */
  function RemoveItem(prev: seq<Item>, existing: Item, r: RemoveRequest): (o: Outcome)
    ensures o.alert == Some(Removed(r.quantity, r.item))
    ensures Decrements(existing, r.quantity) ==>
              && |o.list| == |prev|
              && forall i :: 0 <= i < |prev| ==>
                   && o.list[i].name == prev[i].name
                   && (SameKey(prev[i].name, r.item) ==>
                         o.list[i] == prev[i].(quantity := prev[i].quantity - NumericValue(r.quantity).value))
                   && (!SameKey(prev[i].name, r.item) ==> o.list[i] == prev[i])
    ensures !Decrements(existing, r.quantity) ==>
              forall x :: x in o.list <==> x in prev && !SameKey(x.name, r.item)
    ensures !Decrements(existing, r.quantity) ==>
              SelectsMatches(o.list, prev, KeyDiffers(r.item), MatchIndices(prev, KeyDiffers(r.item)))
  {
    FilterSelectsMatches(prev, KeyDiffers(r.item));
    var list :=
      if Decrements(existing, r.quantity) then
        var n := NumericValue(r.quantity).value;
        seq(|prev|, i requires 0 <= i < |prev| =>
          if SameKey(prev[i].name, r.item) then prev[i].(quantity := prev[i].quantity - n)
          else prev[i])
      else Filter(prev, KeyDiffers(r.item));
    Outcome(list, Some(Removed(r.quantity, r.item)))
  }

  /**
   * `handleAddOrRemove`: an add always applies; a remove applies only when the name is on the
   * list; anything else returns the list as it was. Only an applied change raises an alert.
   */
  function HandleAddOrRemove(prev: seq<Item>, intent: Intent): (o: Outcome)
    ensures o.alert.Some? <==> intent.AddToList? || (intent.RemoveFromList? && HasKey(prev, intent.remove.item))
    ensures intent.RemoveFromList? && !HasKey(prev, intent.remove.item) ==> o == Outcome(prev, None)
    ensures !intent.AddToList? && !intent.RemoveFromList? ==> o == Outcome(prev, None)
  {
    match intent
    case AddToList(a) => AddItem(prev, Find(prev, a.item), a)
    case RemoveFromList(r) =>
      (match Find(prev, r.item)
       case Some(e) => RemoveItem(prev, e, r)
       case None => Outcome(prev, None))
    case _ => Outcome(prev, None)
  }

  // ---------------------------------------------------------------------------
  // Add
  // ---------------------------------------------------------------------------

  /**
   * Adding a name that matches no entry appends exactly one entry, with the defaults filled in
   * and the line total computed from the unit price, and leaves the rest alone.
   */
  lemma AddNewAppends(prev: seq<Item>, a: AddRequest)
    requires forall i :: 0 <= i < |prev| ==> !SameKey(prev[i].name, a.item)
    ensures var o := HandleAddOrRemove(prev, AddToList(a));
            var q := if a.quantity == None || a.quantity == Some(0) then 1 else a.quantity.value;
            && |o.list| == |prev| + 1
            && o.list[..|prev|] == prev
            && o.list[|prev|].name == a.item
            && o.list[|prev|].quantity == q
            && o.list[|prev|].price == PriceOr0(a.price) * q as real
            && o.list[|prev|].category == Some(if a.category in {None, Some("")} then "Uncategorized" else a.category.value)
            && o.list[|prev|].brand == Some(if a.brand in {None, Some("")} then "any" else a.brand.value)
            && o.list[|prev|].size == Some(if a.size in {None, Some("")} then "any" else a.size.value)
            && o.alert == Some(Added(q, a.item))
  {
  }

  /** A line total divided by its nonzero quantity is the unit price again. */
  lemma UnitPriceRecovered(unit: real, q: int)
    requires q != 0
    ensures (unit * q as real) / q as real == unit
    ensures unit * q as real != 0.0 <==> unit != 0.0
  {
  }

  /**
   * Adding a name already on the list keeps the length and every other entry; the matching
   * entry keeps its display name, adds the incoming quantity, and is repriced at the incoming
   * unit price only when that price is nonzero.
   */
  lemma AddExistingMerges(prev: seq<Item>, a: AddRequest, i: int)
    requires 0 <= i < |prev| && SameKey(prev[i].name, a.item)
    ensures var o := HandleAddOrRemove(prev, AddToList(a));
            var unit, merged := PriceOr0(a.price), prev[i].quantity + QuantityOr1(a.quantity);
            && |o.list| == |prev|
            && (forall j :: 0 <= j < |prev| && !SameKey(prev[j].name, a.item) ==> o.list[j] == prev[j])
            && o.list[i].name == prev[i].name
            && o.list[i].quantity == merged
            && o.list[i].price == (if unit != 0.0 then merged as real * unit else prev[i].price)
            && o.alert == Some(Added(QuantityOr1(a.quantity), a.item))
  {
    assert HasKey(prev, a.item);
    assert HandleAddOrRemove(prev, AddToList(a)) == AddItem(prev, Find(prev, a.item), a);
    assert HandleAddOrRemove(prev, AddToList(a)).list[i] == Merge(prev[i], a);
    MergePrice(prev[i], a);
  }

  /** The merged entry's price, stated through the incoming unit price. */
  lemma MergePrice(entry: Item, a: AddRequest)
    ensures var unit, merged := PriceOr0(a.price), entry.quantity + QuantityOr1(a.quantity);
            Merge(entry, a).price == (if unit != 0.0 then merged as real * unit else entry.price)
  {
    UnitPriceRecovered(PriceOr0(a.price), QuantityOr1(a.quantity));
  }

  /**
   * On a merge, an attribute the request leaves at its default (absent, empty, "Uncategorized"
   * for the category, "any" for brand and size) keeps the stored value; any other value replaces it.
   */
  lemma MergeKeepsKnownAttributes(prev: seq<Item>, a: AddRequest, i: int)
    requires 0 <= i < |prev| && SameKey(prev[i].name, a.item)
    ensures var e := HandleAddOrRemove(prev, AddToList(a)).list[i];
            && (a.category in {None, Some(""), Some("Uncategorized")} ==> e.category == prev[i].category)
            && (a.category !in {None, Some(""), Some("Uncategorized")} ==> e.category == a.category)
            && (a.brand in {None, Some(""), Some("any")} ==> e.brand == prev[i].brand)
            && (a.brand !in {None, Some(""), Some("any")} ==> e.brand == a.brand)
            && (a.size in {None, Some(""), Some("any")} ==> e.size == prev[i].size)
            && (a.size !in {None, Some(""), Some("any")} ==> e.size == a.size)
  {
  }

  // ---------------------------------------------------------------------------
  // Remove
  // ---------------------------------------------------------------------------

  /**
   * Removing fewer than the entry holds lowers its quantity by exactly the requested amount
   * (0 for `null`); its price, its other fields and every other entry stay as they were.
   */
  lemma RemovePartial(prev: seq<Item>, r: RemoveRequest, i: int)
    requires UniqueKeys(prev)
    requires 0 <= i < |prev| && SameKey(prev[i].name, r.item)
    requires Decrements(prev[i], r.quantity)
    ensures var o := HandleAddOrRemove(prev, RemoveFromList(r));
            && o.list == prev[i := prev[i].(quantity := prev[i].quantity - NumericValue(r.quantity).value)]
            && o.alert == Some(Removed(r.quantity, r.item))
  {
  }

  /**
   * Removing at least what the first matching entry holds, or without a quantity, deletes the
   * name from the list; with unique names that is exactly the one entry. A `null` quantity
   * deletes only an entry holding 0 or less.
   */
  lemma RemoveWhole(prev: seq<Item>, r: RemoveRequest, i: int)
    requires 0 <= i < |prev| && SameKey(prev[i].name, r.item)
    requires forall j :: 0 <= j < i ==> !SameKey(prev[j].name, r.item)
    requires !Decrements(prev[i], r.quantity)
    ensures var o := HandleAddOrRemove(prev, RemoveFromList(r));
            && !HasKey(o.list, r.item)
            && (UniqueKeys(prev) ==> o.list == prev[..i] + prev[i + 1..])
            && o.alert == Some(Removed(r.quantity, r.item))
  {
    assert HasKey(prev, r.item);
    var p := KeyDiffers(r.item);
    var o := HandleAddOrRemove(prev, RemoveFromList(r));
    assert o.list == Filter(prev, p);
    forall j | 0 <= j < |o.list|
      ensures !SameKey(o.list[j].name, r.item)
    {
      assert o.list[j] in o.list;
    }
    if UniqueKeys(prev) {
      forall j | 0 <= j < |prev| && j != i
        ensures p(prev[j])
      {
        if j < i {
          assert !SameKey(prev[j].name, prev[i].name);
        } else {
          assert !SameKey(prev[i].name, prev[j].name);
        }
      }
      FilterDropsOne(prev, p, i);
    }
  }

  /**
   * A `null` quantity compares as 0 and subtracts 0: when the first match holds a positive
   * quantity the list comes back unchanged, yet the alert reports a removal of "null".
   */
  lemma RemoveNullKeepsList(prev: seq<Item>, name: string, i: int)
    requires 0 <= i < |prev| && SameKey(prev[i].name, name)
    requires forall j :: 0 <= j < i ==> !SameKey(prev[j].name, name)
    requires prev[i].quantity > 0
    ensures var o := HandleAddOrRemove(prev, RemoveFromList(RemoveRequest(name, Null)));
            && o.list == prev
            && o.alert == Some(Removed(Null, name))
            && Message(o.alert.value) == "\U{274C} Removed null " + name + "(s)"
  {
    var r := RemoveRequest(name, Null);
    assert FindIndex(prev, name) == i;
    assert Decrements(prev[i], r.quantity);
    var o := HandleAddOrRemove(prev, RemoveFromList(r));
    assert o == RemoveItem(prev, prev[i], r);
    assert |o.list| == |prev|;
    forall j | 0 <= j < |prev|
      ensures o.list[j] == prev[j]
    {
    }
  }

  // ---------------------------------------------------------------------------
  // Invariants
  // ---------------------------------------------------------------------------

  /** Filtering never brings two equal names together. */
  lemma FilterKeepsUniqueKeys(prev: seq<Item>, p: Item -> bool)
    requires UniqueKeys(prev)
    ensures UniqueKeys(Filter(prev, p))
  {
    var r, idx := Filter(prev, p), MatchIndices(prev, p);
    FilterSelectsMatches(prev, p);
    forall a, b | 0 <= a < b < |r|
      ensures !SameKey(r[a].name, r[b].name)
    {
      assert r[a] == prev[idx[a]] && r[b] == prev[idx[b]] && idx[a] < idx[b];
    }
  }

  /** Adds and removes keep names unique. */
  lemma ReconcileKeepsUniqueKeys(prev: seq<Item>, intent: Intent)
    requires UniqueKeys(prev)
    ensures UniqueKeys(HandleAddOrRemove(prev, intent).list)
  {
    var o := HandleAddOrRemove(prev, intent);
    match intent
    case AddToList(a) =>
      if !HasKey(prev, a.item) {
        forall i, j | 0 <= i < j < |o.list|
          ensures !SameKey(o.list[i].name, o.list[j].name)
        {
          if j == |prev| {
            assert o.list[j].name == a.item;
          } else {
            assert o.list[i] == prev[i] && o.list[j] == prev[j];
          }
        }
      } else {
        forall i | 0 <= i < |o.list|
          ensures o.list[i].name == prev[i].name
        {
        }
      }
    case RemoveFromList(r) =>
      if HasKey(prev, r.item) {
        var e := Find(prev, r.item).value;
        if !Decrements(e, r.quantity) {
          FilterKeepsUniqueKeys(prev, KeyDiffers(r.item));
        } else {
          forall i | 0 <= i < |o.list|
            ensures o.list[i].name == prev[i].name
          {
          }
        }
      }
    case _ =>
  }

  /** With unique names, a remove keeps every quantity positive. */
  lemma RemoveKeepsQuantitiesPositive(prev: seq<Item>, r: RemoveRequest)
    requires UniqueKeys(prev) && AllPositive(prev)
    ensures AllPositive(HandleAddOrRemove(prev, RemoveFromList(r)).list)
  {
  }

  /** An add whose quantity is absent or not negative keeps every quantity positive. */
  lemma AddKeepsQuantitiesPositive(prev: seq<Item>, a: AddRequest)
    requires AllPositive(prev)
    requires a.quantity.None? || a.quantity.value >= 0
    ensures AllPositive(HandleAddOrRemove(prev, AddToList(a)).list)
  {
  }

  /** Adding the same request twice adds its quantity twice: adds accumulate. */
  lemma AddIsAdditive(prev: seq<Item>, a: AddRequest, i: int)
    requires 0 <= i < |prev| && SameKey(prev[i].name, a.item)
    ensures var once := HandleAddOrRemove(prev, AddToList(a)).list;
            var twice := HandleAddOrRemove(once, AddToList(a)).list;
            twice[i].quantity == prev[i].quantity + 2 * QuantityOr1(a.quantity)
  {
  }

  /**
   * Unique names are needed for positivity: the decrement is decided on the first matching
   * entry but applied to every matching entry.
   */
  lemma DuplicateNamesBreakPositivity()
    ensures var prev := [Item("Milk", 5, None, 0.0, None, None), Item("milk", 1, None, 0.0, None, None)];
            var o := HandleAddOrRemove(prev, RemoveFromList(RemoveRequest("milk", Given(3))));
            && AllPositive(prev) && !UniqueKeys(prev)
            && !AllPositive(o.list)
  {
    var prev := [Item("Milk", 5, None, 0.0, None, None), Item("milk", 1, None, 0.0, None, None)];
    assert Lower("Milk") == "milk" && Lower("milk") == "milk";
    assert FindIndex(prev, "milk") == 0;
    var r := RemoveRequest("milk", Given(3));
    assert Decrements(prev[0], r.quantity);
    var o := HandleAddOrRemove(prev, RemoveFromList(r));
    assert o == RemoveItem(prev, prev[0], r);
    assert o.list[1].quantity == -2;
  }
}
