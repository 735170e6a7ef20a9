/**
 * The alert messages the controller shows (client/src/App.jsx). The alert is a plain field of
 * the controller state; the timer that later clears it is not part of this model.
 */
module Alerts {
  import opened Strings
  import opened Items

  datatype Alert =
    | NotAShoppingCommand
    | NoMatches
    | Found(count: nat, term: string)
    | Added(quantity: int, item: string)
    | Removed(requested: Requested, item: string)

  /** A remove quantity as a template literal renders it. */
  function QuantityText(q: Requested): string {
    match q
    case Given(n) => IntToString(n)
    case Null => "null"
    case Absent => "undefined"
  }

  /** The text of each alert. */
  function Message(a: Alert): string {
    match a
    case NotAShoppingCommand => "\U{26A0}\U{FE0F} Not a shopping command."
    case NoMatches => "\U{1F50D} No matching items found."
    case Found(n, term) => "\U{2705} Found " + NatToString(n) + " item(s) matching \"" + term + "\""
    case Added(q, item) => "\U{2705} Added " + IntToString(q) + " " + item + "(s)"
    case Removed(q, item) => "\U{274C} Removed " + QuantityText(q) + " " + item + "(s)"
  }
}
