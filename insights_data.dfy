/**
 * The already-parsed insights document served by the mock server: a date
 * `range`, the `recent_activity` list, and whatever other top-level fields
 * the stored JSON resource holds, which are carried through untouched.
 */
module InsightsData {

  /** A JSON value, used for every part of the document the server does not interpret. */
  datatype Json =
    | JNull
    | JBool(b: bool)
    | JNumber(text: string)
    | JString(s: string)
    | JArray(items: seq<Json>)
    | JObject(fields: map<string, Json>)

  /**
   * One entry of `recent_activity`. Every field is held already rendered as
   * text, the way the export's template literal turns it into text. The JSON
   * key `type` is called `kind` here because `type` is a Dafny keyword.
   * `extra` holds any further keys of the record.
   */
  datatype Activity = Activity(
    id: string,
    date: string,
    title: string,
    category: string,
    kind: string,
    amount: string,
    extra: map<string, Json>)

  /** The `range` object: its two bounds and any further keys it carries. */
  datatype Range = Range(from: string, to: string, extra: map<string, Json>)

  /** The root object: `range`, `recent_activity`, and all other top-level keys. */
  datatype Document = Document(
    range: Range,
    recentActivity: seq<Activity>,
    others: map<string, Json>)

  /** The keys of the `range` object as JSON sees them. */
  function RangeKeys(r: Range): set<string> {
    {"from", "to"} + r.extra.Keys
  }

  /** The top-level keys of the document as JSON sees them. */
  function TopLevelKeys(d: Document): set<string> {
    {"range", "recent_activity"} + d.others.Keys
  }

  /**
   * A document that a JSON parser could have produced: the keys modelled by
   * named fields do not appear a second time among the pass-through keys.
   */
  predicate WellFormed(d: Document) {
    && "range" !in d.others
    && "recent_activity" !in d.others
    && "from" !in d.range.extra
    && "to" !in d.range.extra
  }
}
