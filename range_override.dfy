/**
 * The range override of the `/insights` handler: each bound of `range` is
 * the query parameter of the same name when that parameter is truthy in
 * JavaScript (present and non-empty), and the document's own bound otherwise.
 * The whole `range` object is replaced, so keys other than `from` and `to`
 * are dropped; nothing else in the document changes.
 */
module RangeOverride {
  import opened Wrappers
  import opened InsightsData

  /** JavaScript truthiness of a query-string value: present and not the empty string. */
  predicate Truthy(q: Option<string>) {
    q.Some? && q.value != ""
  }

  /** The value of `q || original` for a query-string value `q`. */
  function Bound(q: Option<string>, original: string): string {
    if Truthy(q) then q.value else original
  }

  /** The fresh two-key object `{ from: from || r.from, to: to || r.to }`. */
  function NewRange(r: Range, from: Option<string>, to: Option<string>): (n: Range)
    ensures n.from == (if Truthy(from) then from.value else r.from)
    ensures n.to == (if Truthy(to) then to.value else r.to)
    ensures RangeKeys(n) == {"from", "to"}
  {
    Range(Bound(from, r.from), Bound(to, r.to), map[])
  }

  /** The document after `obj.range` has been assigned the new range. */
  function WithRange(d: Document, from: Option<string>, to: Option<string>): (r: Document)
    ensures r.range.from == (if Truthy(from) then from.value else d.range.from)
    ensures r.range.to == (if Truthy(to) then to.value else d.range.to)
    ensures r.range.extra == map[]
    ensures r.recentActivity == d.recentActivity
    ensures r.others == d.others
  {
    d.(range := NewRange(d.range, from, to))
  }

  /** A supplied, non-empty `from` always wins; an absent or empty one keeps the stored bound. */
  lemma FromBound(d: Document, from: Option<string>, to: Option<string>)
    ensures forall s :: s != "" ==> WithRange(d, Some(s), to).range.from == s
    ensures WithRange(d, None, to).range.from == d.range.from
    ensures WithRange(d, Some(""), to).range.from == d.range.from
  {
  }

  /** The same for `to`. */
  lemma ToBound(d: Document, from: Option<string>, to: Option<string>)
    ensures forall s :: s != "" ==> WithRange(d, from, Some(s)).range.to == s
    ensures WithRange(d, from, None).range.to == d.range.to
    ensures WithRange(d, from, Some("")).range.to == d.range.to
  {
  }

  /** Each bound depends only on its own query parameter. */
  lemma BoundsIndependent(d: Document, from1: Option<string>, from2: Option<string>,
                          to1: Option<string>, to2: Option<string>)
    ensures WithRange(d, from1, to1).range.from == WithRange(d, from1, to2).range.from
    ensures WithRange(d, from1, to1).range.to == WithRange(d, from2, to1).range.to
  {
  }

  /**
   * Only `range` changes: the document with the new range and the original
   * document agree on every other part, and a well-formed document stays
   * well-formed with the same top-level keys.
   */
  lemma OnlyRangeChanges(d: Document, from: Option<string>, to: Option<string>)
    ensures WithRange(d, from, to) == d.(range := WithRange(d, from, to).range)
    ensures TopLevelKeys(WithRange(d, from, to)) == TopLevelKeys(d)
    ensures WellFormed(d) ==> WellFormed(WithRange(d, from, to))
  {
  }

  /** The new range has no keys besides `from` and `to`, whatever the stored range carried. */
  lemma ExtraRangeKeysDropped(d: Document, from: Option<string>, to: Option<string>)
    ensures RangeKeys(WithRange(d, from, to).range) == {"from", "to"}
    ensures RangeKeys(d.range) - RangeKeys(WithRange(d, from, to).range) == d.range.extra.Keys - {"from", "to"}
  {
  }

  /** Applying the override twice with the same parameters is the same as applying it once. */
  lemma Idempotent(d: Document, from: Option<string>, to: Option<string>)
    ensures WithRange(WithRange(d, from, to), from, to) == WithRange(d, from, to)
  {
  }

  /** With no query parameters the range keeps both bounds and loses only its extra keys. */
  lemma NoParametersKeepsBounds(d: Document)
    ensures WithRange(d, None, None) == d.(range := Range(d.range.from, d.range.to, map[]))
    ensures d.range.extra == map[] ==> WithRange(d, None, None) == d
  {
  }
}
