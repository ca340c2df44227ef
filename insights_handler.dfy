/**
 * The `/insights` request handler with its I/O removed: the stored document
 * is a parameter in place of reading and parsing the data file, and the
 * returned value is what would be written as the response body. The export
 * handler's body is `CsvExport.ExportBody`.
 */
module Handlers {
  import opened Wrappers
  import opened InsightsData
  import RangeOverride
  import CsvExport

  /** The freshly parsed object of one `/insights` request, whose `range` property is assigned in place. */
  class ParsedInsights {
    var range: Range
    var recentActivity: seq<Activity>
    var others: map<string, Json>

    /** The object as a JSON parser would build it from the stored document. */
    constructor (d: Document)
      ensures Value() == d
    {
      range := d.range;
      recentActivity := d.recentActivity;
      others := d.others;
    }

    /** The document the object currently represents, as `res.json` would serialise it. */
    function Value(): Document
      reads this
    {
      Document(range, recentActivity, others)
    }

    /** `obj.range = { from: from || obj.range.from, to: to || obj.range.to }`. */
    method OverrideRange(from: Option<string>, to: Option<string>)
      modifies this`range
      ensures Value() == RangeOverride.WithRange(old(Value()), from, to)
      ensures recentActivity == old(recentActivity) && others == old(others)
    {
      range := RangeOverride.NewRange(range, from, to);
    }
  }

  /** GET /insights: parse the stored document, override its range from the query, respond with it. */
  method GetInsights(stored: Document, from: Option<string>, to: Option<string>) returns (body: Document)
    ensures body == RangeOverride.WithRange(stored, from, to)
    ensures body.recentActivity == stored.recentActivity && body.others == stored.others
  {
    var obj := new ParsedInsights(stored);
    obj.OverrideRange(from, to);
    body := obj.Value();
  }

  /**
   * The export does not read `range`, so exporting an overridden document
   * gives the stored document's body.
   */
  lemma ExportIgnoresRange(stored: Document, from: Option<string>, to: Option<string>)
    ensures CsvExport.ExportBody(RangeOverride.WithRange(stored, from, to)) == CsvExport.ExportBody(stored)
  {
    CsvExport.OnlyExportedFieldsMatter(RangeOverride.WithRange(stored, from, to), stored);
  }

  /**
   * Example: stored range 2024-01-01 to 2024-01-31 and one
   * record. Without parameters the range is unchanged; with `from=2024-02-01`
   * only the lower bound moves; the record is untouched either way.
   */
  lemma InsightsExample(stored: Document)
    requires stored.range == Range("2024-01-01", "2024-01-31", map[])
    requires stored.recentActivity == [Activity("1", "2024-01-05", "Coffee", "Food", "debit", "4.5", map[])]
    ensures RangeOverride.WithRange(stored, None, None) == stored
    ensures RangeOverride.WithRange(stored, Some("2024-02-01"), None).range == Range("2024-02-01", "2024-01-31", map[])
    ensures RangeOverride.WithRange(stored, Some("2024-02-01"), None).recentActivity == stored.recentActivity
  {
  }
}
