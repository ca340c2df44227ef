# Insights mock server: range override and CSV export

A Dafny model of the two transforms in the mock HTTP server of `mock-server/index.js`:

- **Range override** (`GET /insights`). The handler parses the stored insights document and assigns its `range` property a fresh object `{ from: from || obj.range.from, to: to || obj.range.to }`. Each query parameter is JavaScript-truthy exactly when it is present and non-empty. A truthy parameter replaces its bound; otherwise the stored bound is kept. The whole `range` object is replaced, so any other keys it had are dropped. `recent_activity` and every other top-level key pass through untouched.
- **CSV export** (`GET /api/insights/export`). The body is the literal header `id,date,title,category,type,amount`, then one line per record of `recent_activity`, in order. Each line holds that record's six fields joined by commas. Lines are joined by `"\n"` with no trailing newline. Nothing is quoted or escaped.

Files:

- `wrappers.dfy`: `Option`, used for a query parameter that may be absent.
- `insights_data.dfy`: the parsed document (`Document`, `Range`, `Activity`), with a `Json` datatype for the parts passed through uninterpreted. The record's `type` key is the field `kind`, because `type` is a Dafny keyword.
- `range_override.dfy`: the override as functions on documents, with lemmas about it. `Truthy` is JavaScript truthiness of a query value, `Bound` is `q || original`, and `WithRange` is the document after the assignment of line 16.
- `strings.dfy`: `Join` (like `Array.prototype.join`) and `Split` (like `String.prototype.split` on one character), with the round trip between them.
- `csv_export.dfy`: the export body and its properties. `Row` is the template literal of line 26, `Rows` is the `.map` over `recent_activity`, and `ExportBody` is the body built by lines 24-27.
- `insights_handler.dfy`: the `/insights` handler as in-place assignment to the parsed object. `GetInsights` takes the stored document as a value and applies the override to a fresh `ParsedInsights` built from it, so the stored document is never changed. The file also holds `InsightsExample`, a one-record document with a January 2024 range, overridden with and without `from=2024-02-01`. It also holds the lemma that the export does not read `range`.

The line-count property holds only when no field contains a newline. The fields are emitted unescaped, so a newline inside a title adds a line (`CsvExport.NewlineInTitleAddsLine`). Likewise, a comma inside a title adds a column (`CsvExport.CommaInTitleAddsField`). The model follows the code here, and `CsvExport.ExportLines` carries that condition as its `requires`. The source neither quotes nor escapes fields, and the model keeps that behaviour.

## Model

| member | source | states |
|---|---|---|
| RangeOverride.NewRange | mock-server/index.js:16 | each bound of the new range is its truthy parameter or else the stored bound; the new range has exactly the keys `from` and `to` |
| RangeOverride.WithRange | mock-server/index.js:16 | after the assignment each bound follows its own parameter, the range has no extra keys, and `recent_activity` and the other top-level keys are unchanged |
| RangeOverride.FromBound | mock-server/index.js:12-16 | a non-empty supplied `from` becomes `range.from`; an absent or empty `from` keeps the stored `range.from` |
| RangeOverride.ToBound | mock-server/index.js:13-16 | a non-empty supplied `to` becomes `range.to`; an absent or empty `to` keeps the stored `range.to` |
| RangeOverride.BoundsIndependent | mock-server/index.js:16 | `range.from` does not depend on `to`, and `range.to` does not depend on `from` |
| RangeOverride.OnlyRangeChanges | mock-server/index.js:16-17 | the result is the original document with only `range` replaced; the top-level key set is the same; well-formedness is kept |
| RangeOverride.ExtraRangeKeysDropped | mock-server/index.js:16 | the new range's keys are exactly `from` and `to`; the keys lost are exactly the stored range's extra keys |
| RangeOverride.Idempotent | mock-server/index.js:16 | applying the override twice with the same parameters equals applying it once |
| RangeOverride.NoParametersKeepsBounds | mock-server/index.js:11-17 | with no parameters both bounds are kept and only extra range keys are lost; a two-key range makes the whole document unchanged |
| Handlers.ParsedInsights.constructor | mock-server/index.js:15 | the parsed object represents the stored document |
| Handlers.ParsedInsights.OverrideRange | mock-server/index.js:16 | assigning `obj.range` turns the object's value into `WithRange` of the old value and changes neither `recent_activity` nor the other keys |
| Handlers.GetInsights | mock-server/index.js:11-18 | the `/insights` body is the stored document with the range override applied; records and other keys pass through |
| Handlers.ExportIgnoresRange | mock-server/index.js:24-27 | the export does not read `range`, so exporting an overridden document gives the stored document's body |
| Handlers.InsightsExample | mock-server/index.js:11-17 | for the one-record 2024-01 document: no parameters leave it unchanged; `from=2024-02-01` moves only the lower bound and keeps the record |
| Strings.JoinSnoc | mock-server/index.js:27 | appending a part to a non-empty list adds exactly one separator before it, so the join is built from the back as JavaScript builds it |
| Strings.SplitJoin | mock-server/index.js:27 | splitting a join on a one-character separator gives back the parts, when no part contains the separator |
| CsvExport.Fields | mock-server/index.js:26 | a record exports as many fields as the header has columns |
| CsvExport.Rows | mock-server/index.js:26 | one row per record, in record order; row `i` is the row of record `i` |
| CsvExport.RowIsTemplate | mock-server/index.js:26 | a row is `id,date,title,category,type,amount` of its record, with commas between fields |
| CsvExport.HeaderIsColumns | mock-server/index.js:25 | the header is the six column names joined by commas |
| CsvExport.HeaderSplits | mock-server/index.js:25 | the header splits on commas into exactly the six column names |
| CsvExport.BodyIsHeaderThenRows | mock-server/index.js:24-27 | the body is the header followed by a newline and a row for each record, in order |
| CsvExport.EmptyExportIsHeader | mock-server/index.js:24-27 | with no records the body is exactly the header |
| CsvExport.OneRecordBody | mock-server/index.js:24-27 | with one record the body is the header, one newline and that record's row |
| CsvExport.ExportLines | mock-server/index.js:24-27 | when no field contains a newline, the body splits into `1 + \|recent_activity\|` lines: the header first, then the row of record `i-1` as line `i` |
| CsvExport.RowFields | mock-server/index.js:26 | when no field contains a comma, a row splits on commas into exactly the record's six fields |
| CsvExport.TrailingNewline | mock-server/index.js:24-27 | the body ends with a newline exactly when the last record's amount does; it never does when no field contains a newline |
| CsvExport.OnlyExportedFieldsMatter | mock-server/index.js:24-27 | documents whose records agree on the six exported fields produce the same body, whatever their range, other keys and extra record keys |
| CsvExport.CommaInTitleAddsField | mock-server/index.js:26 | a comma inside a title is not escaped: that row splits into seven comma-separated fields |
| CsvExport.NewlineInTitleAddsLine | mock-server/index.js:24-27 | a newline inside the title of a single record is not escaped: the body splits into three lines instead of two |
| CsvExport.SingleRecordExample | mock-server/index.js:24-27 | the one-record 2024-01 document exports the header, a newline and `1,2024-01-05,Coffee,Food,debit,4.5` |

## Left out

- Express routing, the `cors()` middleware, `app.listen`, the `PORT` environment lookup and console logging (lines 1-7, 33-34): framework and process plumbing.
- `fs.readFileSync` and `JSON.parse` (lines 9, 14-15, 22-23): file I/O and a foreign parser. Each handler instead starts from an already-parsed `Document`. A missing or unreadable file, or malformed JSON, makes the real handler throw. That error path is not modelled.
- `Document` always holds a `range` record with two string bounds and a sequence of records, so documents of any other shape are excluded by construction. This leaves out the following behaviours.
  - A missing or `null` `range` makes `/insights` throw at line 16 only when `from` or `to` is absent or empty. When both are non-empty, `||` short-circuits, `obj.range` is never read, and the handler adds a fresh `range` holding the two parameters.
  - A `range` that is a non-null primitive, such as a string, does not throw either. Its missing bounds read as `undefined`.
  - A missing, `null` or non-array `recent_activity`, or a `null` entry in it, makes the export throw at line 26.
  - `/insights` also serves a document without `recent_activity`, returning it unchanged apart from `range`. The export also serves a document without `range`.
  - None of these documents can be expressed in the model.
- `res.json`, `res.setHeader` and `res.send` (lines 17, 28-30): response I/O. The `Content-Type: text/csv` and `Content-Disposition` headers are constants and are not modelled.
- JSON serialisation of the response: key order is not modelled, because the document's pass-through keys are a map. The `JSON.parse` to `res.json` round trip (lines 15, 17) also rewrites number text (`1.0` becomes `1`) and drops whitespace. `JNumber` keeps the stored text, so with no parameters the `/insights` body equals the stored document as a value, not byte for byte.
- JavaScript value-to-text coercion in the template literal (line 26), including float formatting of `amount`: every record field is taken as already-rendered text.
- A stored `range.from` or `range.to` that is not a string is not modelled: both bounds are strings.
- Express query parsing edge cases, such as a repeated parameter becoming an array: library behaviour. Each parameter is either absent or one string.
