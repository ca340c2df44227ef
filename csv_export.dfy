/**
 * The body of the `/api/insights/export` response: the literal header row,
 * then, for every record of `recent_activity` in order, its six fields joined
 * by commas; rows are joined by a newline with none at the end. Fields are
 * neither quoted nor escaped.
 */
module CsvExport {
  import opened Strings
  import opened InsightsData

  /** The header row, exactly as written in the handler. */
  const Header: string := "id,date,title,category,type,amount"

  /** The column names the header lists, in order. */
  const Columns: seq<string> := ["id", "date", "title", "category", "type", "amount"]

  /** The exported fields of a record, in column order. */
  function Fields(a: Activity): (f: seq<string>)
    ensures |f| == |Columns|
  {
    [a.id, a.date, a.title, a.category, a.kind, a.amount]
  }

  /** The template literal `${a.id},${a.date},${a.title},${a.category},${a.type},${a.amount}`. */
  function Row(a: Activity): string {
    Join(Fields(a), ",")
  }

  /** `recent_activity.map(row)`. */
  function Rows(acts: seq<Activity>): (rows: seq<string>)
    ensures |rows| == |acts|
    ensures forall i :: 0 <= i < |acts| ==> rows[i] == Row(acts[i])
  {
    if |acts| == 0 then [] else [Row(acts[0])] + Rows(acts[1..])
  }

  /** `[header, ...rows].join('\n')`. */
  function ExportBody(d: Document): string {
    Join([Header] + Rows(d.recentActivity), "\n")
  }

  /**
   * An independent description of the body: the header, followed by a
   * newline and a row for each record, in order.
   */
  function HeaderThenRows(acts: seq<Activity>): string {
    if |acts| == 0 then Header
    else HeaderThenRows(acts[..|acts| - 1]) + "\n" + Row(acts[|acts| - 1])
  }

  /** No exported field of the record contains `c`. */
  predicate RecordAvoids(a: Activity, c: char) {
    forall k :: 0 <= k < |Fields(a)| ==> c !in Fields(a)[k]
  }

  /** No exported field of any record contains `c`. */
  predicate FieldsAvoid(acts: seq<Activity>, c: char) {
    forall i :: 0 <= i < |acts| ==> RecordAvoids(acts[i], c)
  }

  /** `s` ends with a newline character. */
  predicate EndsWithNewline(s: string) {
    |s| > 0 && s[|s| - 1] == '\n'
  }

  /** A row is the record's six fields written out with a comma between each pair. */
  lemma RowIsTemplate(a: Activity)
    ensures Row(a) == a.id + "," + a.date + "," + a.title + "," + a.category + "," + a.kind + "," + a.amount
  {
    JoinSix(Fields(a), ",");
  }

  /** The literal header is the column names joined by commas. */
  lemma HeaderIsColumns()
    ensures Header == Join(Columns, ",")
  {
    assert Header == "id" + "," + "date" + "," + "title" + "," + "category" + "," + "type" + "," + "amount";
    JoinSix(Columns, ",");
  }

  /** The header splits on commas into exactly the six column names. */
  lemma HeaderSplits()
    ensures Split(Header, ',') == Columns
  {
    HeaderIsColumns();
    assert forall k :: 0 <= k < |Columns| ==> ',' !in Columns[k];
    SplitJoin(Columns, ',');
  }

  /** The rows of a non-empty list are the rows of all but the last record, then the last record's row. */
  lemma {:induction false} RowsSnoc(acts: seq<Activity>)
    requires |acts| >= 1
    ensures Rows(acts) == Rows(acts[..|acts| - 1]) + [Row(acts[|acts| - 1])]
  {
  }

  /** The join of the header and the rows agrees with the header-then-rows description, by induction on the records. */
  lemma {:induction false} BodyMatches(acts: seq<Activity>)
    ensures Join([Header] + Rows(acts), "\n") == HeaderThenRows(acts)
  {
    if |acts| > 0 {
      var init := acts[..|acts| - 1];
      BodyMatches(init);
      RowsSnoc(acts);
      assert [Header] + Rows(acts) == ([Header] + Rows(init)) + [Row(acts[|acts| - 1])];
      JoinSnoc([Header] + Rows(init), "\n", Row(acts[|acts| - 1]));
    }
  }

  /** The body is the header followed by one newline-prefixed row per record, in record order. */
  lemma BodyIsHeaderThenRows(d: Document)
    ensures ExportBody(d) == HeaderThenRows(d.recentActivity)
  {
    BodyMatches(d.recentActivity);
  }

  /** With no records the body is exactly the header. */
  lemma EmptyExportIsHeader(d: Document)
    requires |d.recentActivity| == 0
    ensures ExportBody(d) == Header
  {
  }

  /**
   * When no field contains a newline, splitting the body on newlines gives
   * exactly one header line and one line per record, in record order.
   */
  lemma ExportLines(d: Document)
    requires FieldsAvoid(d.recentActivity, '\n')
    ensures |Split(ExportBody(d), '\n')| == 1 + |d.recentActivity|
    ensures Split(ExportBody(d), '\n')[0] == Header
    ensures forall i :: 1 <= i <= |d.recentActivity| ==>
              Split(ExportBody(d), '\n')[i] == Row(d.recentActivity[i - 1])
  {
    var lines := [Header] + Rows(d.recentActivity);
    forall k | 0 <= k < |lines| ensures '\n' !in lines[k] {
      if k > 0 {
        assert RecordAvoids(d.recentActivity[k - 1], '\n');
        JoinContains(Fields(d.recentActivity[k - 1]), ",", '\n');
      }
    }
    SplitJoin(lines, '\n');
  }

  /** When no field contains a comma, the row splits on commas into exactly the six fields of its record. */
  lemma RowFields(a: Activity)
    requires RecordAvoids(a, ',')
    ensures |Split(Row(a), ',')| == 6
    ensures Split(Row(a), ',') == Fields(a)
  {
    SplitJoin(Fields(a), ',');
  }

  /** Whatever precedes a comma, the string ends with a newline exactly when the part after the comma does. */
  lemma EndsWithNewlineAfterComma(s: string, t: string)
    ensures EndsWithNewline(s + "," + t) <==> EndsWithNewline(t)
  {
    if |t| > 0 {
      assert (s + "," + t)[|s + "," + t| - 1] == t[|t| - 1];
    }
  }

  /**
   * The body ends with a newline exactly when the last record's amount does;
   * in particular it has no trailing newline when no field contains one.
   */
  lemma TrailingNewline(d: Document)
    ensures EndsWithNewline(ExportBody(d)) <==>
              |d.recentActivity| > 0 && EndsWithNewline(d.recentActivity[|d.recentActivity| - 1].amount)
    ensures FieldsAvoid(d.recentActivity, '\n') ==> !EndsWithNewline(ExportBody(d))
  {
    var acts := d.recentActivity;
    BodyIsHeaderThenRows(d);
    if |acts| > 0 {
      var last := acts[|acts| - 1];
      RowIsTemplate(last);
      var s := HeaderThenRows(acts[..|acts| - 1]) + "\n" + last.id + "," + last.date + "," + last.title
               + "," + last.category + "," + last.kind;
      assert ExportBody(d) == s + "," + last.amount;
      EndsWithNewlineAfterComma(s, last.amount);
      if FieldsAvoid(acts, '\n') {
        assert RecordAvoids(last, '\n');
        assert Fields(last)[5] == last.amount;
      }
    }
  }

  /** Only the six exported fields of each record matter: the range, the other keys and extra record keys do not. */
  lemma OnlyExportedFieldsMatter(d1: Document, d2: Document)
    requires |d1.recentActivity| == |d2.recentActivity|
    requires forall i :: 0 <= i < |d1.recentActivity| ==>
               Fields(d1.recentActivity[i]) == Fields(d2.recentActivity[i])
    ensures ExportBody(d1) == ExportBody(d2)
  {
    assert Rows(d1.recentActivity) == Rows(d2.recentActivity);
  }

  /** A comma inside a title is not escaped: that row splits on commas into seven fields, not six. */
  lemma CommaInTitleAddsField(a: Activity, x: string, y: string)
    requires a.title == x + "," + y
    requires ',' !in x && ',' !in y
    requires ',' !in a.id && ',' !in a.date && ',' !in a.category && ',' !in a.kind && ',' !in a.amount
    ensures Split(Row(a), ',') == [a.id, a.date, x, y, a.category, a.kind, a.amount]
    ensures |Split(Row(a), ',')| == 7
  {
    assert Fields(a) == [a.id, a.date] + [x + "," + y] + [a.category, a.kind, a.amount];
    JoinSplice([a.id, a.date], x, y, [a.category, a.kind, a.amount], ",");
    assert [a.id, a.date] + [x, y] + [a.category, a.kind, a.amount] == [a.id, a.date, x, y, a.category, a.kind, a.amount];
    SplitJoin([a.id, a.date, x, y, a.category, a.kind, a.amount], ',');
  }

  /** A newline inside a title is not escaped: a one-record body then splits into three lines, not two. */
  lemma NewlineInTitleAddsLine(d: Document, x: string, y: string)
    requires |d.recentActivity| == 1
    requires d.recentActivity[0].title == x + "\n" + y
    requires '\n' !in x && '\n' !in y
    requires var a := d.recentActivity[0];
             '\n' !in a.id && '\n' !in a.date && '\n' !in a.category && '\n' !in a.kind && '\n' !in a.amount
    ensures |Split(ExportBody(d), '\n')| == 2 + |d.recentActivity|
  {
    var a := d.recentActivity[0];
    RowIsTemplate(a);
    var p := a.id + "," + a.date + "," + x;
    var q := y + "," + a.category + "," + a.kind + "," + a.amount;
    assert Row(a) == p + "\n" + q;
    assert [Header] + Rows(d.recentActivity) == [Header, Row(a)];
    JoinCons(Header, [Row(a)], "\n");
    JoinSplice([Header], p, q, [], "\n");
    assert [Header] + [p + "\n" + q] + [] == [Header, Row(a)];
    assert [Header] + [p, q] + [] == [Header, p, q];
    SplitJoin([Header, p, q], '\n');
  }

  /** A document with one record exports the header, one newline and that record's row. */
  lemma OneRecordBody(d: Document)
    requires |d.recentActivity| == 1
    ensures ExportBody(d) == Header + "\n" + Row(d.recentActivity[0])
  {
    assert Rows(d.recentActivity) == [Row(d.recentActivity[0])];
    JoinCons(Header, [Row(d.recentActivity[0])], "\n");
  }

  /** Example: one record `1, 2024-01-05, Coffee, Food, debit, 4.5` exports the header line, a newline, and `1,2024-01-05,Coffee,Food,debit,4.5`. */
  lemma SingleRecordExample(d: Document)
    requires |d.recentActivity| == 1
    requires Fields(d.recentActivity[0]) == ["1", "2024-01-05", "Coffee", "Food", "debit", "4.5"]
    ensures ExportBody(d) == Header + "\n" + "1,2024-01-05,Coffee,Food,debit,4.5"
  {
    var row := "1,2024-01-05,Coffee,Food,debit,4.5";
    assert ExportBody(d) == Header + "\n" + row by {
      assert Row(d.recentActivity[0]) == row by {
        RowIsTemplate(d.recentActivity[0]);
      }
      OneRecordBody(d);
    }
  }
}
