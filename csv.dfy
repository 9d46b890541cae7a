/**
 * The drill-down's CSV export: a header line with the first row's column
 * names, then one line per row; a field holding a comma, a double quote or a
 * line feed is wrapped in double quotes with its quotes doubled (section 2 of
 * RFC 4180), and lines end with `\n` rather than the RFC's CRLF.
 */
module Csv {
  import opened Wrappers
  import opened Js
  import opened Quoting

  /** `s.includes(',') || s.includes('"') || s.includes('\n')`. */
  predicate NeedsQuoting(s: string) {
    ',' in s || '"' in s || '\n' in s
  }

  /** A field's text as written to the file. */
  function QuoteField(s: string): string {
    if NeedsQuoting(s) then "\"" + Doubled(s, '"') + "\"" else s
  }

  /** The text of a cell: empty for `null` or `undefined`, `String(value)` otherwise. */
  function CellText(v: Value): string {
    if v == Null || v == Undefined then "" else ToString(v)
  }

  /** The field written for one cell. */
  function Field(v: Value): string {
    if v == Null || v == Undefined then "" else QuoteField(ToString(v))
  }

  /** One data line: the row's fields under the given headers, joined by `,`. */
  function Record(row: Obj, headers: seq<string>): string {
    Join(seq(|headers|, j requires 0 <= j < |headers| => Field(Get(row, headers[j]))), ",")
  }

  /** The data lines, one per row, in order. */
  function Records(data: seq<Obj>, headers: seq<string>): (r: seq<string>)
    ensures |r| == |data|
    ensures forall i :: 0 <= i < |data| ==> r[i] == Record(data[i], headers)
  {
    seq(|data|, i requires 0 <= i < |data| => Record(data[i], headers))
  }

  /**
   * `exportToCSV`'s file content: nothing for an empty rowset; otherwise the
   * first row's keys joined by `,` (unquoted), then every row under those
   * headers, the lines joined by `\n`.
   */
  function ExportToCsv(data: seq<Obj>): (r: Option<string>)
    ensures r.None? <==> data == []
  {
    if data == [] then None
    else
      var headers := Keys(data[0]);
      Some(Join([Join(headers, ",")] + Records(data, headers), "\n"))
  }

  // A reader for the format, to state what the writer promises.

  /** An unquoted field: everything up to the next `,`, line feed or the end. */
  function ReadPlainField(t: string): (r: (string, string))
    ensures |r.1| <= |t|
  {
    if t == [] || t[0] == ',' || t[0] == '\n' then ("", t)
    else
      var (f, rest) := ReadPlainField(t[1..]);
      ([t[0]] + f, rest)
  }

  /** A field: quoted when it starts with `"`, plain otherwise. */
  function ReadField(t: string): (r: Option<(string, string)>)
    ensures r.Some? ==> |r.value.1| <= |t|
  {
    if t != [] && t[0] == '"' then ReadDoubled(t[1..], '"') else Some(ReadPlainField(t))
  }

  /** A line: fields separated by `,`, up to a line feed or the end. */
  function ReadRecord(t: string): (r: Option<(seq<string>, string)>)
    ensures r.Some? ==> |r.value.1| <= |t|
    decreases |t|
  {
    match ReadField(t)
    case None => None
    case Some((f, rest)) =>
      if rest != [] && rest[0] == ',' then
        match ReadRecord(rest[1..])
        case None => None
        case Some((fs, rest')) => Some(([f] + fs, rest'))
      else Some(([f], rest))
  }

  /** A file: lines separated by line feeds; anything else after a line is an error. */
  function ReadDocument(t: string): Option<seq<seq<string>>>
    decreases |t|
  {
    match ReadRecord(t)
    case None => None
    case Some((rec, rest)) =>
      if rest == [] then Some([rec])
      else if rest[0] == '\n' then
        match ReadDocument(rest[1..])
        case None => None
        case Some(recs) => Some([rec] + recs)
      else None
  }

  /** A field boundary: the end, a `,` or a line feed. */
  predicate AtBoundary(rest: string) {
    rest == [] || rest[0] == ',' || rest[0] == '\n'
  }

  lemma {:induction false} PlainRoundTrip(s: string, rest: string)
    requires !NeedsQuoting(s) && AtBoundary(rest)
    ensures ReadPlainField(s + rest) == (s, rest)
    decreases |s|
  {
    if s == [] {
      assert s + rest == rest;
    } else {
      assert s[0] in s;
      assert (s + rest)[1..] == s[1..] + rest;
      assert !NeedsQuoting(s[1..]) by {
        assert forall c :: c in s[1..] ==> c in s;
      }
      PlainRoundTrip(s[1..], rest);
      assert [s[0]] + s[1..] == s;
    }
  }

  /** Every field reads back as its text, and the reader stops at the boundary after it. */
  lemma {:induction false} FieldRoundTrip(s: string, rest: string)
    requires AtBoundary(rest)
    ensures ReadField(QuoteField(s) + rest) == Some((s, rest))
  {
    if NeedsQuoting(s) {
      QuotedFieldRoundTrip(s, rest);
    } else {
      PlainRoundTrip(s, rest);
      if s != [] {
        assert s[0] in s;
      }
    }
  }

  /** A quoted field reads back through its doubled quotes. */
  lemma {:induction false} QuotedFieldRoundTrip(s: string, rest: string)
    requires NeedsQuoting(s) && AtBoundary(rest)
    ensures ReadField(QuoteField(s) + rest) == Some((s, rest))
  {
    var body := Doubled(s, '"') + ['"'] + rest;
    ReadDoubledRoundTrip(s, '"', rest);
    var t := QuoteField(s) + rest;
    assert t == ['"'] + body;
    assert t[1..] == body;
  }

  /** The fields of one line as written. */
  function QuoteAll(cells: seq<string>): (r: seq<string>)
    ensures |r| == |cells|
    ensures forall i :: 0 <= i < |cells| ==> r[i] == QuoteField(cells[i])
  {
    seq(|cells|, i requires 0 <= i < |cells| => QuoteField(cells[i]))
  }

  /** A line of at least one field reads back as its cells, up to the line feed or the end. */
  lemma {:induction false} RecordRoundTrip(cells: seq<string>, rest: string)
    requires |cells| >= 1 && (rest == [] || rest[0] == '\n')
    ensures ReadRecord(Join(QuoteAll(cells), ",") + rest) == Some((cells, rest))
    decreases |cells|
  {
    var qs := QuoteAll(cells);
    if |cells| == 1 {
      FieldRoundTrip(cells[0], rest);
      assert Join(qs, ",") == QuoteField(cells[0]);
      assert [cells[0]] == cells;
    } else {
      var f := QuoteField(cells[0]);
      var tail := Join(QuoteAll(cells[1..]), ",") + rest;
      assert Join(qs, ",") + rest == f + ("," + tail) by {
        assert qs[1..] == QuoteAll(cells[1..]);
        assert Join(qs, ",") == qs[0] + "," + Join(qs[1..], ",");
      }
      assert ReadField(f + ("," + tail)) == Some((cells[0], "," + tail)) by {
        FieldRoundTrip(cells[0], "," + tail);
      }
      assert ReadRecord(tail) == Some((cells[1..], rest)) by {
        RecordRoundTrip(cells[1..], rest);
      }
      assert ("," + tail)[1..] == tail;
      assert [cells[0]] + cells[1..] == cells;
    }
  }

  /** The lines of a file as written. */
  function Lines(recs: seq<seq<string>>): (r: seq<string>)
    ensures |r| == |recs|
    ensures forall i :: 0 <= i < |recs| ==> r[i] == Join(QuoteAll(recs[i]), ",")
  {
    seq(|recs|, i requires 0 <= i < |recs| => Join(QuoteAll(recs[i]), ","))
  }

  /** A file of lines with at least one field each reads back as its lines. */
  lemma {:induction false} DocumentRoundTrip(recs: seq<seq<string>>)
    requires |recs| >= 1 && forall i :: 0 <= i < |recs| ==> |recs[i]| >= 1
    ensures ReadDocument(Join(Lines(recs), "\n")) == Some(recs)
    decreases |recs|
  {
    var ls := Lines(recs);
    if |recs| == 1 {
      RecordRoundTrip(recs[0], "");
      assert Join(ls, "\n") == Join(QuoteAll(recs[0]), ",") + "";
      assert [recs[0]] == recs;
    } else {
      var tail := Join(Lines(recs[1..]), "\n");
      assert ls[1..] == Lines(recs[1..]);
      assert Join(ls, "\n") == Join(QuoteAll(recs[0]), ",") + ("\n" + tail);
      RecordRoundTrip(recs[0], "\n" + tail);
      assert ("\n" + tail)[1..] == tail;
      DocumentRoundTrip(recs[1..]);
      assert [recs[0]] + recs[1..] == recs;
    }
  }

  /** The cells of a row under the headers: the values' texts, empty where a value is missing. */
  function Cells(row: Obj, headers: seq<string>): (r: seq<string>)
    ensures |r| == |headers|
    ensures forall j :: 0 <= j < |headers| ==> r[j] == CellText(Get(row, headers[j]))
  {
    seq(|headers|, j requires 0 <= j < |headers| => CellText(Get(row, headers[j])))
  }

  /** Every row's cells under the headers, in order. */
  function AllCells(data: seq<Obj>, headers: seq<string>): (r: seq<seq<string>>)
    ensures |r| == |data|
    ensures forall i :: 0 <= i < |data| ==> r[i] == Cells(data[i], headers)
  {
    seq(|data|, i requires 0 <= i < |data| => Cells(data[i], headers))
  }

  /** An empty rowset exports nothing. */
  lemma {:induction false} EmptyExportsNothing()
    ensures ExportToCsv([]) == None
  {
  }

  /** A data line is the row's cells, each written as a field. */
  lemma {:induction false} RecordIsQuotedCells(row: Obj, headers: seq<string>)
    ensures Record(row, headers) == Join(QuoteAll(Cells(row, headers)), ",")
  {
    assert QuoteAll(Cells(row, headers))
        == seq(|headers|, j requires 0 <= j < |headers| => Field(Get(row, headers[j])));
  }

  /** The data lines are the lines of the rows' cells. */
  lemma {:induction false} RecordsAreLines(data: seq<Obj>, headers: seq<string>)
    ensures Records(data, headers) == Lines(AllCells(data, headers))
  {
    forall i | 0 <= i < |data|
      ensures Records(data, headers)[i] == Lines(AllCells(data, headers))[i]
    {
      RecordIsQuotedCells(data[i], headers);
    }
  }

  lemma {:induction false} LinesCons(r: seq<string>, recs: seq<seq<string>>)
    ensures Lines([r] + recs) == [Join(QuoteAll(r), ",")] + Lines(recs)
  {
  }

  /** The lines `exportToCSV` joins, as the lines of the header and the rows' cells. */
  lemma {:induction false} ExportLines(data: seq<Obj>, headers: seq<string>)
    requires QuoteAll(headers) == headers
    ensures [Join(headers, ",")] + Records(data, headers) == Lines([headers] + AllCells(data, headers))
  {
    RecordsAreLines(data, headers);
    LinesCons(headers, AllCells(data, headers));
  }

  /**
   * For a non-empty rowset whose first row has column names needing no
   * quotes, the file reads back as the header line followed by one line per
   * row holding exactly that row's cells under the first row's columns.
   */
  lemma {:induction false} ExportRoundTrip(data: seq<Obj>)
    requires data != [] && |data[0]| >= 1
    requires forall j :: 0 <= j < |data[0]| ==> !NeedsQuoting(data[0][j].0)
    ensures var headers := Keys(data[0]);
            ReadDocument(ExportToCsv(data).value) == Some([headers] + AllCells(data, headers))
  {
    var headers := Keys(data[0]);
    var recs := [headers] + AllCells(data, headers);
    assert QuoteAll(headers) == headers;
    ExportLines(data, headers);
    DocumentRoundTrip(recs);
  }

  /**
   * A first row without keys gives no columns: every line of the file is
   * empty, and each reads back as one empty cell instead of no cells.
   */
  lemma {:induction false} KeylessFirstRowReadsAsEmptyCells(data: seq<Obj>)
    requires data != [] && data[0] == []
    ensures ReadDocument(ExportToCsv(data).value) == Some(seq(|data| + 1, _ => [""]))
  {
    var recs: seq<seq<string>> := seq(|data| + 1, _ => [""]);
    assert QuoteAll([""]) == [""];
    assert Join([""], ",") == "";
    assert [Join([], ",")] + Records(data, []) == Lines(recs);
    DocumentRoundTrip(recs);
  }

  /**
   * Column names are written without quotes: a single column whose name is
   * `x,y` reads back as the two columns `x` and `y`.
   */
  lemma {:induction false} HeaderWithCommaSplits(x: string, y: string)
    requires !NeedsQuoting(x) && !NeedsQuoting(y)
    ensures ReadRecord(Join([x + "," + y], ",")) == Some(([x, y], ""))
  {
    var t := x + "," + y;
    assert Join([t], ",") == t;
    assert t == x + ("," + y);
    PlainRoundTrip(x, "," + y);
    assert ReadField(t) == Some((x, "," + y)) by {
      if x != [] {
        assert x[0] in x;
      }
    }
    assert ("," + y)[1..] == y;
    PlainRoundTrip(y, "");
    assert y + "" == y;
    assert ReadField(y) == Some((y, "")) by {
      if y != [] {
        assert y[0] in y;
      }
    }
    assert ReadRecord(y) == Some(([y], ""));
    assert ReadRecord(t) == Some(([x] + [y], ""));
    assert [x] + [y] == [x, y];
  }
}
