/**
 * The text `exportToCSV` builds: every cell wrapped in `"` with each embedded `"` doubled (rules 5-7 of
 * section 2 of RFC 4180), cells joined by `,`, records joined by `\n` (not CRLF), and an unquoted header
 * line first. A reader for the quoted records shows that nothing is lost.
 */
module Csv {
  import opened Wrappers

  /** `value.replace(/"/g, '""')`. */
  function Escape(s: string): (r: string)
    ensures |r| >= |s|
  {
    if s == [] then [] else (if s[0] == '"' then "\"\"" else [s[0]]) + Escape(s[1..])
  }

  /** One quoted cell: `"${escaped}"`. */
  function QuoteField(s: string): string
  {
    "\"" + Escape(s) + "\""
  }

  /** `parts.join(sep)`. */
  function Join(parts: seq<string>, sep: char): string
  {
    if parts == [] then [] else if |parts| == 1 then parts[0] else parts[0] + [sep] + Join(parts[1..], sep)
  }

  /** Each cell of a record, quoted. */
  function QuoteAll(cells: seq<string>): (r: seq<string>)
    ensures |r| == |cells|
  {
    if cells == [] then [] else [QuoteField(cells[0])] + QuoteAll(cells[1..])
  }

  /** One record line: the quoted cells joined by `,`. */
  function RecordLine(cells: seq<string>): string
  {
    Join(QuoteAll(cells), ',')
  }

  /** The record lines of all rows. */
  function RecordLines(rows: seq<seq<string>>): (r: seq<string>)
    ensures |r| == |rows|
  {
    if rows == [] then [] else [RecordLine(rows[0])] + RecordLines(rows[1..])
  }

  /** `${headers}\n${rows}`: the header line, a newline, and the record lines joined by `\n`. */
  function CsvText(columns: seq<string>, rows: seq<seq<string>>): string
  {
    Join(columns, ',') + "\n" + Join(RecordLines(rows), '\n')
  }

  // ---------------------------------------------------------------------------------------------
  // Reading the records back
  // ---------------------------------------------------------------------------------------------

  /**
   * Reads the inside of a quoted cell up to its closing quote: `""` stands for one `"`, a lone `"`
   * ends the cell. Gives the cell's value and the text after the closing quote.
   */
  function ParseQuoted(s: string): (r: Option<(string, string)>)
    ensures r.Some? ==> |r.value.1| < |s|
  {
    if s == [] then None
    else if s[0] == '"' then
      if |s| >= 2 && s[1] == '"' then
        match ParseQuoted(s[2..])
        case None => None
        case Some(p) => Some(("\"" + p.0, p.1))
      else Some(([], s[1..]))
    else
      match ParseQuoted(s[1..])
      case None => None
      case Some(p) => Some(([s[0]] + p.0, p.1))
  }

  /** Reads one record: quoted cells separated by `,`; gives the cells and the text after the record. */
  function ParseRecord(s: string): (r: Option<(seq<string>, string)>)
    ensures r.Some? ==> |r.value.1| < |s|
    decreases |s|
  {
    if s == [] || s[0] != '"' then None
    else
      match ParseQuoted(s[1..])
      case None => None
      case Some(p) =>
        var (v, rest) := p;
        if rest != [] && rest[0] == ',' then
          match ParseRecord(rest[1..])
          case None => None
          case Some(q) => Some(([v] + q.0, q.1))
        else Some(([v], rest))
  }

  /** Reads records separated by `\n` up to the end of the text. */
  function ParseRecords(s: string): Option<seq<seq<string>>>
    decreases |s|
  {
    if s == [] then Some([])
    else
      match ParseRecord(s)
      case None => None
      case Some(p) =>
        var (cells, rest) := p;
        if rest == [] then Some([cells])
        else if rest[0] == '\n' then
          match ParseRecords(rest[1..])
          case None => None
          case Some(more) => Some([cells] + more)
        else None
  }

  /** An escaped value followed by the closing quote reads back as the value. */
  lemma {:induction false} ParseEscaped(v: string, rest: string)
    requires rest == [] || rest[0] != '"'
    ensures ParseQuoted(Escape(v) + "\"" + rest) == Some((v, rest))
  {
    var s := Escape(v) + "\"" + rest;
    if v == [] {
      assert s == "\"" + rest;
      assert s[1..] == rest;
    } else {
      ParseEscaped(v[1..], rest);
      if v[0] == '"' {
        assert s == "\"\"" + (Escape(v[1..]) + "\"" + rest);
        assert s[2..] == Escape(v[1..]) + "\"" + rest;
        assert "\"" + v[1..] == v;
      } else {
        assert s == [v[0]] + (Escape(v[1..]) + "\"" + rest);
        assert s[1..] == Escape(v[1..]) + "\"" + rest;
        assert [v[0]] + v[1..] == v;
      }
    }
  }

  /** A record line is its first quoted cell, then `,` and the line of the other cells when there are any. */
  lemma RecordLineShape(cells: seq<string>)
    requires cells != []
    ensures |cells| == 1 ==> RecordLine(cells) == QuoteField(cells[0])
    ensures |cells| > 1 ==> RecordLine(cells) == QuoteField(cells[0]) + [','] + RecordLine(cells[1..])
  {
    assert QuoteAll(cells)[1..] == QuoteAll(cells[1..]);
  }

  /** A last quoted cell, followed by the end of the text or a newline, reads back as one cell. */
  lemma LastCell(v: string, rest: string)
    requires rest == [] || rest[0] == '\n'
    ensures ParseRecord(QuoteField(v) + rest) == Some(([v], rest))
  {
    var s := QuoteField(v) + rest;
    assert s[1..] == Escape(v) + "\"" + rest;
    ParseEscaped(v, rest);
  }

  /** A quoted cell followed by `,` and a record reads back as that cell in front of the record. */
  lemma CellThenComma(v: string, tail: string, cells: seq<string>, rest: string)
    requires ParseRecord(tail) == Some((cells, rest))
    ensures ParseRecord(QuoteField(v) + [','] + tail) == Some(([v] + cells, rest))
  {
    var s := QuoteField(v) + [','] + tail;
    assert s[1..] == Escape(v) + "\"" + ([','] + tail);
    ParseEscaped(v, [','] + tail);
    assert ([','] + tail)[1..] == tail;
  }

  /** A line of several cells is its first quoted cell, `,`, and the line of the others. */
  lemma ConsLineText(cells: seq<string>, rest: string)
    requires |cells| > 1
    ensures RecordLine(cells) + rest == QuoteField(cells[0]) + [','] + (RecordLine(cells[1..]) + rest)
  {
    RecordLineShape(cells);
  }

  /** A first quoted cell and `,` in front of a text that reads back as the other cells. */
  lemma ConsLineParse(cells: seq<string>, rest: string, tail: string)
    requires |cells| > 1
    requires ParseRecord(tail) == Some((cells[1..], rest))
    ensures ParseRecord(QuoteField(cells[0]) + [','] + tail) == Some((cells, rest))
  {
    CellThenComma(cells[0], tail, cells[1..], rest);
    assert [cells[0]] + cells[1..] == cells;
  }

  /** A record line followed by the end of the text or a newline reads back as its cells. */
  lemma {:induction false} ParseRecordLine(cells: seq<string>, rest: string)
    requires cells != []
    requires rest == [] || rest[0] == '\n'
    ensures ParseRecord(RecordLine(cells) + rest) == Some((cells, rest))
  {
    if |cells| == 1 {
      RecordLineShape(cells);
      LastCell(cells[0], rest);
      assert [cells[0]] == cells;
    } else {
      ParseRecordLine(cells[1..], rest);
      ConsLineText(cells, rest);
      ConsLineParse(cells, rest, RecordLine(cells[1..]) + rest);
    }
  }

  /** Records with at least one cell each: the joined record lines read back as the records. */
  lemma {:induction false} ParseRecordsRoundTrip(rows: seq<seq<string>>)
    requires forall i :: 0 <= i < |rows| ==> rows[i] != []
    ensures ParseRecords(Join(RecordLines(rows), '\n')) == Some(rows)
  {
    if rows != [] {
      var lines := RecordLines(rows);
      assert lines[1..] == RecordLines(rows[1..]);
      if |rows| == 1 {
        assert Join(lines, '\n') == RecordLine(rows[0]) + [];
        ParseRecordLine(rows[0], []);
        assert [rows[0]] == rows;
      } else {
        var tail := Join(RecordLines(rows[1..]), '\n');
        assert Join(lines, '\n') == RecordLine(rows[0]) + (['\n'] + tail);
        ParseRecordLine(rows[0], ['\n'] + tail);
        assert (['\n'] + tail)[1..] == tail;
        ParseRecordsRoundTrip(rows[1..]);
        assert [rows[0]] + rows[1..] == rows;
      }
    }
  }

  /** A quoted cell starts and ends with `"`, and every `"` inside it is one of a doubled pair. */
  lemma {:induction false} QuoteFieldShape(s: string)
    ensures |QuoteField(s)| >= 2 && QuoteField(s)[0] == '"' && QuoteField(s)[|QuoteField(s)| - 1] == '"'
    ensures ParseQuoted(QuoteField(s)[1..]) == Some((s, []))
  {
    assert QuoteField(s)[1..] == Escape(s) + "\"" + [];
    ParseEscaped(s, []);
  }

  /**
   * The exported text is the header line, a newline, and a body that reads back as exactly the
   * rows' cells, whenever there is at least one column.
   */
  lemma CsvTextRoundTrip(columns: seq<string>, rows: seq<seq<string>>)
    requires forall i :: 0 <= i < |rows| ==> rows[i] != []
    ensures var h := Join(columns, ',');
            var text := CsvText(columns, rows);
            |text| > |h| && text[..|h|] == h && text[|h|] == '\n' && ParseRecords(text[|h| + 1..]) == Some(rows)
  {
    var h := Join(columns, ',');
    var text := CsvText(columns, rows);
    assert text[|h| + 1..] == Join(RecordLines(rows), '\n');
    ParseRecordsRoundTrip(rows);
  }
}
