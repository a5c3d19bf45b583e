/** The text of the web reports' CSV export: a header line of the column
    names joined by commas, then one line per row whose cells are each put
    in double quotes and joined by commas, the lines joined by '\n'.
    The export puts a cell between quotes as it is, so a quote inside a
    cell ends the field early. Beside it stands the quoting section 2 of
    RFC 4180 asks for (a quote inside is written twice), and a reader for
    quoted fields shows the difference. */
module Csv {
  import opened Wrappers
  import opened Text
  import Sorting

  /** A cell as the export writes it: the text between two quotes, with any
      quote inside left as it is. */
  function QuotedAsWritten(cell: string): (r: string)
    ensures |r| == |cell| + 2 && r[0] == '"' && r[|r| - 1] == '"' && r[1..|r| - 1] == cell
  {
    "\"" + cell + "\""
  }

  /** One data line as the export writes it: each cell between quotes as
      it is. */
  function LineAsWritten(cells: seq<string>): string {
    Join(Sorting.Map(cells, QuotedAsWritten), ",")
  }

  /** The whole file: the header line, then a line per row. */
  function Content(headers: seq<string>, rows: seq<seq<string>>): string {
    Join([Join(headers, ",")] + Sorting.Map(rows, LineAsWritten), "\n")
  }

  /** Without rows the file is the header line; each further row adds a
      newline and its line at the end. */
  lemma ContentLines(headers: seq<string>, rows: seq<seq<string>>, row: seq<string>)
    ensures Content(headers, []) == Join(headers, ",")
    ensures Content(headers, rows + [row]) == Content(headers, rows) + "\n" + LineAsWritten(row)
  {
    var lines := [Join(headers, ",")] + Sorting.Map(rows, LineAsWritten);
    assert Sorting.Map(rows + [row], LineAsWritten) == Sorting.Map(rows, LineAsWritten) + [LineAsWritten(row)];
    assert [Join(headers, ",")] + Sorting.Map(rows + [row], LineAsWritten) == lines + [LineAsWritten(row)];
    JoinSnoc(lines, LineAsWritten(row), "\n");
    assert [Join(headers, ",")] + Sorting.Map([], LineAsWritten) == [Join(headers, ",")];
  }

  // ---------------------------------------------------------------------------
  // RFC 4180 quoting

  /** Every quote written twice. */
  function Escape(cell: string): (r: string)
    ensures |r| >= |cell|
    ensures (forall i :: 0 <= i < |cell| ==> cell[i] != '"') ==> r == cell
  {
    if |cell| == 0 then ""
    else if cell[0] == '"' then "\"\"" + Escape(cell[1..])
    else [cell[0]] + Escape(cell[1..])
  }

  /** A field quoted as section 2 of RFC 4180 asks. */
  function Quoted(cell: string): (r: string)
    ensures |r| >= 2 && r[0] == '"' && r[|r| - 1] == '"'
  {
    "\"" + Escape(cell) + "\""
  }

  /** Reads the rest of a quoted field after its opening quote: a doubled
      quote is one quote, a lone quote must end the field, and a field that
      never closes is malformed. */
  function ReadQuotedRest(s: string): (r: Option<string>)
    decreases |s|
  {
    if |s| == 0 then None
    else if s[0] == '"' then
      if |s| == 1 then Some("")
      else if s[1] == '"' then
        match ReadQuotedRest(s[2..])
        case None => None
        case Some(t) => Some("\"" + t)
      else None
    else
      match ReadQuotedRest(s[1..])
      case None => None
      case Some(t) => Some([s[0]] + t)
  }

  /** A quoted field read back, or None when it is not a well-formed quoted
      field. */
  function ReadQuoted(field: string): Option<string> {
    if |field| > 0 && field[0] == '"' then ReadQuotedRest(field[1..]) else None
  }

  lemma {:induction false} ReadEscaped(cell: string)
    ensures ReadQuotedRest(Escape(cell) + "\"") == Some(cell)
    decreases |cell|
  {
    if |cell| == 0 {
      assert Escape(cell) + "\"" == "\"";
    } else if cell[0] == '"' {
      ReadEscaped(cell[1..]);
      assert Escape(cell) + "\"" == "\"\"" + (Escape(cell[1..]) + "\"");
      assert (Escape(cell) + "\"")[2..] == Escape(cell[1..]) + "\"";
      assert cell == "\"" + cell[1..];
    } else {
      ReadEscaped(cell[1..]);
      assert Escape(cell) + "\"" == [cell[0]] + (Escape(cell[1..]) + "\"");
      assert (Escape(cell) + "\"")[1..] == Escape(cell[1..]) + "\"";
      assert cell == [cell[0]] + cell[1..];
    }
  }

  /** Text without quotes is read through as it is. */
  lemma {:induction false} ReadPlainPrefix(p: string, s: string)
    requires forall i :: 0 <= i < |p| ==> p[i] != '"'
    ensures ReadQuotedRest(p + s) == if ReadQuotedRest(s).None? then None else Some(p + ReadQuotedRest(s).value)
    decreases |p|
  {
    if |p| == 0 {
      assert p + s == s;
      if ReadQuotedRest(s).Some? {
        assert p + ReadQuotedRest(s).value == ReadQuotedRest(s).value;
      }
    } else {
      ReadPlainPrefix(p[1..], s);
      var w := p + s;
      assert w[0] == p[0] && w[0] != '"' && |w| > 0;
      assert w[1..] == p[1..] + s;
      assert ReadQuotedRest(w) == match ReadQuotedRest(w[1..]) case None => None case Some(t) => Some([w[0]] + t);
      if ReadQuotedRest(s).Some? {
        var t := ReadQuotedRest(s).value;
        assert ReadQuotedRest(w[1..]) == Some(p[1..] + t);
        assert [p[0]] + (p[1..] + t) == p + t;
      }
    }
  }

  /** RFC 4180 quoting reads back as the cell, for every cell. */
  lemma QuotedRoundTrip(cell: string)
    ensures ReadQuoted(Quoted(cell)) == Some(cell)
  {
    ReadEscaped(cell);
    assert Quoted(cell)[1..] == Escape(cell) + "\"";
  }

  /** The export's quoting agrees with RFC 4180 on every cell without a
      quote in it. */
  lemma AsWrittenWithoutQuotes(cell: string)
    requires forall i :: 0 <= i < |cell| ==> cell[i] != '"'
    ensures QuotedAsWritten(cell) == Quoted(cell)
    ensures ReadQuoted(QuotedAsWritten(cell)) == Some(cell)
  {
    QuotedRoundTrip(cell);
  }

  /** One data line, each cell quoted as RFC 4180 asks. */
  function Line(cells: seq<string>): string {
    Join(Sorting.Map(cells, Quoted), ",")
  }

  /** On rows without a quote in any cell the corrected line is the line
      the export writes. */
  lemma LineAgreesWithoutQuotes(cells: seq<string>)
    requires forall i, j :: 0 <= i < |cells| && 0 <= j < |cells[i]| ==> cells[i][j] != '"'
    ensures Line(cells) == LineAsWritten(cells)
  {
    forall i | 0 <= i < |cells|
      ensures Quoted(cells[i]) == QuotedAsWritten(cells[i])
    {
      AsWrittenWithoutQuotes(cells[i]);
    }
    assert Sorting.Map(cells, Quoted) == Sorting.Map(cells, QuotedAsWritten);
  }

  /** A seeded product name holds a quote; the export's cell for it is not a
      well-formed quoted field, and the RFC 4180 cell reads back as the
      name. */
  lemma QuoteInCellBreaksTheField()
    ensures ReadQuoted(QuotedAsWritten("Monitor 27\" 4K")) == None
    ensures ReadQuoted(Quoted("Monitor 27\" 4K")) == Some("Monitor 27\" 4K")
  {
    var field := QuotedAsWritten("Monitor 27\" 4K");
    assert field[1..] == "Monitor 27" + "\" 4K\"";
    assert ReadQuotedRest("\" 4K\"") == None;
    ReadPlainPrefix("Monitor 27", "\" 4K\"");
    QuotedRoundTrip("Monitor 27\" 4K");
  }
}
