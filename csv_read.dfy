/**
 * A reader for the exported text in the manner of RFC 4180, section 2, with two departures: a
 * record ends with a line feed rather than CRLF, and a double quote inside an unquoted field is
 * taken as an ordinary character rather than rejected. Fields are separated by commas; a field
 * that starts with a double quote runs to the next undoubled quote and may hold commas, doubled
 * quotes and line feeds. Reading the export back recovers every field exactly. A reader that
 * instead splits the text at every line feed sees one line per record only while no code
 * contains a line feed.
 */
module CsvRead {
  import opened Options
  import opened ScanRecords
  import opened CsvExport

  /** Text that may stand in a field unquoted and still read back unchanged. */
  predicate Plain(s: string) {
    ',' !in s && '"' !in s && '\n' !in s
  }

  /** A record can be read back field for field: its timestamp and coordinate texts are plain. */
  predicate Exportable(r: ScanRecord, show: Degrees -> string) {
    Plain(r.timestampUtcIso) && Plain(Cell(r.latitude, show)) && Plain(Cell(r.longitude, show))
  }

  /** The field values that one exported row stands for. */
  function Fields(r: ScanRecord, show: Degrees -> string): seq<string> {
    [r.qr, r.timestampUtcIso, Cell(r.latitude, show), Cell(r.longitude, show)]
  }

  /** The field values of the rows of a newest-first list, oldest first, as the export writes them. */
  function Table(records: seq<ScanRecord>, show: Degrees -> string): (rows: seq<seq<string>>)
    ensures |rows| == |records|
  {
    if records == [] then [] else Table(records[1..], show) + [Fields(records[0], show)]
  }

  /** Puts `rows` in front of what was read after them, when that reading succeeded. */
  function PrependRows(rows: seq<seq<string>>, rest: Option<seq<seq<string>>>): Option<seq<seq<string>>> {
    match rest
    case None => None
    case Some(more) => Some(rows + more)
  }

  /**
   * Reads the rest of a quoted field, `s` being the text after the opening quote: the field's
   * value and the text after the closing quote. Fails when the closing quote is missing.
   */
  function ReadQuoted(s: string): (r: Option<(string, string)>)
    ensures r.Some? ==> |r.value.1| < |s|
    decreases |s|
  {
    if s == [] then None
    else if s[0] == '"' then
      if |s| >= 2 && s[1] == '"' then
        match ReadQuoted(s[2..])
        case None => None
        case Some((f, rest)) => Some(("\"" + f, rest))
      else Some(([], s[1..]))
    else
      match ReadQuoted(s[1..])
      case None => None
      case Some((f, rest)) => Some(([s[0]] + f, rest))
  }

  /** Reads an unquoted field: everything up to the next comma or line feed. */
  function ReadPlain(s: string): (r: (string, string))
    ensures r.0 + r.1 == s
    ensures ',' !in r.0 && '\n' !in r.0
    ensures r.1 == [] || r.1[0] == ',' || r.1[0] == '\n'
  {
    if s == [] || s[0] == ',' || s[0] == '\n' then ([], s)
    else
      var (f, rest) := ReadPlain(s[1..]);
      ([s[0]] + f, rest)
  }

  /** Reads one field, quoted or not, and returns it with the text that follows it. */
  function ReadField(s: string): (r: Option<(string, string)>)
    ensures r.Some? ==> |r.value.1| <= |s|
  {
    if s != [] && s[0] == '"' then ReadQuoted(s[1..]) else Some(ReadPlain(s))
  }

  /**
   * Reads one record: fields separated by commas, up to a line feed (which is consumed) or the
   * end of the text. Fails on a quoted field followed by anything else.
   */
  function ReadRecord(s: string): (r: Option<(seq<string>, string)>)
    ensures r.Some? && s != [] ==> |r.value.1| < |s|
    ensures r.Some? && s == [] ==> r.value.1 == []
    decreases |s|
  {
    match ReadField(s)
    case None => None
    case Some((f, rest)) =>
      if rest == [] then Some(([f], []))
      else if rest[0] == '\n' then Some(([f], rest[1..]))
      else if rest[0] == ',' then
        match ReadRecord(rest[1..])
        case None => None
        case Some((fs, t)) => Some(([f] + fs, t))
      else None
  }

  /** Reads every record of a text. */
  function ReadAll(s: string): Option<seq<seq<string>>>
    decreases |s|
  {
    if s == [] then Some([])
    else
      match ReadRecord(s)
      case None => None
      case Some((fs, t)) => PrependRows([fs], ReadAll(t))
  }

  lemma {:induction false} ReadQuotedEscaped(a: string, t: string)
    requires t == [] || t[0] != '"'
    ensures ReadQuoted(Escape(a) + ("\"" + t)) == Some((a, t))
    decreases |a|
  {
    if a == [] {
      assert Escape(a) + ("\"" + t) == "\"" + t;
    } else {
      ReadQuotedEscaped(a[1..], t);
      if a[0] == '"' {
        ReadQuotedEscapedQuote(a, "\"" + t, t);
      } else {
        ReadQuotedEscapedOther(a, "\"" + t, t);
      }
    }
  }

  /** Inductive step of `ReadQuotedEscaped` for a code starting with a quote, which was doubled. */
  lemma ReadQuotedEscapedQuote(a: string, w: string, t: string)
    requires a != [] && a[0] == '"'
    requires ReadQuoted(Escape(a[1..]) + w) == Some((a[1..], t))
    ensures ReadQuoted(Escape(a) + w) == Some((a, t))
  {
    var e := Escape(a[1..]);
    assert Escape(a) == "\"\"" + e;
    ReadQuotedDoubled(e, w, a[1..], t);
    assert "\"" + a[1..] == a;
  }

  /** Inductive step of `ReadQuotedEscaped` for a code starting with any other character. */
  lemma ReadQuotedEscapedOther(a: string, w: string, t: string)
    requires a != [] && a[0] != '"'
    requires ReadQuoted(Escape(a[1..]) + w) == Some((a[1..], t))
    ensures ReadQuoted(Escape(a) + w) == Some((a, t))
  {
    var e := Escape(a[1..]);
    assert Escape(a) == [a[0]] + e;
    ReadQuotedOther(a[0], e, w, a[1..], t);
    assert [a[0]] + a[1..] == a;
  }

  /** Inside a quoted field, a character other than the quote reads as itself. */
  lemma ReadQuotedOther(c: char, e: string, w: string, f: string, t: string)
    requires c != '"'
    requires ReadQuoted(e + w) == Some((f, t))
    ensures ReadQuoted(([c] + e) + w) == Some(([c] + f, t))
  {
    assert ([c] + e) + w == [c] + (e + w);
    assert ([c] + (e + w))[1..] == e + w;
  }

  /** Inside a quoted field, a doubled quote reads as one quote. */
  lemma ReadQuotedDoubled(e: string, w: string, f: string, t: string)
    requires ReadQuoted(e + w) == Some((f, t))
    ensures ReadQuoted(("\"\"" + e) + w) == Some(("\"" + f, t))
  {
    assert ("\"\"" + e) + w == "\"\"" + (e + w);
    assert ("\"\"" + (e + w))[2..] == e + w;
  }

  /** A quoted code reads back as the code, whatever it contains, when no quote follows it. */
  lemma ReadFieldQuoted(a: string, t: string)
    requires t == [] || t[0] != '"'
    ensures ReadField(Quote(a) + t) == Some((a, t))
  {
    assert (Quote(a) + t)[1..] == Escape(a) + ("\"" + t);
    ReadQuotedEscaped(a, t);
  }

  lemma {:induction false} ReadPlainStops(b: string, t: string)
    requires ',' !in b && '\n' !in b
    requires t == [] || t[0] == ',' || t[0] == '\n'
    ensures ReadPlain(b + t) == (b, t)
    decreases |b|
  {
    if b == [] {
      assert b + t == t;
    } else {
      assert b[0] in b;
      assert (b + t)[0] == b[0];
      assert (b + t)[1..] == b[1..] + t;
      ReadPlainStops(b[1..], t);
      assert b == [b[0]] + b[1..];
    }
  }

  /** A plain text reads back as itself when a comma, a line feed or the end follows it. */
  lemma ReadFieldPlain(b: string, t: string)
    requires Plain(b)
    requires t == [] || t[0] == ',' || t[0] == '\n'
    ensures ReadField(b + t) == Some((b, t))
  {
    if b != [] {
      assert (b + t)[0] == b[0];
      assert b[0] in b;
    } else {
      assert b + t == t;
    }
    ReadPlainStops(b, t);
  }

  lemma ReadRecordComma(s: string, f: string, u: string)
    requires ReadField(s) == Some((f, "," + u))
    requires ReadRecord(u).Some?
    ensures ReadRecord(s) == Some(([f] + ReadRecord(u).value.0, ReadRecord(u).value.1))
  {
    assert ("," + u)[1..] == u;
  }

  lemma ReadRecordLineEnd(s: string, f: string, t: string)
    requires ReadField(s) == Some((f, "\n" + t))
    ensures ReadRecord(s) == Some(([f], t))
  {
    assert ("\n" + t)[1..] == t;
  }

  /** A line of plain fields, ended by a line feed, reads back as those fields. */
  lemma {:induction false} ReadPlainLine(cells: seq<string>, t: string)
    requires |cells| >= 1
    requires forall i :: 0 <= i < |cells| ==> Plain(cells[i])
    ensures ReadRecord(Line(cells) + ("\n" + t)) == Some((cells, t))
    decreases |cells|
  {
    if |cells| == 1 {
      ReadFieldPlain(cells[0], "\n" + t);
      ReadRecordLineEnd(cells[0] + ("\n" + t), cells[0], t);
      assert cells == [cells[0]];
    } else {
      var u := Line(cells[1..]) + ("\n" + t);
      ReadPlainLine(cells[1..], t);
      ReadFieldPlain(cells[0], "," + u);
      ReadRecordComma(cells[0] + ("," + u), cells[0], u);
      assert Line(cells) + ("\n" + t) == cells[0] + ("," + u);
      assert cells == [cells[0]] + cells[1..];
    }
  }

  /** The header line reads back as the four column names. */
  lemma ReadHeader(t: string)
    ensures ReadRecord(Header + ("\n" + t)) == Some((HeaderFields, t))
  {
    ReadPlainLine(HeaderFields, t);
  }

  /** A quoted code followed by plain fields, ended by a line feed, reads back as the code and those fields. */
  lemma ReadQuotedLine(a: string, cells: seq<string>, t: string)
    requires |cells| >= 1
    requires forall i :: 0 <= i < |cells| ==> Plain(cells[i])
    ensures ReadRecord(Quote(a) + ("," + (Line(cells) + ("\n" + t)))) == Some(([a] + cells, t))
  {
    var u := Line(cells) + ("\n" + t);
    ReadPlainLine(cells, t);
    ReadFieldQuoted(a, "," + u);
    ReadRecordComma(Quote(a) + ("," + u), a, u);
  }

  /** One exported row, with its line feed, reads back as the record's four field values. */
  lemma ReadRow(r: ScanRecord, show: Degrees -> string, t: string)
    requires Exportable(r, show)
    ensures ReadRecord(Row(r, show) + ("\n" + t)) == Some((Fields(r, show), t))
  {
    var plain := [r.timestampUtcIso, Cell(r.latitude, show), Cell(r.longitude, show)];
    var cells := [Quote(r.qr)] + plain;
    assert cells[1..] == plain;
    assert Row(r, show) == Quote(r.qr) + ("," + Line(plain));
    ReadQuotedLine(r.qr, plain, t);
    assert Row(r, show) + ("\n" + t) == Quote(r.qr) + ("," + (Line(plain) + ("\n" + t)));
    assert [r.qr] + plain == Fields(r, show);
  }

  lemma PrependRowsTwice(a: seq<seq<string>>, b: seq<seq<string>>, rest: Option<seq<seq<string>>>)
    ensures PrependRows(a, PrependRows(b, rest)) == PrependRows(a + b, rest)
  {
    if rest.Some? {
      assert a + (b + rest.value) == (a + b) + rest.value;
    }
  }

  /** The written rows of a list, then any text: the rows' text is the text of all but the front record, then that record's row. */
  lemma RowsText(records: seq<ScanRecord>, show: Degrees -> string, t: string)
    requires records != []
    ensures Text(Rows(records, show)) + t == Text(Rows(records[1..], show)) + (Row(records[0], show) + ("\n" + t))
  {
    var front, row := Rows(records[1..], show), Row(records[0], show);
    assert Rows(records, show) == front + [row];
    TextAppend(front, row);
    Regroup(Text(front), row, t);
  }

  /** Concatenation regrouped on abstract strings, kept apart so that no `Text` or `Row` term is in scope. */
  lemma Regroup(a: string, row: string, t: string)
    ensures (a + (row + "\n")) + t == a + (row + ("\n" + t))
  {
  }

  lemma {:induction false} ReadRows(records: seq<ScanRecord>, show: Degrees -> string, t: string)
    requires forall r :: r in records ==> Exportable(r, show)
    ensures ReadAll(Text(Rows(records, show)) + t) == PrependRows(Table(records, show), ReadAll(t))
    decreases |records|
  {
    if records == [] {
      assert Text(Rows(records, show)) + t == t;
      PrependRowsTwice([], [], ReadAll(t));
      assert PrependRows([], ReadAll(t)) == ReadAll(t) by {
        if ReadAll(t).Some? {
          assert [] + ReadAll(t).value == ReadAll(t).value;
        }
      }
    } else {
      var r := records[0];
      var rest := records[1..];
      assert r in records;
      assert forall x :: x in rest ==> x in records;
      var u := Row(r, show) + ("\n" + t);
      RowsText(records, show, t);
      ReadRows(rest, show, u);
      ReadRow(r, show, t);
      assert ReadAll(u) == PrependRows([Fields(r, show)], ReadAll(t));
      PrependRowsTwice(Table(rest, show), [Fields(r, show)], ReadAll(t));
    }
  }

  lemma {:induction false} TableOldestFirst(records: seq<ScanRecord>, show: Degrees -> string, k: int)
    requires 0 <= k < |records|
    ensures Table(records, show)[k] == Fields(records[|records| - 1 - k], show)
    decreases |records|
  {
    if k < |records| - 1 {
      TableOldestFirst(records[1..], show, k);
    }
  }

  /** The written text reads back as the column names followed by the field rows of the records, oldest first. */
  lemma ReadExport(records: seq<ScanRecord>, show: Degrees -> string)
    requires forall r :: r in records ==> Exportable(r, show)
    ensures ReadAll(Text(CsvLines(records, show))) == Some([HeaderFields] + Table(records, show))
  {
    var body := Text(Rows(records, show));
    assert Text(CsvLines(records, show)) == Header + ("\n" + body) by {
      assert CsvLines(records, show)[1..] == Rows(records, show);
    }
    ReadHeader(body);
    assert ReadAll(Header + ("\n" + body)) == PrependRows([HeaderFields], ReadAll(body));
    ReadRows(records, show, []);
    assert body + [] == body;
    assert Table(records, show) + [] == Table(records, show);
  }

  /**
   * Reading the exported text recovers, after the header's column names, the exact code,
   * timestamp and coordinate texts of every record, oldest record first; a code may contain
   * commas, quotes and line feeds. The timestamp and coordinate texts must be plain.
   */
  lemma CsvRoundTrip(records: seq<ScanRecord>, show: Degrees -> string)
    requires forall r :: r in records ==> Exportable(r, show)
    ensures ReadAll(Text(CsvLines(records, show))).Some?
    ensures |ReadAll(Text(CsvLines(records, show))).value| == |records| + 1
    ensures ReadAll(Text(CsvLines(records, show))).value[0] == HeaderFields
    ensures forall k :: 1 <= k <= |records| ==>
              ReadAll(Text(CsvLines(records, show))).value[k] == Fields(records[|records| - k], show)
  {
    ReadExport(records, show);
    var read := [HeaderFields] + Table(records, show);
    forall k | 1 <= k <= |records|
      ensures read[k] == Fields(records[|records| - k], show)
    {
      TableOldestFirst(records, show, k - 1);
    }
  }

  /** Cuts off the first line: the text before the first line feed, and the text after that line feed. */
  function TakeLine(s: string): (r: (string, string))
    ensures '\n' !in r.0
    ensures s != [] ==> |r.1| < |s|
  {
    if s == [] then ([], [])
    else if s[0] == '\n' then ([], s[1..])
    else
      var (line, rest) := TakeLine(s[1..]);
      ([s[0]] + line, rest)
  }

  /** The lines of a text as a line-by-line reader sees them: split at every line feed. */
  function SplitLines(s: string): seq<string>
    decreases |s|
  {
    if s == [] then []
    else
      var (line, rest) := TakeLine(s);
      [line] + SplitLines(rest)
  }

  lemma {:induction false} TakeLineExact(line: string, u: string)
    requires '\n' !in line
    ensures TakeLine(line + ("\n" + u)) == (line, u)
    decreases |line|
  {
    if line == [] {
      assert line + ("\n" + u) == "\n" + u;
      assert ("\n" + u)[1..] == u;
    } else {
      assert line[0] in line;
      assert (line + ("\n" + u))[1..] == line[1..] + ("\n" + u);
      TakeLineExact(line[1..], u);
      assert line == [line[0]] + line[1..];
    }
  }

  /** Splitting the written text at line feeds gives back the lines, when none of them holds a line feed. */
  lemma {:induction false} SplitText(lines: seq<string>)
    requires forall i :: 0 <= i < |lines| ==> '\n' !in lines[i]
    ensures SplitLines(Text(lines)) == lines
    decreases |lines|
  {
    if lines != [] {
      assert Text(lines) == lines[0] + ("\n" + Text(lines[1..]));
      TakeLineExact(lines[0], Text(lines[1..]));
      SplitText(lines[1..]);
      assert lines == [lines[0]] + lines[1..];
    }
  }

  /**
   * While no code holds a line feed, a line-by-line reader sees exactly the lines written: the
   * header and one line per record, |records| + 1 lines in all.
   */
  lemma OneLinePerRecord(records: seq<ScanRecord>, show: Degrees -> string)
    requires forall r :: r in records ==>
               '\n' !in r.qr && '\n' !in r.timestampUtcIso &&
               '\n' !in Cell(r.latitude, show) && '\n' !in Cell(r.longitude, show)
    ensures SplitLines(Text(CsvLines(records, show))) == CsvLines(records, show)
    ensures |SplitLines(Text(CsvLines(records, show)))| == |records| + 1
  {
    var lines := CsvLines(records, show);
    forall i | 0 <= i < |lines| ensures '\n' !in lines[i] {
      if i == 0 {
        HeaderWithoutLineFeed();
      } else {
        CsvLinesLayout(records, show);
        var r := records[|records| - i];
        assert r in records;
        EscapeKeepsOthers(r.qr, '\n');
        assert '\n' !in Quote(r.qr) by {
          assert Quote(r.qr) == "\"" + Escape(r.qr) + "\"";
        }
      }
    }
    SplitText(lines);
  }

  /** The quoted form of a code `a`, line feed, `b`: the line feed stays, unescaped, between the two halves. */
  lemma QuoteAroundLineFeed(a: string, b: string)
    ensures Quote(a + "\n" + b) == ("\"" + Escape(a)) + ("\n" + (Escape(b) + "\""))
  {
    EscapeLineFeed(a, b);
    RegroupAroundLineFeed("\"", Escape(a), Escape(b), "\"");
  }

  lemma EscapeLineFeed(a: string, b: string)
    ensures Escape(a + "\n" + b) == Escape(a) + "\n" + Escape(b)
  {
    assert Escape("\n") == "\n" by {
      assert '"' !in "\n";
    }
    EscapeAppend(a, "\n");
    EscapeAppend(a + "\n", b);
  }

  /** The row of such a code is its first half, a line feed, then its second half with the other columns. */
  lemma RowAroundLineFeed(a: string, b: string, ts: string, show: Degrees -> string)
    ensures Row(ScanRecord(a + "\n" + b, ts, None, None), show)
            == ("\"" + Escape(a)) + ("\n" + (Escape(b) + "\"" + "," + ts + ",,"))
  {
    QuoteAroundLineFeed(a, b);
    RegroupRow("\"" + Escape(a), Escape(b) + "\"", ts);
  }

  /** Concatenation regrouped on abstract strings, kept apart so that no `Escape` term is in scope. */
  lemma RegroupAroundLineFeed(p: string, x: string, y: string, q: string)
    ensures p + (x + "\n" + y) + q == (p + x) + ("\n" + (y + q))
  {
  }

  /** The row's tail regrouped on abstract strings, kept apart so that no `Escape` term is in scope. */
  lemma RegroupRow(p: string, y: string, ts: string)
    ensures (p + ("\n" + y)) + "," + ts + "," + "" + "," + "" == p + ("\n" + (y + "," + ts + ",,"))
  {
    assert "," + "" == ",";
  }

  /** A two-line text whose second line holds one line feed splits into three lines. */
  lemma SplitTwoLines(header: string, row: string, first: string, second: string)
    requires '\n' !in header && '\n' !in first && '\n' !in second
    requires row == first + ("\n" + second)
    ensures SplitLines(Text([header, row])) == [header, first, second]
  {
    assert Text([header, row]) == header + ("\n" + (first + ("\n" + (second + ("\n" + []))))) by {
      assert [header, row][1..] == [row];
      assert [row][1..] == [];
      assert Text([row]) == row + "\n" + [];
    }
    var t3 := second + ("\n" + []);
    var t2 := first + ("\n" + t3);
    var t1 := header + ("\n" + t2);
    TakeLineExact(second, []);
    TakeLineExact(first, t3);
    TakeLineExact(header, t2);
    assert SplitLines(t3) == [second];
    assert SplitLines(t2) == [first] + SplitLines(t3);
    assert SplitLines(t1) == [header] + SplitLines(t2);
  }

  lemma HalvesWithoutLineFeed(a: string, b: string, ts: string)
    requires '\n' !in a && '\n' !in b && '\n' !in ts
    ensures '\n' !in "\"" + Escape(a) && '\n' !in Escape(b) + "\"" + "," + ts + ",,"
  {
    EscapeKeepsOthers(a, '\n');
    EscapeKeepsOthers(b, '\n');
  }

  lemma HeaderWithoutLineFeed()
    ensures '\n' !in Header
  {
  }

  /** The export of a single record is the header and that record's row. */
  lemma SingleRecordLines(r: ScanRecord, show: Degrees -> string)
    ensures CsvLines([r], show) == [Header, Row(r, show)]
  {
    assert [r][1..] == [];
  }

  /**
   * A code holding a line feed is not confined to its line: the export of a record whose code is
   * `a`, a line feed, then `b` splits into three lines, and the row's quoted code is cut in two.
   */
  lemma LineFeedInCodeSplitsRow(a: string, b: string, ts: string, show: Degrees -> string)
    requires '\n' !in a && '\n' !in b && '\n' !in ts
    ensures SplitLines(Text(CsvLines([ScanRecord(a + "\n" + b, ts, None, None)], show)))
            == [Header, "\"" + Escape(a), Escape(b) + "\"" + "," + ts + ",,"]
  {
    var r := ScanRecord(a + "\n" + b, ts, None, None);
    var first, second := "\"" + Escape(a), Escape(b) + "\"" + "," + ts + ",,";
    RowAroundLineFeed(a, b, ts, show);
    HalvesWithoutLineFeed(a, b, ts);
    SingleRecordLines(r, show);
    HeaderWithoutLineFeed();
    SplitTwoLines(Header, Row(r, show), first, second);
  }
}
