/**
 * The CSV text that `writeCsv` (MainActivity.kt) produces from the record list: a fixed header,
 * then one row per record, oldest first, every line ended by a line feed (`appendLine`).
 * The code field is quoted as in RFC 4180, section 2, rules 5 to 7: it is enclosed in double
 * quotes and every double quote inside it is doubled.
 */
module CsvExport {
  import opened Options
  import opened ScanRecords

  /** The column names of the export. */
  const HeaderFields: seq<string> := ["qr_code", "timestamp_utc", "latitude", "longitude"]

  /** The first line of every export: the column names, comma-separated. */
  const Header: string := Line(HeaderFields)

  /** Fields joined by commas into one line; joining adds no character other than the comma. */
  function Line(fields: seq<string>): (r: string)
    ensures forall c :: c in r && c != ',' ==> exists i :: 0 <= i < |fields| && c in fields[i]
    decreases |fields|
  {
    if fields == [] then []
    else if |fields| == 1 then fields[0]
    else fields[0] + ("," + Line(fields[1..]))
  }

  /** A line of four fields is the four texts with a comma between each two. */
  lemma LineOfFour(a: string, b: string, c: string, d: string)
    ensures Line([a, b, c, d]) == a + "," + b + "," + c + "," + d
  {
    assert [a, b, c, d][1..] == [b, c, d];
    assert [b, c, d][1..] == [c, d];
    assert [c, d][1..] == [d];
    assert Line([c, d]) == c + ("," + d);
    assert Line([b, c, d]) == b + ("," + Line([c, d]));
    assert Line([a, b, c, d]) == a + ("," + (b + ("," + (c + ("," + d)))));
    assert c + ("," + d) == c + "," + d;
    assert b + ("," + (c + "," + d)) == b + "," + c + "," + d;
    assert a + ("," + (b + "," + c + "," + d)) == a + "," + b + "," + c + "," + d;
  }

  /** The header is the fixed text `qr_code,timestamp_utc,latitude,longitude`. */
  lemma HeaderText()
    ensures Header == "qr_code,timestamp_utc,latitude,longitude"
  {
    LineOfFour("qr_code", "timestamp_utc", "latitude", "longitude");
    // The literals are joined one at a time, so that each step is a small equality of literals.
    var h := "qr_code" + ",";
    assert h == "qr_code,";
    h := h + "timestamp_utc";
    assert h == "qr_code,timestamp_utc";
    h := h + ",";
    assert h == "qr_code,timestamp_utc,";
    h := h + "latitude";
    assert h == "qr_code,timestamp_utc,latitude";
    h := h + ",";
    assert h == "qr_code,timestamp_utc,latitude,";
    h := h + "longitude";
    assert h == "qr_code,timestamp_utc,latitude,longitude";
  }

  /** The text with every double quote doubled; text without a double quote is left as it is. */
  function Escape(s: string): (r: string)
    ensures |r| >= |s|
    ensures '"' !in s ==> r == s
  {
    if s == [] then []
    else if s[0] == '"' then "\"\"" + Escape(s[1..])
    else [s[0]] + Escape(s[1..])
  }

  /** The code as a quoted CSV field: enclosed in double quotes, embedded quotes doubled. */
  function Quote(s: string): (r: string)
    ensures |r| >= |s| + 2
    ensures r[0] == '"' && r[|r| - 1] == '"'
  {
    "\"" + Escape(s) + "\""
  }

  /** Doubling quotes adds no other character: any other character is in the result exactly when it is in the input. */
  lemma {:induction false} EscapeKeepsOthers(s: string, c: char)
    requires c != '"'
    ensures c in Escape(s) <==> c in s
    decreases |s|
  {
    if s != [] {
      EscapeKeepsOthers(s[1..], c);
      assert s == [s[0]] + s[1..];
    }
  }

  /** Quote doubling works character by character, so it distributes over concatenation. */
  lemma {:induction false} EscapeAppend(x: string, y: string)
    ensures Escape(x + y) == Escape(x) + Escape(y)
    decreases |x|
  {
    if x == [] {
      assert x + y == y;
    } else {
      assert (x + y)[0] == x[0];
      assert (x + y)[1..] == x[1..] + y;
      EscapeAppend(x[1..], y);
      var p := if x[0] == '"' then "\"\"" else [x[0]];
      var e, f := Escape(x[1..]), Escape(y);
      assert Escape(x) == p + e;
      assert Escape(x + y) == p + (e + f);
      assert p + (e + f) == (p + e) + f;
    }
  }

  /**
   * Reads back the inside of a quoted field: a doubled quote stands for one quote; a quote
   * that is not doubled cannot occur inside a field.
   */
  function Unescape(u: string): Option<string>
    decreases |u|
  {
    if u == [] then Some([])
    else if u[0] == '"' then
      if |u| >= 2 && u[1] == '"' then
        match Unescape(u[2..])
        case None => None
        case Some(s) => Some("\"" + s)
      else None
    else
      match Unescape(u[1..])
      case None => None
      case Some(s) => Some([u[0]] + s)
  }

  /** Reads back a whole quoted field, or fails when the text is not one. */
  function Unquote(t: string): Option<string> {
    if |t| >= 2 && t[0] == '"' && t[|t| - 1] == '"' then Unescape(t[1..|t| - 1]) else None
  }

  lemma {:induction false} UnescapeEscape(s: string)
    ensures Unescape(Escape(s)) == Some(s)
    decreases |s|
  {
    if s != [] {
      UnescapeEscape(s[1..]);
      if s[0] == '"' {
        assert (Escape(s))[2..] == Escape(s[1..]);
        assert s == "\"" + s[1..];
      } else {
        assert (Escape(s))[1..] == Escape(s[1..]);
        assert (Escape(s))[0] == s[0];
        assert s == [s[0]] + s[1..];
      }
    }
  }

  lemma {:induction false} EscapeUnescape(u: string, s: string)
    requires Unescape(u) == Some(s)
    ensures Escape(s) == u
    decreases |u|
  {
    if u != [] {
      if u[0] == '"' {
        EscapeUnescape(u[2..], s[1..]);
        assert u == "\"\"" + u[2..];
      } else {
        EscapeUnescape(u[1..], s[1..]);
        assert u == [u[0]] + u[1..];
      }
    }
  }

  /** Quoting is undone by unquoting, for every code (commas, quotes and line breaks included). */
  lemma UnquoteQuote(s: string)
    ensures Unquote(Quote(s)) == Some(s)
  {
    var q := Quote(s);
    assert q[1..|q| - 1] == Escape(s);
    UnescapeEscape(s);
  }

  /** A text unquotes to `s` exactly when it is the quoted form of `s`: quoting is a bijection onto well-formed quoted fields. */
  lemma UnquoteIffQuote(t: string, s: string)
    ensures Unquote(t) == Some(s) <==> t == Quote(s)
  {
    if t == Quote(s) {
      UnquoteQuote(s);
    }
    if Unquote(t) == Some(s) {
      EscapeUnescape(t[1..|t| - 1], s);
      assert t == "\"" + t[1..|t| - 1] + "\"";
    }
  }

  /**
   * A coordinate column: the number's text (`Double.toString`, here `show`), or empty when absent.
   * With a formatter that never prints empty text, an empty column means exactly "no fix".
   */
  function Cell(c: Option<Degrees>, show: Degrees -> string): (r: string)
    ensures (forall x :: show(x) != "") ==> (r == "" <==> c.None?)
  {
    match c
    case None => ""
    case Some(x) => show(x)
  }

  /** One data row: the quoted code, the timestamp, the latitude and the longitude, comma-separated. */
  function Row(rec: ScanRecord, show: Degrees -> string): (r: string)
    ensures r == Quote(rec.qr) + "," + rec.timestampUtcIso + "," + Cell(rec.latitude, show) + "," + Cell(rec.longitude, show)
  {
    LineOfFour(Quote(rec.qr), rec.timestampUtcIso, Cell(rec.latitude, show), Cell(rec.longitude, show));
    Line([Quote(rec.qr), rec.timestampUtcIso, Cell(rec.latitude, show), Cell(rec.longitude, show)])
  }

  /** The rows of a newest-first record list, in reverse, so that the oldest record comes first. */
  function Rows(records: seq<ScanRecord>, show: Degrees -> string): (rows: seq<string>)
    ensures |rows| == |records|
  {
    if records == [] then [] else Rows(records[1..], show) + [Row(records[0], show)]
  }

  /** Every line of the export: the header, then the rows oldest first. */
  function CsvLines(records: seq<ScanRecord>, show: Degrees -> string): (lines: seq<string>)
    ensures |lines| == |records| + 1
    ensures lines[0] == Header
  {
    [Header] + Rows(records, show)
  }

  /** Row `k` (counting from 0) is that of the `k`-th oldest record, i.e. the `k`-th from the end of the list. */
  lemma {:induction false} RowsOldestFirst(records: seq<ScanRecord>, show: Degrees -> string, k: int)
    requires 0 <= k < |records|
    ensures Rows(records, show)[k] == Row(records[|records| - 1 - k], show)
    decreases |records|
  {
    if k < |records| - 1 {
      RowsOldestFirst(records[1..], show, k);
    }
  }

  /** The export is the header followed by one row per record, the oldest record's row first. */
  lemma CsvLinesLayout(records: seq<ScanRecord>, show: Degrees -> string)
    ensures |CsvLines(records, show)| == |records| + 1
    ensures CsvLines(records, show)[0] == Header
    ensures forall k :: 1 <= k <= |records| ==>
              CsvLines(records, show)[k] == Row(records[|records| - k], show)
  {
    forall k | 1 <= k <= |records|
      ensures CsvLines(records, show)[k] == Row(records[|records| - k], show)
    {
      RowsOldestFirst(records, show, k - 1);
    }
  }

  /**
   * The text the writer receives: every line followed by a line feed, as `appendLine` writes it.
   * It is empty only for no lines, and otherwise ends with a line feed.
   */
  function Text(lines: seq<string>): (r: string)
    ensures r == [] <==> lines == []
    ensures lines != [] ==> r[|r| - 1] == '\n'
  {
    if lines == [] then [] else lines[0] + "\n" + Text(lines[1..])
  }

  lemma {:induction false} TextAppend(lines: seq<string>, line: string)
    ensures Text(lines + [line]) == Text(lines) + (line + "\n")
    decreases |lines|
  {
    if lines != [] {
      assert (lines + [line])[1..] == lines[1..] + [line];
      TextAppend(lines[1..], line);
    }
  }

  /**
   * The two-record example: from the newest-first list ("A,B" at (1.0, 2.0), then the older "C"
   * without a fix) the export holds the header, the row of "C" with both coordinates empty, then
   * the row of "A,B", its comma kept inside the quotes.
   */
  lemma TwoRecordExample(ts1: string, ts2: string, show: Degrees -> string)
    ensures CsvLines([ScanRecord("A,B", ts1, Some(1.0), Some(2.0)), ScanRecord("C", ts2, None, None)], show)
            == [Header,
                "\"C\"," + ts2 + ",,",
                "\"A,B\"," + ts1 + "," + show(1.0) + "," + show(2.0)]
  {
    var a := ScanRecord("A,B", ts1, Some(1.0), Some(2.0));
    var c := ScanRecord("C", ts2, None, None);
    assert Row(a, show) == "\"A,B\"," + ts1 + "," + show(1.0) + "," + show(2.0) by {
      assert Quote("A,B") + "," == "\"A,B\"," by {
        assert Escape("A,B") == "A,B";
      }
    }
    assert Row(c, show) == "\"C\"," + ts2 + ",," by {
      assert Quote("C") + "," == "\"C\"," by {
        assert Escape("C") == "C";
      }
      var p := "\"C\"," + ts2;
      assert p + "," + "" + "," + "" == p + ",,";
    }
    assert [a, c][1..] == [c];
    assert Rows([a, c], show) == [Row(c, show), Row(a, show)];
  }
}
