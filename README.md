# QR post scanner: scan filter, record list and CSV export

A Dafny model of the scan-handling core of an Android QR-code scanner. `MainActivity` receives
decoded codes from the camera analyser, drops a code that repeats the last accepted one within
two seconds, asks the location service for a one-shot fix, and puts a `ScanRecord` (code,
ISO-8601 UTC timestamp, optional latitude and longitude) at the front of its record list. A clear
button empties the list. An export button writes the list as CSV: a fixed header
`qr_code,timestamp_utc,latitude,longitude`, then one row per record, oldest first, with the code
in double quotes and embedded quotes doubled (the quoting of RFC 4180, section 2, rules 5 to 7;
lines end with a line feed rather than the CRLF of rule 2).

Modules:

- `Options` (`options.dfy`): `Option`, the counterpart of Kotlin's nullable types.
- `ScanRecords` (`scan_record.dfy`): the immutable `ScanRecord` datatype and the
  both-or-neither pairing of its coordinates.
- `Dedup` (`dedup.dfy`): the duplicate filter as a pure state machine (`DedupState`, `IsRepeat`,
  `Admit`) and what it does to a stream of scans of one code (`AcceptedTimes`).
- `CsvExport` (`csv_export.dfy`): quoting (`Escape`, `Quote`) and its inverse (`Unescape`,
  `Unquote`), the row and line layout (`Line`, `Row`, `Rows`, `CsvLines`) and the written text
  (`Text`, one line feed after every line, as `appendLine` writes).
- `CsvRead` (`csv_read.dfy`): a reader in the manner of RFC 4180 (`ReadAll`, in which a quoted
  field may hold commas, quotes and line feeds; records end with a line feed, not CRLF, and a
  quote inside an unquoted field is read as an ordinary character) and a naive line splitter
  (`SplitLines`); reading the export back recovers every field.
- `Activity` (`activity.dfy`): the class `ScanLog` with the fields `lastQr`, `lastTime` and
  `records` and the operations `OnQrScanned`, `Clear` and `ExportCsv`; `CurrentLocation`, the
  both-or-neither result of the location lookup.

The clock reading, the location reply, the timestamp formatter (`isoUtc`) and the number
formatter (`Double.toString`) are parameters of the operations: `now: int`,
`reply: LocationReply`, `isoUtc: int -> string` and `show: Degrees -> string`.

Line 162 of `MainActivity.kt`, `r.qr.replace(""", """")`, does not compile as Kotlin: the raw
string `""", """"` is the single argument `, "`, and `String.replace` has no overload taking one
string. The model follows the intent stated by the comment on line 161: the code is enclosed in double quotes and every embedded double quote
is doubled.

## Model

| member | source | states |
|---|---|---|
| `ScanRecords.EqualIffComponentsEqual` | app/src/main/java/com/example/qrpostscanner/ScanRecord.kt:4-9 | two records are equal exactly when code, timestamp, latitude and longitude are all equal (data-class equality of `val` fields) |
| `ScanRecords.PairingNotEnforcedByType` | app/src/main/java/com/example/qrpostscanner/ScanRecord.kt:7-8 | the type admits a record with only one coordinate; the both-or-neither pairing is the callers' invariant |
| `Dedup.FirstScanAccepted` | app/src/main/java/com/example/qrpostscanner/MainActivity.kt:119-126 | with `lastQr` null at start, the first scan is never a repeat and becomes the last accepted code with its own time |
| `Dedup.IsRepeat` | app/src/main/java/com/example/qrpostscanner/MainActivity.kt:125 | a scan is never a repeat when no code was accepted yet or when it differs from the last accepted code; a repeat is always less than 2000 ms after the last acceptance |
| `Dedup.Admit` | app/src/main/java/com/example/qrpostscanner/MainActivity.kt:125-126 | a different code is accepted at any time; the same code is accepted once 2000 ms or more have passed; a repeat within 2000 ms leaves `lastQr` and `lastTime` unchanged |
| `Dedup.InterleavedCodeResetsWindow` | app/src/main/java/com/example/qrpostscanner/MainActivity.kt:125-126 | the window is per last code only: after `a` then a different `b`, a scan of `a` at the same instant is not a repeat |
| `Dedup.AcceptedTimes` | app/src/main/java/com/example/qrpostscanner/MainActivity.kt:122-126 | of a stream of scans of one code, the accepted times are a subsequence of the scan times, in scan order |
| `Dedup.HeldCodeAcceptedOncePerWindow` | app/src/main/java/com/example/qrpostscanner/MainActivity.kt:122-126 | a code held in view, with no other code scanned in between, is accepted at most once per 2000 ms: accepted times are at least 2000 ms apart and at least 2000 ms after the previous acceptance of that code, since dropped repeats do not move the window |
| `Dedup.SpacedScansAllAccepted` | app/src/main/java/com/example/qrpostscanner/MainActivity.kt:122-126 | conversely, scans of one code each at least 2000 ms after the one before (and after the last acceptance) are all accepted |
| `Dedup.DroppedRepeatDoesNotExtendWindow` | app/src/main/java/com/example/qrpostscanner/MainActivity.kt:122-126 | code "A" at 0, 1500 and 2500 ms is accepted at 0 and 2500 ms: the window runs from the last accepted scan, not the last seen |
| `Activity.CurrentLocation` | app/src/main/java/com/example/qrpostscanner/MainActivity.kt:135-145 | the callback gets latitude and longitude both present or both absent; present exactly for a fix, absent for missing permission, a null fix and a failure |
| `Activity.NewRecord` | app/src/main/java/com/example/qrpostscanner/MainActivity.kt:128-130 | the record of an accepted scan holds the scanned code, the timestamp of the acceptance time, and the location reply's coordinates, both or neither |
| `Activity.ScanLog.constructor` | app/src/main/java/com/example/qrpostscanner/MainActivity.kt:36 | the activity starts with an empty list (line 36), no last code and `lastTime` 0 (the initialisers on lines 119-120) |
| `Activity.ScanLog.OnQrScanned` | app/src/main/java/com/example/qrpostscanner/MainActivity.kt:122-133 | a scan is accepted exactly when it is not a repeat within 2000 ms; then `lastQr`/`lastTime` become the code and `now`, and the new record, stamped with `now`, is prepended so that older records shift by one unchanged; a dropped scan changes nothing; every record keeps both coordinates or neither |
| `Activity.ScanLog.Clear` | app/src/main/java/com/example/qrpostscanner/MainActivity.kt:67-69 | clearing empties the list and leaves `lastQr` and `lastTime` as they were |
| `Activity.ScanLog.ExportCsv` | app/src/main/java/com/example/qrpostscanner/MainActivity.kt:153-164 | the loop over the reversed list writes exactly the header followed by the rows oldest first; the list itself is not modified |
| `Activity.ScanSession` | app/src/main/java/com/example/qrpostscanner/MainActivity.kt:119-133 | from start, "A" at 0, 1500 and 2500 ms leaves two records, newest first, stamped 2500 and 0 |
| `CsvExport.Escape` | app/src/main/java/com/example/qrpostscanner/MainActivity.kt:161-162 | doubling quotes never shortens the code and leaves a code without quotes as it is |
| `CsvExport.Quote` | app/src/main/java/com/example/qrpostscanner/MainActivity.kt:161-162 | the quoted code starts and ends with a double quote and is at least two characters longer |
| `CsvExport.EscapeKeepsOthers` | app/src/main/java/com/example/qrpostscanner/MainActivity.kt:161-162 | quote doubling adds or removes no character other than the quote |
| `CsvExport.EscapeAppend` | app/src/main/java/com/example/qrpostscanner/MainActivity.kt:162 | quote doubling distributes over concatenation |
| `CsvExport.UnescapeEscape` | app/src/main/java/com/example/qrpostscanner/MainActivity.kt:162 | undoubling the doubled text gives back the text |
| `CsvExport.EscapeUnescape` | app/src/main/java/com/example/qrpostscanner/MainActivity.kt:162 | any text that undoubles to `s` is the doubled form of `s` |
| `CsvExport.UnquoteQuote` | app/src/main/java/com/example/qrpostscanner/MainActivity.kt:161-162 | `Unquote(Quote(s)) == Some(s)` for every code, commas, quotes and line feeds included |
| `CsvExport.UnquoteIffQuote` | app/src/main/java/com/example/qrpostscanner/MainActivity.kt:161-162 | a text unquotes to `s` exactly when it is `Quote(s)`: quoting is a bijection onto well-formed quoted fields |
| `CsvExport.HeaderText` | app/src/main/java/com/example/qrpostscanner/MainActivity.kt:157 | the header line is `qr_code,timestamp_utc,latitude,longitude` |
| `CsvExport.LineOfFour` | app/src/main/java/com/example/qrpostscanner/MainActivity.kt:163 | a row is its four field texts with a comma between each two |
| `CsvExport.Line` | app/src/main/java/com/example/qrpostscanner/MainActivity.kt:163 | joining fields adds no character other than the comma: every other character of the line comes from one of the fields |
| `CsvExport.Cell` | app/src/main/java/com/example/qrpostscanner/MainActivity.kt:159-160 | given a number formatter that never prints empty text, a coordinate column is empty exactly when the record has no location fix |
| `CsvExport.Row` | app/src/main/java/com/example/qrpostscanner/MainActivity.kt:159-163 | a row is the quoted code, the timestamp, the latitude cell and the longitude cell, separated by commas |
| `CsvExport.Text` | app/src/main/java/com/example/qrpostscanner/MainActivity.kt:157-163 | the written text is empty only for no lines and otherwise ends with a line feed |
| `CsvExport.Rows` | app/src/main/java/com/example/qrpostscanner/MainActivity.kt:158-163 | one row per record |
| `CsvExport.CsvLines` | app/src/main/java/com/example/qrpostscanner/MainActivity.kt:157-164 | the export has `|records| + 1` lines and starts with the header |
| `CsvExport.RowsOldestFirst` | app/src/main/java/com/example/qrpostscanner/MainActivity.kt:158 | row `k` belongs to the record `k`-th from the end of the newest-first list, i.e. the oldest comes first |
| `CsvExport.CsvLinesLayout` | app/src/main/java/com/example/qrpostscanner/MainActivity.kt:157-164 | the export is the header, then line `k` is the row of record `|records| - k`, for every record |
| `CsvExport.TextAppend` | app/src/main/java/com/example/qrpostscanner/MainActivity.kt:157-163 | writing one more line with `appendLine` appends that line and a line feed to the text |
| `CsvExport.TwoRecordExample` | app/src/main/java/com/example/qrpostscanner/MainActivity.kt:157-164 | the newest-first list ("A,B" at 1.0, 2.0, then the older "C" without a fix) exports as the header, `"C",ts2,,`, then `"A,B",ts1,1.0,2.0` |
| `CsvRead.Table` | app/src/main/java/com/example/qrpostscanner/MainActivity.kt:158 | one row of field values per record |
| `CsvRead.TableOldestFirst` | app/src/main/java/com/example/qrpostscanner/MainActivity.kt:158 | field row `k` belongs to the `k`-th oldest record |
| `CsvRead.ReadFieldQuoted` | app/src/main/java/com/example/qrpostscanner/MainActivity.kt:161-162 | an RFC 4180 reader reads a quoted code back as the code, whatever it contains |
| `CsvRead.ReadFieldPlain` | app/src/main/java/com/example/qrpostscanner/MainActivity.kt:159-160 | an unquoted timestamp or coordinate without comma, quote or line feed reads back as itself |
| `CsvRead.ReadHeader` | app/src/main/java/com/example/qrpostscanner/MainActivity.kt:157 | the header reads back as the four column names |
| `CsvRead.ReadRow` | app/src/main/java/com/example/qrpostscanner/MainActivity.kt:159-163 | a row reads back as the record's code, timestamp and coordinate texts, an absent coordinate as the empty field |
| `CsvRead.ReadRows` | app/src/main/java/com/example/qrpostscanner/MainActivity.kt:158-163 | the rows of a list read back as the field rows of its records, oldest first |
| `CsvRead.ReadExport` | app/src/main/java/com/example/qrpostscanner/MainActivity.kt:157-164 | the written text reads back as the column names followed by the field rows of the records, oldest first |
| `CsvRead.CsvRoundTrip` | app/src/main/java/com/example/qrpostscanner/MainActivity.kt:157-164 | reading the written text gives `|records| + 1` rows: the column names, then every record's exact field values oldest first |
| `CsvRead.SplitText` | app/src/main/java/com/example/qrpostscanner/MainActivity.kt:157-163 | splitting the written text at line feeds gives back the lines when none holds a line feed |
| `CsvRead.OneLinePerRecord` | app/src/main/java/com/example/qrpostscanner/MainActivity.kt:157-164 | while no code holds a line feed, a line-by-line reader sees the header and exactly one line per record |
| `CsvRead.LineFeedInCodeSplitsRow` | app/src/main/java/com/example/qrpostscanner/MainActivity.kt:161-163 | a code holding a line feed is not escaped for line-by-line readers: one record's export splits into three lines, its quoted code cut in two |

## Left out

- Camera pipeline (`startCamera`, the keep-only-latest backpressure, the executor) and the
  barcode analyser: wrappers over the camera and barcode libraries. The analyser forwards only
  non-blank values; `OnQrScanned` accepts any code, as `onQrScanned` itself does not check.
- Location service: the asynchronous request is replaced by its outcome, `LocationReply`, given
  to `OnQrScanned`.
- Activity.ScanLog.OnQrScanned: acceptance and insertion of the record are one step. In the
  source the record is added in the location callback, possibly on another thread, so two
  accepted scans whose replies arrive out of order can end up in the list out of order; calls are
  modelled as serialized and that interleaving is not captured.
- Activity.ScanLog.OnQrScanned: `now` and `lastTime` are unbounded integers; the 64-bit wrap of
  `now - lastTime` on a `Long` is not modelled.
- `@Volatile` on `lastQr` and `lastTime`, and the unsynchronised mutation of `records`:
  concurrency is out of scope.
- `isoUtc` (`SimpleDateFormat`) and `Double.toString`: library formatting, taken as the
  parameters `isoUtc` and `show`. Latitude and longitude are `real`s rather than IEEE doubles.
- CsvExport.Cell: the empty-column-means-no-fix property assumes the number formatter never
  prints empty text, which `Double.toString` guarantees but the model cannot see.
- CsvRead.CsvRoundTrip: assumes the timestamp and coordinate texts hold no comma, quote or line
  feed, which the library formatters guarantee but the model cannot see.
- CsvRead.OneLinePerRecord: assumes the timestamp and coordinate texts hold no line feed, which
  the library formatters guarantee but the model cannot see.
- File I/O of `writeCsv` (`openOutputStream`, the UTF-8 writer, the exception handler and its
  toast), the file name with its local-time stamp, and the export button: only the written
  lines and text are modelled.
- Permissions, toasts, activity-result launchers, `onDestroy` and `ScansAdapter` (RecyclerView
  display, `%.6f` float formatting): Android UI and lifecycle.
