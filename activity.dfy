/**
 * The scan-handling state of `MainActivity` (MainActivity.kt): the duplicate filter's two fields,
 * the newest-first record list, and the three operations on them (a decoded code arrives, the
 * list is cleared, the list is exported as CSV). The clock, the location service, the timestamp
 * formatter and the number formatter are inputs to the operations.
 */
module Activity {
  import opened Options
  import opened ScanRecords
  import opened Dedup
  import opened CsvExport

  /** How the one-shot location request of `getCurrentLocation` ends. */
  datatype LocationReply =
    | PermissionMissing                            // fine-location permission not granted
    | Fix(latitude: Degrees, longitude: Degrees)   // the service returned a location
    | NoFix                                        // the service returned null
    | LookupFailed                                 // the request failed

  /**
   * The latitude and longitude handed to the callback: both present for a fix, both absent for
   * every other outcome.
   */
  function CurrentLocation(reply: LocationReply): (r: (Option<Degrees>, Option<Degrees>))
    ensures r.0.Some? <==> r.1.Some?
    ensures r.0.Some? <==> reply.Fix?
    ensures reply.Fix? ==> r.0.value == reply.latitude && r.1.value == reply.longitude
  {
    match reply
    case Fix(lat, lon) => (Some(lat), Some(lon))
    case _ => (None, None)
  }

  /** The record built for an accepted scan: code, acceptance time, the location reply's coordinates. */
  function NewRecord(qr: string, timestamp: string, reply: LocationReply): (r: ScanRecord)
    ensures r.qr == qr && r.timestampUtcIso == timestamp
    ensures HasBothOrNeither(r)
    ensures (r.latitude, r.longitude) == CurrentLocation(reply)
  {
    var (lat, lon) := CurrentLocation(reply);
    ScanRecord(qr, timestamp, lat, lon)
  }

  class ScanLog {
    /** The last accepted code; none before the first scan. */
    var lastQr: Option<string>
    /** When the last accepted code was accepted, in milliseconds. */
    var lastTime: int
    /** The accepted scans, newest first. */
    var records: seq<ScanRecord>

    /** Every record carries both coordinates or neither. */
    ghost predicate Valid()
      reads this
    {
      forall r :: r in records ==> HasBothOrNeither(r)
    }

    /** The duplicate filter's memory. */
    function Memory(): DedupState
      reads this
    {
      DedupState(lastQr, lastTime)
    }

    constructor ()
      ensures Valid()
      ensures Memory() == Initial && records == []
    {
      lastQr := None;
      lastTime := 0;
      records := [];
    }

    /**
     * A decoded code arrives at time `now` (`onQrScanned`). A repeat of the last accepted code
     * within 2000 ms is dropped and nothing changes. Any other scan becomes the last accepted one
     * and its record, stamped with `now` and carrying the location reply's coordinates, is put in
     * front of the list.
     */
    method OnQrScanned(qr: string, now: int, reply: LocationReply, isoUtc: int -> string)
      returns (accepted: bool)
      requires Valid()
      modifies this
      ensures Valid()
      ensures accepted <==> !IsRepeat(old(Memory()), qr, now)
      ensures Memory() == Admit(old(Memory()), qr, now)
      ensures accepted ==> lastQr == Some(qr) && lastTime == now
      ensures accepted ==> records == [NewRecord(qr, isoUtc(now), reply)] + old(records)
      ensures !accepted ==> Memory() == old(Memory()) && records == old(records)
    {
      if lastQr == Some(qr) && now - lastTime < WindowMs {
        return false;
      }
      lastQr := Some(qr);
      lastTime := now;
      var (lat, lon) := CurrentLocation(reply);
      var ts := isoUtc(now);
      records := [ScanRecord(qr, ts, lat, lon)] + records;
      accepted := true;
    }

    /** The clear button: the list is emptied; the duplicate filter keeps its memory. */
    method Clear()
      requires Valid()
      modifies this`records
      ensures Valid()
      ensures records == []
      ensures Memory() == old(Memory())
    {
      records := [];
    }

    /**
     * The lines `writeCsv` writes: the header, then one row per record, walking the list from its
     * end (the oldest record) to its front. The list itself is left as it is.
     */
    method ExportCsv(show: Degrees -> string) returns (lines: seq<string>)
      ensures lines == CsvLines(records, show)
    {
      lines := [Header];
      var i := |records|;
      while i > 0
        invariant 0 <= i <= |records|
        invariant lines == [Header] + Rows(records[i..], show)
      {
        i := i - 1;
        assert records[i..][1..] == records[i + 1..];
        lines := lines + [Row(records[i], show)];
      }
      assert records[0..] == records;
    }
  }

  /**
   * A session from start: code "A" at 0 ms is recorded, its repeat at 1500 ms is dropped, and at
   * 2500 ms it is recorded again; the list then holds the two records, newest first.
   */
  method ScanSession(reply: LocationReply, isoUtc: int -> string) returns (log: ScanLog)
    ensures log.records == [NewRecord("A", isoUtc(2500), reply), NewRecord("A", isoUtc(0), reply)]
  {
    log := new ScanLog();
    var first := log.OnQrScanned("A", 0, reply, isoUtc);
    var second := log.OnQrScanned("A", 1500, reply, isoUtc);
    var third := log.OnQrScanned("A", 2500, reply, isoUtc);
    assert first && !second && third;
  }
}
