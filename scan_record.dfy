/** The record kept for every accepted scan (ScanRecord.kt). */
module ScanRecords {
  import opened Options

  /** A latitude or longitude in degrees. The source holds a `Double`; the model keeps its value as a real. */
  type Degrees = real

  /**
   * An accepted scan: the decoded text, the acceptance time formatted as ISO-8601 UTC, and the
   * coordinates of the location fix. It is a Kotlin data class whose four fields are all `val`,
   * so a datatype value (immutable, compared by its components) is its counterpart; coordinates
   * are `real`s rather than IEEE doubles, so NaN and signed zero are not modelled.
   * Each coordinate is nullable on its own; nothing in the type ties the two together.
   */
  datatype ScanRecord = ScanRecord(
    qr: string,
    timestampUtcIso: string,
    latitude: Option<Degrees>,
    longitude: Option<Degrees>)

  /** The pairing the callers keep: either both coordinates are present or neither is. */
  predicate HasBothOrNeither(r: ScanRecord) {
    r.latitude.Some? <==> r.longitude.Some?
  }

  /** Data-class equality: two records are equal exactly when their four components are. */
  lemma EqualIffComponentsEqual(a: ScanRecord, b: ScanRecord)
    ensures a == b <==>
      a.qr == b.qr && a.timestampUtcIso == b.timestampUtcIso &&
      a.latitude == b.latitude && a.longitude == b.longitude
  {
  }

  /** The type admits a record with only one coordinate, so the pairing is the callers' duty. */
  lemma PairingNotEnforcedByType()
    ensures exists r: ScanRecord :: !HasBothOrNeither(r)
  {
    assert !HasBothOrNeither(ScanRecord("", "", Some(0.0), None));
  }
}
