/**
 * The duplicate-scan filter of `onQrScanned` (MainActivity.kt): a decoded code is dropped when it
 * equals the last accepted code and arrives less than two seconds after it.
 */
module Dedup {
  import opened Options

  /** The suppression window, in milliseconds. */
  const WindowMs: int := 2000

  /** The filter's memory: the last accepted code (`lastQr`) and its acceptance time (`lastTime`). */
  datatype DedupState = DedupState(lastQr: Option<string>, lastTime: int)

  /** The memory when the activity starts: no code yet, time 0. */
  const Initial: DedupState := DedupState(None, 0)

  /**
   * A scan is a repeat, and is dropped, when it equals the last accepted code inside the window.
   * So nothing is a repeat before the first acceptance, a code other than the last accepted one
   * never is, and a repeat arrives less than 2000 ms after the last acceptance.
   */
  predicate IsRepeat(d: DedupState, qr: string, now: int): (repeat: bool)
    ensures d.lastQr == None ==> !repeat
    ensures d.lastQr.Some? && d.lastQr.value != qr ==> !repeat
    ensures repeat ==> now - d.lastTime < WindowMs
  {
    d.lastQr == Some(qr) && now - d.lastTime < WindowMs
  }

  /**
   * The memory after a scan. A different code is accepted at any time, the same code once 2000 ms
   * or more have passed; an accepted scan is remembered with its own time, and a dropped one
   * changes nothing.
   */
  function Admit(d: DedupState, qr: string, now: int): (d': DedupState)
    ensures d.lastQr != Some(qr) ==> d' == DedupState(Some(qr), now)
    ensures d.lastQr == Some(qr) && now - d.lastTime >= WindowMs ==> d' == DedupState(Some(qr), now)
    ensures d.lastQr == Some(qr) && now - d.lastTime < WindowMs ==> d' == d
  {
    if IsRepeat(d, qr, now) then d else DedupState(Some(qr), now)
  }

  /** The first scan after start is accepted, whatever the code and the time. */
  lemma FirstScanAccepted(qr: string, now: int)
    ensures !IsRepeat(Initial, qr, now)
    ensures Admit(Initial, qr, now) == DedupState(Some(qr), now)
  {
  }

  /**
   * The window belongs to the last accepted code only: once another code `b` is accepted in
   * between, code `a` is accepted again at once. Two codes in view together, reported in turns,
   * are therefore recorded on every scan.
   */
  lemma InterleavedCodeResetsWindow(d: DedupState, a: string, b: string, t: int)
    requires a != b
    ensures !IsRepeat(Admit(Admit(d, a, t), b, t), a, t)
  {
  }

  /** `sub` is `s` with some elements left out, the others kept in their order. */
  predicate IsSubsequence(sub: seq<int>, s: seq<int>)
    decreases |s|
  {
    if sub == [] then true
    else if s == [] then false
    else (sub[0] == s[0] && IsSubsequence(sub[1..], s[1..])) || IsSubsequence(sub, s[1..])
  }

  /**
   * Of a stream of scans of the one code `qr` arriving at `times`, the times at which a scan is
   * accepted, starting from memory `d`. The result picks out some of the times, in their order.
   */
  function AcceptedTimes(d: DedupState, qr: string, times: seq<int>): (accepted: seq<int>)
    ensures |accepted| <= |times|
    ensures forall t :: t in accepted ==> t in times
    ensures IsSubsequence(accepted, times)
    decreases |times|
  {
    if times == [] then []
    else if IsRepeat(d, qr, times[0]) then AcceptedTimes(d, qr, times[1..])
    else [times[0]] + AcceptedTimes(Admit(d, qr, times[0]), qr, times[1..])
  }

  /** Consecutive elements are at least one window apart. */
  predicate SpacedByWindow(ts: seq<int>) {
    forall i :: 0 < i < |ts| ==> ts[i] - ts[i - 1] >= WindowMs
  }

  /**
   * A code held in view, with no other code scanned in between, yields a new record at most once
   * per window: accepted times are at least 2000 ms apart, and the first is at least 2000 ms after
   * the previous acceptance of the same code. The window runs from the last ACCEPTED scan, because
   * dropped repeats leave the memory alone. (Another code accepted in between resets the window:
   * see InterleavedCodeResetsWindow.)
   */
  lemma {:induction false} HeldCodeAcceptedOncePerWindow(d: DedupState, qr: string, times: seq<int>)
    ensures SpacedByWindow(AcceptedTimes(d, qr, times))
    ensures d.lastQr == Some(qr) && AcceptedTimes(d, qr, times) != [] ==>
              AcceptedTimes(d, qr, times)[0] - d.lastTime >= WindowMs
    decreases |times|
  {
    if times != [] {
      if IsRepeat(d, qr, times[0]) {
        HeldCodeAcceptedOncePerWindow(d, qr, times[1..]);
      } else {
        HeldCodeAcceptedOncePerWindow(Admit(d, qr, times[0]), qr, times[1..]);
      }
    }
  }

  /**
   * Conversely, nothing is lost that is outside the window: scans of one code that are each at
   * least 2000 ms after the one before (and after the last acceptance of that code) are all accepted.
   */
  lemma {:induction false} SpacedScansAllAccepted(d: DedupState, qr: string, times: seq<int>)
    requires SpacedByWindow(times)
    requires times != [] && d.lastQr == Some(qr) ==> times[0] - d.lastTime >= WindowMs
    ensures AcceptedTimes(d, qr, times) == times
    decreases |times|
  {
    if times != [] {
      assert !IsRepeat(d, qr, times[0]);
      var rest := times[1..];
      assert SpacedByWindow(rest) by {
        forall i | 0 < i < |rest| ensures rest[i] - rest[i - 1] >= WindowMs {
          assert rest[i] == times[i + 1] && rest[i - 1] == times[i];
        }
      }
      SpacedScansAllAccepted(Admit(d, qr, times[0]), qr, rest);
    }
  }

  /**
   * With the same code seen at 0, 1500 and 2500 ms, the scan at 2500 ms is accepted: it is 2500 ms
   * after the accepted scan at 0, although only 1000 ms after the dropped one at 1500.
   */
  lemma DroppedRepeatDoesNotExtendWindow()
    ensures AcceptedTimes(Initial, "A", [0, 1500, 2500]) == [0, 2500]
  {
  }
}
