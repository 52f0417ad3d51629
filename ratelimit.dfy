/**
 * The debounce rule used twice: by the editor before it asks for a
 * completion (0.5 s) and by the engine before it calls the provider
 * (completion_delay_ms). Each keeps its own stamp of the last call it let
 * through. Times are integers in milliseconds.
 */
module RateLimit {
  /** A call at now passes when at least delay has elapsed since the last call let through. */
  predicate Admits(last: int, now: int, delay: int)
  {
    !(now - last < delay)
  }

  /** The stamp after a call at now: moved to now only when the call passes. */
  function Stamp(last: int, now: int, delay: int): int
  {
    if Admits(last, now, delay) then now else last
  }

  /** The calls let through among calls at the times ts, in order, starting from stamp last. */
  function Admitted(last: int, ts: seq<int>, delay: int): (r: seq<int>)
    ensures |r| <= |ts|
    ensures forall i :: 0 <= i < |r| ==> r[i] in ts
    decreases |ts|
  {
    if ts == [] then []
    else if Admits(last, ts[0], delay) then [ts[0]] + Admitted(ts[0], ts[1..], delay)
    else Admitted(last, ts[1..], delay)
  }

  /** The stamp after the calls at ts. */
  function FinalStamp(last: int, ts: seq<int>, delay: int): int
    decreases |ts|
  {
    if ts == [] then last else FinalStamp(Stamp(last, ts[0], delay), ts[1..], delay)
  }

  /** After a call is let through, a second call less than delay later is refused. */
  lemma SecondCallRefused(last: int, t1: int, t2: int, delay: int)
    requires Admits(last, t1, delay) && t2 - t1 < delay
    ensures !Admits(Stamp(last, t1, delay), t2, delay)
  {
  }

  /**
   * Any two consecutive calls let through are at least delay apart, and
   * the first is at least delay after the starting stamp: the gate never
   * lets through two calls closer than delay, whatever the other calls.
   */
  lemma {:induction false} AdmittedSpaced(last: int, ts: seq<int>, delay: int)
    ensures var r := Admitted(last, ts, delay);
            (r != [] ==> r[0] - last >= delay) &&
            forall i :: 0 <= i < |r| - 1 ==> r[i + 1] - r[i] >= delay
    decreases |ts|
  {
    if ts != [] {
      if Admits(last, ts[0], delay) {
        AdmittedSpaced(ts[0], ts[1..], delay);
      } else {
        AdmittedSpaced(last, ts[1..], delay);
      }
    }
  }

  /** The final stamp is the last call let through, or the starting stamp when none was. */
  lemma {:induction false} FinalStampIsLastAdmitted(last: int, ts: seq<int>, delay: int)
    ensures var r := Admitted(last, ts, delay);
            FinalStamp(last, ts, delay) == if r == [] then last else r[|r| - 1]
    decreases |ts|
  {
    if ts != [] {
      FinalStampIsLastAdmitted(Stamp(last, ts[0], delay), ts[1..], delay);
    }
  }
}
