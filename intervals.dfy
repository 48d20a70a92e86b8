/** Time windows of bookings. An appointment occupies the half-open interval [start, end) of integer
    instants (milliseconds, as JavaScript Date values compare). */
module Intervals {

  /** The overlap test of app.js:287 for a new window [start, end) against an existing one
      [otherStart, otherEnd): `newStartTime < appt.endTime && newEndTime > appt.startTime`. */
  predicate Overlaps(start: int, end: int, otherStart: int, otherEnd: int)
  {
    start < otherEnd && end > otherStart
  }

  /** Instant `t` lies in the half-open window [start, end). */
  predicate Covers(start: int, end: int, t: int)
  {
    start <= t < end
  }

  /** On non-empty windows the overlap test means exactly that some instant lies in both. */
  lemma OverlapsIffSharedInstant(start: int, end: int, otherStart: int, otherEnd: int)
    requires start < end && otherStart < otherEnd
    ensures Overlaps(start, end, otherStart, otherEnd)
            <==> exists t :: Covers(start, end, t) && Covers(otherStart, otherEnd, t)
  {
    if Overlaps(start, end, otherStart, otherEnd) {
      var t := if start < otherStart then otherStart else start;
      assert Covers(start, end, t) && Covers(otherStart, otherEnd, t);
    }
  }

  /** The test does not depend on which window is the new one. */
  lemma OverlapsSymmetric(start: int, end: int, otherStart: int, otherEnd: int)
    ensures Overlaps(start, end, otherStart, otherEnd) <==> Overlaps(otherStart, otherEnd, start, end)
  {
  }

  /** Windows that only touch (one ends when the other starts) do not overlap. */
  lemma TouchingWindowsDoNotOverlap(start: int, end: int, later: int)
    ensures !Overlaps(start, end, end, later) && !Overlaps(end, later, start, end)
  {
  }

  /** A non-empty window overlaps every window that contains it. */
  lemma ContainedWindowOverlaps(start: int, end: int, otherStart: int, otherEnd: int)
    requires otherStart <= start < end <= otherEnd
    ensures Overlaps(start, end, otherStart, otherEnd)
  {
  }
}
