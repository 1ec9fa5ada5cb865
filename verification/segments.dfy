/**
 * The transcript segment that flows through the pipeline. Whisper returns
 * segments as dictionaries whose `start` and `end` are float seconds; here
 * they are whole microseconds, the resolution of Python's `timedelta`.
 */
module Segments {

  datatype Segment = Segment(start: int, end: int, text: string)

  /** Two segment lists carry the same timestamps, position by position. */
  predicate SameTiming(a: seq<Segment>, b: seq<Segment>) {
    |a| == |b| && forall i :: 0 <= i < |a| ==> a[i].start == b[i].start && a[i].end == b[i].end
  }
}
