/**
 * The data side of `calculate_capacity_between_points`: the dataset rows
 * between two event times, their elapsed time in hours, and the quadrature
 * over them.
 */
module Integrator {
  import opened Sequences
  import opened Telemetry

  const MillisPerHour: int := 1000 * 3600

  /** A quadrature rule integrating samples `y` over abscissae `x` (the script uses Simpson's rule). */
  type Quadrature = (seq<real>, seq<real>) -> real

  /** The segment of a pair: every dataset row whose time lies in `[start, end]`, in dataset order. */
  function Slice(data: seq<Sample>, start: int, end: int): (r: seq<Sample>)
    ensures forall x :: x in r <==> x in data && start <= x.time <= end
    ensures forall x {:trigger multiset(r)[x]} :: multiset(r)[x] == if start <= x.time <= end then multiset(data)[x] else 0
    ensures IsSubsequence(r, data)
  {
    var inRange := (x: Sample) => start <= x.time <= end;
    FilterIsSubsequence(data, inRange);
    Filter(data, inRange)
  }

  /** When `start` is the time of a row and `end` is not earlier, the slice is non-empty, so its first row exists. */
  lemma {:induction false} SliceNonEmpty(data: seq<Sample>, start: int, end: int)
    requires Observed(data, start) && start <= end
    ensures Slice(data, start, end) != []
  {
    var x :| x in data && x.time == start;
    assert x in Slice(data, start, end);
  }

  /** On a time-ordered log the slice is time-ordered and, when a row carries `start`, begins at `start`. */
  lemma SliceStartsAtStart(data: seq<Sample>, start: int, end: int)
    requires TimeOrdered(data) && Observed(data, start) && start <= end
    ensures TimeOrdered(Slice(data, start, end))
    ensures Slice(data, start, end) != [] && Slice(data, start, end)[0].time == start
  {
    var r := Slice(data, start, end);
    SubsequenceTimeOrdered(r, data);
    SliceNonEmpty(data, start, end);
    var x :| x in data && x.time == start;
    assert x in r;
    var i :| 0 <= i < |r| && r[i] == x;
    assert r[0].time <= r[i].time;
  }

  /** Hours elapsed at each row since the segment's first row (milliseconds divided by 3 600 000). */
  function ElapsedHours(segment: seq<Sample>): (r: seq<real>)
    requires segment != []
    ensures |r| == |segment| && r[0] == 0.0
    ensures forall i, j :: 0 <= i < |r| && 0 <= j < |r| ==>
      (r[j] - r[i]) * MillisPerHour as real == (segment[j].time - segment[i].time) as real
    ensures forall i, j :: 0 <= i < |r| && 0 <= j < |r| && segment[i].time <= segment[j].time ==> r[i] <= r[j]
  {
    seq(|segment|, i requires 0 <= i < |segment| => (segment[i].time - segment[0].time) as real / MillisPerHour as real)
  }

  /** The `battery_current` column of the segment. */
  function Currents(segment: seq<Sample>): seq<real> {
    seq(|segment|, i requires 0 <= i < |segment| => segment[i].current)
  }

  /**
   * `calculate_capacity_between_points(start, end)`: the quadrature of current over
   * elapsed hours across the slice. The source indexes the slice's first row, so a
   * row at `start` must exist.
   */
  function CapacityBetween(data: seq<Sample>, start: int, end: int, simpson: Quadrature): (r: real)
    requires Observed(data, start) && start <= end
    ensures var segment := Slice(data, start, end);
      segment != [] && r == simpson(Currents(segment), ElapsedHours(segment))
  {
    SliceNonEmpty(data, start, end);
    var segment := Slice(data, start, end);
    simpson(Currents(segment), ElapsedHours(segment))
  }
}
