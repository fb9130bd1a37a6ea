/**
 * The threshold classifier: which rows count as a 100 % state-of-charge
 * (FULL) candidate and which as a 0 % (EMPTY) candidate.
 */
module Detector {
  import opened Sequences
  import opened Telemetry

  const VoltageHighThreshold: real := 55.0  // 100 % SoC
  const VoltageLowThreshold: real := 46.5   // 0 % SoC
  const CurrentLowThreshold: real := 2.0    // low current, for both states

  /** The 100 % SoC mask: high voltage at low current. */
  predicate IsFull(x: Sample) {
    x.voltage >= VoltageHighThreshold && Abs(x.current) <= CurrentLowThreshold
  }

  /** The 0 % SoC mask: low voltage at low current. */
  predicate IsEmpty(x: Sample) {
    x.voltage <= VoltageLowThreshold && Abs(x.current) <= CurrentLowThreshold
  }

  /** The rows selected by the 100 % SoC mask, in dataset order. */
  function FullCandidates(data: seq<Sample>): (r: seq<Sample>)
    ensures forall x :: x in r <==> x in data && x.voltage >= 55.0 && -2.0 <= x.current <= 2.0
    ensures forall x {:trigger multiset(r)[x]} :: multiset(r)[x] == if x.voltage >= 55.0 && -2.0 <= x.current <= 2.0 then multiset(data)[x] else 0
    ensures IsSubsequence(r, data)
  {
    FilterIsSubsequence(data, IsFull);
    Filter(data, IsFull)
  }

  /** The rows selected by the 0 % SoC mask, in dataset order. */
  function EmptyCandidates(data: seq<Sample>): (r: seq<Sample>)
    ensures forall x :: x in r <==> x in data && x.voltage <= 46.5 && -2.0 <= x.current <= 2.0
    ensures forall x {:trigger multiset(r)[x]} :: multiset(r)[x] == if x.voltage <= 46.5 && -2.0 <= x.current <= 2.0 then multiset(data)[x] else 0
    ensures IsSubsequence(r, data)
  {
    FilterIsSubsequence(data, IsEmpty);
    Filter(data, IsEmpty)
  }

  /** Both candidate lists of a time-ordered log are time-ordered, and no row is in both. */
  lemma CandidatesTimeOrdered(data: seq<Sample>)
    requires TimeOrdered(data)
    ensures TimeOrdered(FullCandidates(data)) && TimeOrdered(EmptyCandidates(data))
    ensures forall x :: x in FullCandidates(data) ==> x !in EmptyCandidates(data)
  {
    SubsequenceTimeOrdered(FullCandidates(data), data);
    SubsequenceTimeOrdered(EmptyCandidates(data), data);
  }
}
