/**
 * The pairing loop: each selected FULL time is paired with the earliest
 * selected EMPTY time after it, unless another selected FULL time comes first.
 */
module Matcher {
  import opened Options
  import opened Sequences
  import opened Telemetry
  import opened Integrator

  /** A discharge segment, from a FULL event time to an EMPTY event time. */
  datatype Span = Span(startTime: int, endTime: int)

  /** One row of `filtered_capacities`. */
  datatype CapacityResult = CapacityResult(startTime: int, endTime: int, capacity: real)

  /** The times in a column that lie strictly after `t`, in list order. */
  function Later(ts: seq<int>, t: int): (r: seq<int>)
    ensures forall u :: u in r <==> u in ts && u > t
  {
    Filter(ts, u => u > t)
  }

  /** The smallest time of a non-empty column. */
  function Min(ts: seq<int>): (m: int)
    requires ts != []
    ensures m in ts
    ensures forall u :: u in ts ==> m <= u
  {
    if |ts| == 1 then ts[0]
    else
      var m := Min(ts[1..]);
      assert ts == [ts[0]] + ts[1..];
      if ts[0] <= m then ts[0] else m
  }

  /** The decision the loop body takes for a FULL event at time `s`. */
  function SpanFrom(full: seq<int>, empty: seq<int>, s: int): (r: Option<Span>)
    ensures r.Some? ==> r.value.startTime == s
  {
    var endTimeCandidates := Later(empty, s);
    if endTimeCandidates == [] then None
    else
      var endTime := Min(endTimeCandidates);
      var nextMax := Later(full, s);
      if nextMax == [] || endTime < Min(nextMax) then Some(Span(s, endTime)) else None
  }

  /**
   * An emitted segment ends at the earliest EMPTY time after its start, and no
   * FULL time lies in `(start, end]`.
   */
  lemma SpanFromSound(full: seq<int>, empty: seq<int>, s: int)
    requires SpanFrom(full, empty, s).Some?
    ensures var p := SpanFrom(full, empty, s).value;
      && s < p.endTime && p.endTime in empty
      && (forall e :: e in empty && s < e ==> p.endTime <= e)
      && (forall f :: f in full && s < f ==> p.endTime < f)
  {
  }

  /**
   * No segment is emitted for `s` exactly when no EMPTY time follows `s`, or some
   * FULL time after `s` comes no later than every EMPTY time after `s`.
   */
  lemma SpanFromNone(full: seq<int>, empty: seq<int>, s: int)
    ensures SpanFrom(full, empty, s).None? <==>
      (forall e :: e in empty ==> e <= s) ||
      (exists f :: f in full && s < f && forall e :: e in empty && s < e ==> f <= e)
  {
    var endTimeCandidates := Later(empty, s);
    var nextMax := Later(full, s);
    if endTimeCandidates != [] && nextMax != [] {
      var f := Min(nextMax);
      if Min(endTimeCandidates) >= f {
        assert f in full && s < f && forall e :: e in empty && s < e ==> f <= e;
      }
    }
  }

  /** The decision for every FULL entry, in list order. */
  function Decisions(full: seq<int>, empty: seq<int>): (ds: seq<Option<Span>>)
    ensures |ds| == |full|
  {
    seq(|full|, i requires 0 <= i < |full| => SpanFrom(full, empty, full[i]))
  }

  /** The values of the `Some` entries, in order. */
  function Somes<T>(ds: seq<Option<T>>): seq<T> {
    if ds == [] then []
    else (match ds[0] case Some(p) => [p] case None => []) + Somes(ds[1..])
  }

  /**
   * All segments the pairing loop emits, in the order of the FULL list: at most
   * one per FULL entry, each from a FULL time to a strictly later EMPTY time.
   */
  function Matches(full: seq<int>, empty: seq<int>): (r: seq<Span>)
    ensures |r| <= |full|
    ensures forall p :: p in r ==> p.startTime in full && p.endTime in empty && p.startTime < p.endTime
  {
    DecidedSpans(full, empty);
    Somes(Decisions(full, empty))
  }

  /** No more values are kept than there are entries. */
  lemma {:induction false} SomesLength<T>(ds: seq<Option<T>>)
    ensures |Somes(ds)| <= |ds|
  {
    if ds != [] {
      SomesLength(ds[1..]);
    }
  }

  /** Every decided segment runs from a FULL entry to a strictly later EMPTY time. */
  lemma DecidedSpans(full: seq<int>, empty: seq<int>)
    ensures |Somes(Decisions(full, empty))| <= |full|
    ensures forall p :: p in Somes(Decisions(full, empty)) ==>
      p.startTime in full && p.endTime in empty && p.startTime < p.endTime
  {
    var ds := Decisions(full, empty);
    SomesLength(ds);
    forall p: Span | p in Somes(ds)
      ensures p.startTime in full && p.endTime in empty && p.startTime < p.endTime
    {
      SomesMembers(ds, p);
      var i :| 0 <= i < |ds| && ds[i] == Some(p);
      SpanFromSound(full, empty, full[i]);
    }
  }

  function Starts(ps: seq<Span>): seq<int> {
    seq(|ps|, k requires 0 <= k < |ps| => ps[k].startTime)
  }

  /** The segments of result rows, dropping their capacities. */
  function Spans(rs: seq<CapacityResult>): seq<Span> {
    if rs == [] then [] else Spans(rs[..|rs| - 1]) + [Span(rs[|rs| - 1].startTime, rs[|rs| - 1].endTime)]
  }

  /** Peeling the entry at position `i` off the suffix from `i`. */
  lemma SomesStep<T>(ds: seq<Option<T>>, i: nat)
    requires i < |ds|
    ensures Somes(ds[i..]) == (match ds[i] case Some(p) => [p] case None => []) + Somes(ds[i + 1..])
  {
    assert ds[i..][1..] == ds[i + 1..];
  }

  /**
   * One iteration of the loop: when the segments emitted before entry `i` and those
   * still to come make up all matches, so do the emitted ones grown by the decision
   * for entry `i` and those still to come after it.
   */
  lemma MatchesStep(full: seq<int>, empty: seq<int>, i: nat, emitted: seq<Span>)
    requires i < |full|
    ensures var ds, d := Decisions(full, empty), SpanFrom(full, empty, full[i]);
      emitted + Somes(ds[i..]) == Somes(ds) ==>
      (if d.Some? then emitted + [d.value] else emitted) + Somes(ds[i + 1..]) == Somes(ds)
  {
    var ds, d := Decisions(full, empty), SpanFrom(full, empty, full[i]);
    SomesStep(ds, i);
    assert ds[i] == d;
    var rest := Somes(ds[i + 1..]);
    if d.Some? {
      calc {
        emitted + [d.value] + rest;
        emitted + ([d.value] + rest);
        emitted + Somes(ds[i..]);
      }
    } else {
      assert Somes(ds[i..]) == rest;
    }
  }

  /** A value is kept exactly when it is the payload of some `Some` entry. */
  lemma {:induction false} SomesMembers<T>(ds: seq<Option<T>>, x: T)
    ensures x in Somes(ds) <==> Some(x) in ds
  {
    if ds != [] {
      SomesMembers(ds[1..], x);
      assert ds == [ds[0]] + ds[1..];
    }
  }

  /** When the `Some` entry at position `i` starts at `ks[i]`, the start times of the kept values are a subsequence of `ks`. */
  lemma {:induction false} SomesOrdered(ds: seq<Option<Span>>, ks: seq<int>)
    requires |ds| == |ks|
    requires forall i :: 0 <= i < |ds| && ds[i].Some? ==> ds[i].value.startTime == ks[i]
    ensures IsSubsequence(Starts(Somes(ds)), ks)
  {
    if ds != [] {
      SomesOrdered(ds[1..], ks[1..]);
      var rest := Somes(ds[1..]);
      match ds[0]
      case Some(p) =>
        assert Starts([p] + rest) == [ks[0]] + Starts(rest);
      case None =>
        assert Somes(ds) == rest;
    }
  }

  /** Every emitted segment starts at a selected FULL time and is the decision taken for it. */
  lemma MatchesSound(full: seq<int>, empty: seq<int>, p: Span)
    requires p in Matches(full, empty)
    ensures p.startTime in full && SpanFrom(full, empty, p.startTime) == Some(p)
  {
    var ds := Decisions(full, empty);
    SomesMembers(ds, p);
    var i :| 0 <= i < |ds| && ds[i] == Some(p);
  }

  /** Every FULL entry whose decision is a segment contributes that segment. */
  lemma MatchesComplete(full: seq<int>, empty: seq<int>, j: nat)
    requires j < |full| && SpanFrom(full, empty, full[j]).Some?
    ensures SpanFrom(full, empty, full[j]).value in Matches(full, empty)
  {
    var ds := Decisions(full, empty);
    assert ds[j] == SpanFrom(full, empty, full[j]);
    SomesMembers(ds, ds[j].value);
  }

  /**
   * Segments come out in the order of the FULL list, at most one per entry:
   * their start times form a subsequence of the FULL times.
   */
  lemma MatchesOrdered(full: seq<int>, empty: seq<int>)
    ensures IsSubsequence(Starts(Matches(full, empty)), full)
    ensures |Matches(full, empty)| <= |full|
  {
    SomesOrdered(Decisions(full, empty), full);
    SubsequenceMembers(Starts(Matches(full, empty)), full);
  }

  /** With no EMPTY time after any FULL time, no segment is emitted. */
  lemma NoLaterEmptyNoSegments(full: seq<int>, empty: seq<int>)
    requires forall f, e :: f in full && e in empty ==> e <= f
    ensures Matches(full, empty) == []
  {
    if Matches(full, empty) != [] {
      var p := Matches(full, empty)[0];
      MatchesSound(full, empty, p);
      SpanFromSound(full, empty, p.startTime);
    }
  }

  /**
   * The pairing loop as the script runs it. A frame built from an empty list
   * has no time column, so when no EMPTY event was selected, the first
   * iteration's lookup of that column raises KeyError; `None` stands for that failure.
   */
  function PairingAsWritten(full: seq<int>, empty: seq<int>): (r: Option<seq<Span>>)
    ensures r.None? <==> full != [] && empty == []
    ensures r.Some? ==> r.value == Matches(full, empty)
  {
    if full != [] && empty == [] then None else Some(Matches(full, empty))
  }

  /**
   * With FULL events but no EMPTY event, the loop as written fails, although
   * no segment qualifies and the intended outcome is an empty table.
   */
  lemma PairingAsWrittenRaises(full: seq<int>, empty: seq<int>)
    requires full != [] && empty == []
    ensures PairingAsWritten(full, empty) == None
    ensures Matches(full, empty) == []
  {
    NoLaterEmptyNoSegments(full, empty);
  }

  /**
   * The loop over the selected FULL times: for each, the decision of `SpanFrom`,
   * and for each segment emitted, its capacity over the dataset slice.
   */
  method FilterCapacities(data: seq<Sample>, full: seq<int>, empty: seq<int>, simpson: Quadrature)
    returns (results: seq<CapacityResult>)
    requires forall f :: f in full ==> Observed(data, f)
    ensures Spans(results) == Matches(full, empty)
    ensures forall r :: r in results ==> r.startTime in full && r.endTime in empty && r.startTime < r.endTime
    ensures forall r :: r in results ==> r.capacity == CapacityBetween(data, r.startTime, r.endTime, simpson)
  {
    results := [];
    assert Decisions(full, empty)[0..] == Decisions(full, empty);
    for i := 0 to |full|
      invariant Spans(results) + Somes(Decisions(full, empty)[i..]) == Somes(Decisions(full, empty))
      invariant forall r :: r in results ==> r.startTime in full && r.endTime in empty && r.startTime < r.endTime
      invariant forall r :: r in results ==> r.capacity == CapacityBetween(data, r.startTime, r.endTime, simpson)
    {
      MatchesStep(full, empty, i, Spans(results));
      var startTime := full[i];
      var decision := SpanFrom(full, empty, startTime);
      if decision.Some? {
        var endTime := decision.value.endTime;
        assert startTime < endTime && endTime in empty by {
          SpanFromSound(full, empty, startTime);
        }
        var capacity := CapacityBetween(data, startTime, endTime, simpson);
        var row := CapacityResult(startTime, endTime, capacity);
        assert (results + [row])[..|results|] == results;
        results := results + [row];
      }
    }
    assert Decisions(full, empty)[|full|..] == [];
  }
}
