/**
 * The script's main line: classify, cluster and reduce the FULL and EMPTY
 * candidates, then pair them and integrate each discharge segment.
 */
module Pipeline {
  import opened Options
  import opened Sequences
  import opened Telemetry
  import opened Detector
  import opened Grouper
  import opened Selector
  import opened Integrator
  import opened Matcher

  /** Candidates closer than one hour belong to the same event, in milliseconds. */
  const Gap: int := 60 * 60 * 1000

  /** Some row of `data` at time `t` passes the 100 % SoC mask. */
  predicate FullEventAt(data: seq<Sample>, t: int) {
    exists x :: x in data && x.time == t && IsFull(x)
  }

  /** Some row of `data` at time `t` passes the 0 % SoC mask. */
  predicate EmptyEventAt(data: seq<Sample>, t: int) {
    exists x :: x in data && x.time == t && IsEmpty(x)
  }

  /**
   * The segments the script pairs, as one expression over the dataset: the
   * candidates of each class, clustered with `Gap`, reduced to their
   * representatives, and paired by their `Time` columns.
   */
  function PairedSpans(data: seq<Sample>): (r: seq<Span>)
    ensures |r| <= |Clusters(FullCandidates(data), Gap)|
    ensures forall p :: p in r ==>
      p.startTime < p.endTime && FullEventAt(data, p.startTime) && EmptyEventAt(data, p.endTime)
  {
    var full, empty := FullCandidates(data), EmptyCandidates(data);
    ClustersIsClustering(full, Gap);
    ClustersIsClustering(empty, Gap);
    SelectedEvents(data, Clusters(full, Gap), Clusters(empty, Gap));
    Matches(Times(Representatives(Clusters(full, Gap), true)), Times(Representatives(Clusters(empty, Gap), false)))
  }

  /** The time of every representative of a clustering of the FULL (EMPTY) candidates is a FULL (EMPTY) event of the data. */
  lemma SelectedEvents(data: seq<Sample>, groups100: seq<seq<Sample>>, groups0: seq<seq<Sample>>)
    requires IsClustering(FullCandidates(data), Gap, groups100)
    requires IsClustering(EmptyCandidates(data), Gap, groups0)
    ensures forall t :: t in Times(Representatives(groups100, true)) ==> FullEventAt(data, t)
    ensures forall t :: t in Times(Representatives(groups0, false)) ==> EmptyEventAt(data, t)
  {
    var selected100, selected0 := Representatives(groups100, true), Representatives(groups0, false);
    SelectedAreCandidates(FullCandidates(data), groups100, selected100);
    SelectedAreCandidates(EmptyCandidates(data), groups0, selected0);
    forall t | t in Times(selected100) ensures FullEventAt(data, t) {
      TimesObserved(selected100, t);
    }
    forall t | t in Times(selected0) ensures EmptyEventAt(data, t) {
      TimesObserved(selected0, t);
    }
  }

  /** Every representative is one of the candidates that were clustered. */
  lemma SelectedAreCandidates(candidates: seq<Sample>, groups: seq<seq<Sample>>, selected: seq<Sample>)
    requires Concat(groups) == candidates && |selected| == |groups|
    requires forall k :: 0 <= k < |groups| ==> selected[k] in groups[k]
    ensures forall x :: x in selected ==> x in candidates
  {
    forall x | x in selected ensures x in candidates {
      var k :| 0 <= k < |selected| && selected[k] == x;
      MemberOfConcat(groups, k, x);
    }
  }

  /**
   * Lines 64-100 of the script: every capacity row it produces spans a FULL row
   * of the dataset to a strictly later EMPTY row, and carries the quadrature
   * over the rows between them.
   */
  method EstimateCapacities(data: seq<Sample>, simpson: Quadrature) returns (results: seq<CapacityResult>)
    ensures Spans(results) == PairedSpans(data)
    ensures forall r :: r in results ==> r.startTime < r.endTime
    ensures forall r :: r in results ==> FullEventAt(data, r.startTime) && EmptyEventAt(data, r.endTime)
    ensures forall r :: r in results ==> Observed(data, r.startTime)
    ensures forall r :: r in results ==> r.capacity == CapacityBetween(data, r.startTime, r.endTime, simpson)
  {
    var times100All := FullCandidates(data);
    var times0All := EmptyCandidates(data);

    var groups100 := GroupPoints(times100All, Gap);
    var selected100 := SelectExtremePoints(groups100, true);
    var groups0 := GroupPoints(times0All, Gap);
    var selected0 := SelectExtremePoints(groups0, false);

    SelectedEvents(data, groups100, groups0);
    var fullTimes, emptyTimes := Times(selected100), Times(selected0);
    results := FilterCapacities(data, fullTimes, emptyTimes, simpson);
  }

  /**
   * A worked example: two FULL rows half an hour apart at 56 V, two EMPTY rows
   * ten minutes apart at 46 V two hours later.
   */
  const ScenarioLog: seq<Sample> := [
    Sample(0, 56.0, 0.5), Sample(1800000, 56.0, 0.5),
    Sample(7200000, 46.0, -0.1), Sample(7800000, 46.0, 0.0)]

  /** The 100 % SoC mask keeps the first two rows of the example. */
  lemma ScenarioFullCandidates()
    ensures FullCandidates(ScenarioLog) == ScenarioLog[..2]
  {
    var x0, x1, x2, x3 := ScenarioLog[0], ScenarioLog[1], ScenarioLog[2], ScenarioLog[3];
    assert [x3][1..] == [] && [x2, x3][1..] == [x3] && [x1, x2, x3][1..] == [x2, x3];
    assert ScenarioLog == [x0, x1, x2, x3] && ScenarioLog[1..] == [x1, x2, x3];
    assert Filter([x3], IsFull) == [];
    assert Filter([x2, x3], IsFull) == [];
    assert Filter([x1, x2, x3], IsFull) == [x1];
  }

  /** The 0 % SoC mask keeps the last two rows of the example. */
  lemma ScenarioEmptyCandidates()
    ensures EmptyCandidates(ScenarioLog) == ScenarioLog[2..]
  {
    var x0, x1, x2, x3 := ScenarioLog[0], ScenarioLog[1], ScenarioLog[2], ScenarioLog[3];
    assert [x3][1..] == [] && [x2, x3][1..] == [x3] && [x1, x2, x3][1..] == [x2, x3];
    assert ScenarioLog == [x0, x1, x2, x3] && ScenarioLog[1..] == [x1, x2, x3];
    assert Filter([x3], IsEmpty) == [x3];
    assert Filter([x2, x3], IsEmpty) == [x2, x3];
    assert Filter([x1, x2, x3], IsEmpty) == [x2, x3];
  }

  lemma ScenarioClusters()
    ensures Clusters(ScenarioLog[..2], Gap) == [ScenarioLog[..2]]
    ensures Clusters(ScenarioLog[2..], Gap) == [ScenarioLog[2..]]
  {
    var x0, x1, x2, x3 := ScenarioLog[0], ScenarioLog[1], ScenarioLog[2], ScenarioLog[3];
    ClustersSnoc([], x0, Gap);
    ClustersSnoc([x0], x1, Gap);
    assert [] + [x0] == [x0] && [x0] + [x1] == ScenarioLog[..2];
    ClustersSnoc([], x2, Gap);
    ClustersSnoc([x2], x3, Gap);
    assert [] + [x2] == [x2] && [x2] + [x3] == ScenarioLog[2..];
  }

  /** Ties go to the earlier row: the representatives are the rows at 0 and at 2 h. */
  lemma ScenarioRepresentatives()
    ensures Times(Representatives([ScenarioLog[..2]], true)) == [0]
    ensures Times(Representatives([ScenarioLog[2..]], false)) == [7200000]
  {
    assert ExtremeIndex(ScenarioLog[..2], true) == 0;
    assert ExtremeIndex(ScenarioLog[2..], false) == 0;
  }

  /** The FULL event at 0 is paired with the EMPTY event at 2 h. */
  lemma ScenarioMatches()
    ensures Matches([0], [7200000]) == [Span(0, 7200000)]
  {
    assert Later([7200000], 0) == [7200000];
    assert Later([0], 0) == [];
    assert SpanFrom([0], [7200000], 0) == Some(Span(0, 7200000));
    assert Decisions([0], [7200000]) == [Some(Span(0, 7200000))];
  }

  /** Each pair of rows merges into one event, and one segment from 0 to 2 h results. */
  lemma DischargeScenario()
    ensures PairedSpans(ScenarioLog) == [Span(0, 7200000)]
  {
    ScenarioFullCandidates();
    ScenarioEmptyCandidates();
    ScenarioClusters();
    ScenarioRepresentatives();
    ScenarioMatches();
  }
}
