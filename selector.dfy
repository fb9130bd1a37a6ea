/**
 * `select_extreme_points`: one representative per cluster, the member of
 * highest voltage for FULL clusters and of lowest voltage for EMPTY clusters.
 */
module Selector {
  import opened Telemetry

  /** `a` replaces `b` during the scan: strictly higher voltage for a maximum, strictly lower for a minimum. */
  predicate Beats(a: Sample, b: Sample, selectMax: bool) {
    if selectMax then a.voltage > b.voltage else a.voltage < b.voltage
  }

  /**
   * The position of the member that `max(group, key=voltage)` (or `min`)
   * returns: the scan keeps the first member and replaces it only by a member
   * that beats it strictly, so ties go to the earliest member.
   */
  function ExtremeIndex(g: seq<Sample>, selectMax: bool): (k: nat)
    requires g != []
    ensures k < |g|
    ensures selectMax ==> forall j :: 0 <= j < |g| ==> g[j].voltage <= g[k].voltage
    ensures !selectMax ==> forall j :: 0 <= j < |g| ==> g[j].voltage >= g[k].voltage
    ensures selectMax ==> forall j :: 0 <= j < k ==> g[j].voltage < g[k].voltage
    ensures !selectMax ==> forall j :: 0 <= j < k ==> g[j].voltage > g[k].voltage
    decreases |g|
  {
    if |g| == 1 then 0
    else
      var k := ExtremeIndex(g[..|g| - 1], selectMax);
      if Beats(g[|g| - 1], g[k], selectMax) then |g| - 1 else k
  }

  /** The contract of `ExtremeIndex` admits one position only: an extreme voltage with no earlier tie. */
  lemma ExtremeIndexUnique(g: seq<Sample>, selectMax: bool, k: nat)
    requires k < |g|
    requires forall j :: 0 <= j < |g| ==> !Beats(g[j], g[k], selectMax)
    requires forall j :: 0 <= j < k ==> Beats(g[k], g[j], selectMax)
    ensures k == ExtremeIndex(g, selectMax)
  {
    var m := ExtremeIndex(g, selectMax);
    if k < m {
      assert Beats(g[m], g[k], selectMax);
    }
  }

  /** The representative of every cluster, in cluster order. */
  function Representatives(groups: seq<seq<Sample>>, selectMax: bool): (r: seq<Sample>)
    requires forall k :: 0 <= k < |groups| ==> groups[k] != []
    ensures |r| == |groups|
    ensures forall k :: 0 <= k < |groups| ==> r[k] in groups[k]
  {
    seq(|groups|, k requires 0 <= k < |groups| => groups[k][ExtremeIndex(groups[k], selectMax)])
  }

  /** `select_extreme_points(groups, select_max)`: the loop appending one representative per cluster. */
  method SelectExtremePoints(groups: seq<seq<Sample>>, selectMax: bool) returns (selected: seq<Sample>)
    requires forall k :: 0 <= k < |groups| ==> groups[k] != []
    ensures |selected| == |groups|
    ensures forall k :: 0 <= k < |groups| ==> selected[k] in groups[k]
    ensures forall k :: 0 <= k < |groups| ==> selected[k] == groups[k][ExtremeIndex(groups[k], selectMax)]
    ensures selected == Representatives(groups, selectMax)
  {
    selected := [];
    for k := 0 to |groups|
      invariant |selected| == k
      invariant forall j :: 0 <= j < k ==> selected[j] == groups[j][ExtremeIndex(groups[j], selectMax)]
    {
      var group := groups[k];
      selected := selected + [group[ExtremeIndex(group, selectMax)]];
    }
  }
}
