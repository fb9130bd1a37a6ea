/**
 * `group_points`: split an ordered candidate list into clusters, a candidate
 * joining the current cluster when it follows the previous candidate by at
 * most `gap` milliseconds and starting a new cluster otherwise.
 */
module Grouper {
  import opened Options
  import opened Telemetry

  function Last<T>(s: seq<T>): T
    requires s != []
  {
    s[|s| - 1]
  }

  /** The clusters laid end to end. */
  function Concat(gs: seq<seq<Sample>>): seq<Sample> {
    if gs == [] then [] else Concat(gs[..|gs| - 1]) + Last(gs)
  }

  /** Consecutive members of `g` are at most `gap` milliseconds apart. */
  predicate Chained(g: seq<Sample>, gap: int) {
    forall j :: 0 < j < |g| ==> g[j].time - g[j - 1].time <= gap
  }

  /**
   * `gs` is a clustering of `s`: the clusters, concatenated, give back `s`;
   * none is empty; inside a cluster consecutive times are at most `gap` apart;
   * between one cluster's last member and the next cluster's first they are more.
   */
  predicate IsClustering(s: seq<Sample>, gap: int, gs: seq<seq<Sample>>) {
    && Concat(gs) == s
    && (forall k :: 0 <= k < |gs| ==> gs[k] != [] && Chained(gs[k], gap))
    && (forall k :: 0 < k < |gs| ==> gs[k][0].time - Last(gs[k - 1]).time > gap)
  }

  /**
   * The one-pass fold `group_points` performs, written on prefixes: the
   * clusters of `s` are those of `s` without its last candidate, with that
   * candidate appended to the last cluster or starting a new one.
   */
  function Clusters(s: seq<Sample>, gap: int): (r: seq<seq<Sample>>)
    ensures r == [] <==> s == []
    decreases |s|
  {
    if s == [] then []
    else
      var prev := Clusters(s[..|s| - 1], gap);
      var x := Last(s);
      if |s| == 1 then [[x]]
      else if x.time - s[|s| - 2].time <= gap then prev[..|prev| - 1] + [Last(prev) + [x]]
      else prev + [[x]]
  }

  /** One step of the fold: appending candidate `x` to `s`. */
  lemma ClustersSnoc(s: seq<Sample>, x: Sample, gap: int)
    ensures var prev := Clusters(s, gap);
      Clusters(s + [x], gap) ==
        if s == [] then [[x]]
        else if x.time - Last(s).time <= gap then prev[..|prev| - 1] + [Last(prev) + [x]]
        else prev + [[x]]
  {
    assert (s + [x])[..|s|] == s;
    if s != [] {
      assert (s + [x])[|s| - 1] == Last(s);
    }
  }

  lemma ConcatSnoc(gs: seq<seq<Sample>>, g: seq<Sample>)
    ensures Concat(gs + [g]) == Concat(gs) + g
  {
    assert (gs + [g])[..|gs|] == gs;
  }

  /** Every member of a cluster is one of the clustered candidates. */
  lemma {:induction false} MemberOfConcat(gs: seq<seq<Sample>>, k: int, x: Sample)
    requires 0 <= k < |gs| && x in gs[k]
    ensures x in Concat(gs)
    decreases |gs|
  {
    if k < |gs| - 1 {
      MemberOfConcat(gs[..|gs| - 1], k, x);
    }
  }

  /** The last clustered candidate is the last member of the last cluster. */
  lemma LastOfConcat(gs: seq<seq<Sample>>)
    requires gs != [] && Last(gs) != []
    ensures Concat(gs) != [] && Last(Concat(gs)) == Last(Last(gs))
  {
  }

  /** Appending a candidate within `gap` of the last one to the last cluster keeps a clustering. */
  lemma ExtendKeepsClustering(s: seq<Sample>, gap: int, gs: seq<seq<Sample>>, x: Sample)
    requires IsClustering(s, gap, gs) && s != [] && x.time - Last(s).time <= gap
    ensures gs != [] && IsClustering(s + [x], gap, gs[..|gs| - 1] + [Last(gs) + [x]])
  {
    var p := gs[..|gs| - 1];
    var l := Last(gs);
    var r: seq<seq<Sample>> := p + [l + [x]];
    assert gs == p + [l];
    LastOfConcat(gs);
    ConcatSnoc(p, l);
    ConcatSnoc(p, l + [x]);
    forall k | 0 <= k < |r| ensures r[k] != [] && Chained(r[k], gap) {
      if k < |p| {
        assert r[k] == gs[k];
      } else {
        assert r[k] == l + [x] && gs[k] == l;
      }
    }
    forall k | 0 < k < |r| ensures r[k][0].time - Last(r[k - 1]).time > gap {
      assert r[k - 1] == gs[k - 1];
      assert r[k][0] == gs[k][0];
    }
  }

  /** Starting a new cluster with a candidate more than `gap` after the last one keeps a clustering. */
  lemma OpenKeepsClustering(s: seq<Sample>, gap: int, gs: seq<seq<Sample>>, x: Sample)
    requires IsClustering(s, gap, gs) && s != [] && x.time - Last(s).time > gap
    ensures IsClustering(s + [x], gap, gs + [[x]])
  {
    var r: seq<seq<Sample>> := gs + [[x]];
    assert gs != [] && Last(gs) != [];
    LastOfConcat(gs);
    ConcatSnoc(gs, [x]);
    forall k | 0 < k < |r| ensures r[k][0].time - Last(r[k - 1]).time > gap {
      if k < |gs| {
        assert r[k] == gs[k] && r[k - 1] == gs[k - 1];
      }
    }
  }

  /** The fold meets the clustering properties `group_points` promises. */
  lemma {:induction false} ClustersIsClustering(s: seq<Sample>, gap: int)
    ensures IsClustering(s, gap, Clusters(s, gap))
    decreases |s|
  {
    if s != [] {
      var s' := s[..|s| - 1];
      var x := Last(s);
      assert s == s' + [x];
      ClustersSnoc(s', x, gap);
      if s' == [] {
        ConcatSnoc([], [x]);
      } else {
        ClustersIsClustering(s', gap);
        if x.time - Last(s').time <= gap {
          ExtendKeepsClustering(s', gap, Clusters(s', gap), x);
        } else {
          OpenKeepsClustering(s', gap, Clusters(s', gap), x);
        }
      }
    }
  }

  /** Dropping the last candidate of a clustering whose last cluster is a singleton. */
  lemma DropSingleton(s: seq<Sample>, gap: int, gs: seq<seq<Sample>>)
    requires IsClustering(s, gap, gs) && gs != [] && |Last(gs)| == 1
    ensures IsClustering(s[..|s| - 1], gap, gs[..|gs| - 1])
    ensures |s| > 1 ==> Last(s).time - s[|s| - 2].time > gap
    ensures Last(gs) == [Last(s)]
  {
    LastOfConcat(gs);
    assert Last(gs) == [Last(Last(gs))];
    var init := gs[..|gs| - 1];
    assert gs == init + [Last(gs)];
    ConcatSnoc(init, Last(gs));
    assert Concat(init) == s[..|s| - 1];
    forall k | 0 < k < |init| ensures init[k][0].time - Last(init[k - 1]).time > gap {
      assert init[k] == gs[k] && init[k - 1] == gs[k - 1];
    }
    if |s| > 1 {
      assert init != [];
      LastOfConcat(init);
      assert Last(init) == gs[|gs| - 2];
    }
  }

  /** Dropping the last candidate of a clustering whose last cluster has more than one member. */
  lemma DropFromLonger(s: seq<Sample>, gap: int, gs: seq<seq<Sample>>)
    requires IsClustering(s, gap, gs) && gs != [] && |Last(gs)| > 1
    ensures var g := Last(gs);
      IsClustering(s[..|s| - 1], gap, gs[..|gs| - 1] + [g[..|g| - 1]])
    ensures |s| > 1 && Last(s).time - s[|s| - 2].time <= gap
    ensures Last(gs) == Last(gs)[..|Last(gs)| - 1] + [Last(s)]
  {
    LastOfConcat(gs);
    var init := gs[..|gs| - 1];
    var g := Last(gs);
    var g' := g[..|g| - 1];
    var gs' := init + [g'];
    assert gs == init + [g];
    assert g == g' + [Last(g)];
    ConcatSnoc(init, g);
    ConcatSnoc(init, g');
    assert Concat(gs') == s[..|s| - 1];
    forall k | 0 <= k < |gs'| ensures gs'[k] != [] && Chained(gs'[k], gap) {
      if k < |init| {
        assert gs'[k] == gs[k];
      } else {
        assert Chained(g, gap);
      }
    }
    forall k | 0 < k < |gs'| ensures gs'[k][0].time - Last(gs'[k - 1]).time > gap {
      assert gs'[k][0] == gs[k][0] && gs'[k - 1] == gs[k - 1];
    }
    assert s[|s| - 2] == g[|g| - 2];
    assert Chained(g, gap);
  }

  /** The clustering properties determine the clusters: any clustering of `s` is the fold's. */
  lemma {:induction false} ClusteringUnique(s: seq<Sample>, gap: int, gs: seq<seq<Sample>>)
    requires IsClustering(s, gap, gs)
    ensures gs == Clusters(s, gap)
    decreases |s|
  {
    if gs != [] {
      assert Last(gs) != [] && s != [];
      var s' := s[..|s| - 1];
      var x := Last(s);
      assert s == s' + [x];
      ClustersSnoc(s', x, gap);
      var init := gs[..|gs| - 1];
      if |Last(gs)| == 1 {
        DropSingleton(s, gap, gs);
        ClusteringUnique(s', gap, init);
        assert gs == init + [[x]];
      } else {
        var g' := Last(gs)[..|Last(gs)| - 1];
        var gs' := init + [g'];
        DropFromLonger(s, gap, gs);
        ClusteringUnique(s', gap, gs');
        assert gs == gs'[..|gs'| - 1] + [Last(gs') + [x]];
      }
    }
  }

  /** `group_points(df, gap)`: the loop that grows `current_group` and closes it on a gap. */
  method GroupPoints(candidates: seq<Sample>, gap: int) returns (groups: seq<seq<Sample>>)
    ensures groups == Clusters(candidates, gap)
    ensures IsClustering(candidates, gap, groups)
    ensures groups == [] <==> candidates == []
  {
    groups := [];
    var currentGroup: seq<Sample> := [];
    var lastTime: Option<int> := None;
    for i := 0 to |candidates|
      invariant lastTime.None? <==> i == 0
      invariant i == 0 ==> groups == [] && currentGroup == []
      invariant i > 0 ==> lastTime == Some(candidates[i - 1].time) && currentGroup != []
      invariant i > 0 ==> groups + [currentGroup] == Clusters(candidates[..i], gap)
    {
      var row := candidates[i];
      assert candidates[..i + 1] == candidates[..i] + [row];
      ClustersSnoc(candidates[..i], row, gap);
      ghost var prev := groups + [currentGroup];
      assert i > 0 ==> prev[..|prev| - 1] == groups && Last(prev) == currentGroup;
      if lastTime.None? || row.time - lastTime.value <= gap {
        currentGroup := currentGroup + [row];
      } else {
        groups := groups + [currentGroup];
        currentGroup := [row];
      }
      lastTime := Some(row.time);
    }
    if currentGroup != [] {
      groups := groups + [currentGroup];
    }
    assert candidates[..|candidates|] == candidates;
    ClustersIsClustering(candidates, gap);
  }
}
