/**
 * The logged telemetry rows the script works on, after loading and dropping
 * incomplete rows.
 */
module Telemetry {
  import opened Sequences

  /** One row: `Time` in milliseconds since the epoch, `battery_voltage` in volts, `battery_current` in amperes. */
  datatype Sample = Sample(time: int, voltage: real, current: real)

  function Abs(x: real): real {
    if x < 0.0 then -x else x
  }

  /** The `Time` column of a sequence of rows. */
  function Times(s: seq<Sample>): seq<int> {
    seq(|s|, i requires 0 <= i < |s| => s[i].time)
  }

  /** Some row of `data` carries timestamp `t`. */
  predicate Observed(data: seq<Sample>, t: int) {
    exists x :: x in data && x.time == t
  }

  /** Rows appear in ascending `Time` order (the order the log is written in). */
  predicate TimeOrdered(s: seq<Sample>) {
    forall i, j :: 0 <= i < j < |s| ==> s[i].time <= s[j].time
  }

  /** A timestamp taken from the `Time` column belongs to one of the rows. */
  lemma TimesObserved(s: seq<Sample>, t: int)
    requires t in Times(s)
    ensures Observed(s, t)
  {
    var i :| 0 <= i < |s| && Times(s)[i] == t;
    assert s[i] in s;
  }

  /** Any order-preserving selection of time-ordered rows is time-ordered. */
  lemma {:induction false} SubsequenceTimeOrdered(xs: seq<Sample>, ys: seq<Sample>)
    requires IsSubsequence(xs, ys) && TimeOrdered(ys)
    ensures TimeOrdered(xs)
    decreases |ys|
  {
    if xs != [] {
      assert TimeOrdered(ys[1..]);
      if xs[0] == ys[0] && IsSubsequence(xs[1..], ys[1..]) {
        SubsequenceTimeOrdered(xs[1..], ys[1..]);
        SubsequenceMembers(xs[1..], ys[1..]);
        forall i, j | 0 <= i < j < |xs| ensures xs[i].time <= xs[j].time {
          assert xs[j] == xs[1..][j - 1];
          assert xs[j] in ys[1..];
          if i > 0 {
            assert xs[i] == xs[1..][i - 1];
          }
        }
      } else {
        SubsequenceTimeOrdered(xs, ys[1..]);
      }
    }
  }
}
