/**
  The task completion-rate card: the share of non-deleted tasks that are
  completed, as a whole percentage.
*/
module CompletionRate {
  import opened Tasks

  /**
    `Math.round(c / t * 100)` for `0 <= c <= t`, `t > 0`, in exact
    arithmetic: the whole number nearest to `100c/t`, halves rounded up.
  */
  function RoundedPercent(c: nat, t: nat): (r: nat)
    requires t > 0 && c <= t
    ensures 2 * t * r <= 200 * c + t < 2 * t * (r + 1)
    ensures r <= 100
  {
    var r := (200 * c + t) / (2 * t);
    assert r <= 100 by {
      if r > 100 {
        MulLeft(2 * t, 101, r);
      }
    }
    r
  }

  /** The percentage shown: 0 with no live task, otherwise the rounded share. */
  function Rate(tasks: seq<Task>): (r: nat)
    ensures r <= 100
  {
    var live := Live(tasks);
    if |live| == 0 then 0
    else RoundedPercent(Count(live, IsCompleted), |live|)
  }

  // ---------------------------------------------------------------------
  // Properties

  /** `b * x <= b * y` for `x <= y`. */
  lemma MulLeft(b: nat, x: int, y: int)
    requires x <= y
    ensures b * x <= b * y
  {
    assert b * y - b * x == b * (y - x);
  }

  /** The rounded percentage is the only whole number within half a step of `100c/t`. */
  lemma RoundedPercentUnique(c: nat, t: nat, k: nat)
    requires t > 0 && c <= t
    requires 2 * t * k <= 200 * c + t < 2 * t * (k + 1)
    ensures RoundedPercent(c, t) == k
  {
    var r := RoundedPercent(c, t);
    if r < k {
      MulLeft(2 * t, r + 1, k);
    } else if r > k {
      MulLeft(2 * t, k + 1, r);
    }
  }

  /**
    The whole number nearest to `100c/t` with halves rounded down. At an
    exact half the source's double product can fall just below .5, and the
    card then shows this figure instead of `RoundedPercent`.
  */
  function RoundedPercentHalfDown(c: nat, t: nat): (r: nat)
    requires t > 0 && c <= t
    ensures 2 * t * r < 200 * c + t <= 2 * t * (r + 1)
  {
    (200 * c + t - 1) / (2 * t)
  }

  /**
    The two roundings agree except at an exact half, where `200c + t` is a
    multiple of `2t`, and there they differ by one: only there can the
    card's figure and `RoundedPercent` disagree.
  */
  lemma HalvesOnly(c: nat, t: nat)
    requires t > 0 && c <= t
    ensures RoundedPercentHalfDown(c, t) == RoundedPercent(c, t) <==>
      200 * c + t != 2 * t * RoundedPercent(c, t)
    ensures RoundedPercentHalfDown(c, t) <= RoundedPercent(c, t) <= RoundedPercentHalfDown(c, t) + 1
  {
    RoundingsAround(2 * t, 200 * c + t, RoundedPercent(c, t), RoundedPercentHalfDown(c, t));
  }

  /** `r` rounds `x / b` with halves up and `d` with halves down. */
  lemma RoundingsAround(b: nat, x: int, r: int, d: int)
    requires b > 0
    requires b * r <= x < b * (r + 1)
    requires b * d < x <= b * (d + 1)
    ensures d == r <==> x != b * r
    ensures d <= r <= d + 1
  {
    MulMono(b, r + 1, d);
    MulMono(b, r, d);
    MulMono(b, d + 1, r);
    MulMono(b, d + 2, r);
    assert b * (d + 2) == b * (d + 1) + b;
  }

  /** Multiplying by a natural keeps the order. */
  lemma MulMono(b: nat, x: int, y: int)
    ensures x <= y ==> b * x <= b * y
  {
    if x <= y {
      MulLeft(b, x, y);
    }
  }

  /** 23 of 40 is exactly 57.5: rounded up to 58, where the source's product reads 57.49999999999999. */
  lemma HalfwayExample()
    ensures RoundedPercent(23, 40) == 58 && RoundedPercentHalfDown(23, 40) == 57
  {
  }

  /** All live tasks completed gives 100; none completed (or none at all) gives 0. */
  lemma RateExtremes(tasks: seq<Task>)
    ensures (forall i :: 0 <= i < |Live(tasks)| ==> Live(tasks)[i].completed) && |Live(tasks)| > 0 ==> Rate(tasks) == 100
    ensures (forall i :: 0 <= i < |Live(tasks)| ==> !Live(tasks)[i].completed) ==> Rate(tasks) == 0
  {
    var live := Live(tasks);
    CountExtremes(live, IsCompleted);
    var t := |live|;
    if t > 0 {
      var c := Count(live, IsCompleted);
      if c == t {
        RoundedPercentUnique(c, t, 100);
      }
      if c == 0 {
        RoundedPercentUnique(c, t, 0);
      }
    }
  }

  /** For a fixed number of tasks, more completed tasks never lower the rate. */
  lemma RoundedPercentMonotone(c1: nat, c2: nat, t: nat)
    requires t > 0 && c1 <= c2 <= t
    ensures RoundedPercent(c1, t) <= RoundedPercent(c2, t)
  {
    var r1 := RoundedPercent(c1, t);
    var r2 := RoundedPercent(c2, t);
    if r2 < r1 {
      MulLeft(2 * t, r2 + 1, r1);
    }
  }

  /** Deleted tasks make no difference: the card shows the rate of the live tasks alone. */
  lemma DeletedIgnored(tasks: seq<Task>, d: Task)
    requires d.deleted
    ensures Rate(tasks + [d]) == Rate(tasks)
    ensures Rate([d] + tasks) == Rate(tasks)
  {
    LiveIgnoresDeleted(tasks, d);
  }
}
