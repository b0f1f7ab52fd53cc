/**
  The study-streak card: a row of seven numbered cells, the block of seven
  day numbers that holds the current streak, with the cells up to the
  streak shown as active.
*/
module StreakCard {

  /** `Math.ceil(streak / 7) * 7`: the smallest multiple of 7 not below the streak. */
  function RangeEnd(streak: nat): (r: nat)
    ensures r % 7 == 0 && streak <= r < streak + 7
  {
    ((streak + 6) / 7) * 7
  }

  /**
    The first cell: six before the end for a positive streak, 1 otherwise.
    The window always starts at 1, 8, 15, ..., and a positive streak lies
    inside it.
  */
  function RangeStart(streak: nat): (r: int)
    ensures r >= 1 && r % 7 == 1
    ensures streak > 0 ==> r <= streak <= r + 6
    ensures streak == 0 ==> r == 1
  {
    if streak > 0 then
      var e := RangeEnd(streak);
      assert e >= 7;
      assert (e - 6) % 7 == 1 by {
        assert e - 6 == (e / 7 - 1) * 7 + 1;
      }
      e - 6
    else 1
  }

  /**
    The seven cell numbers, `rangeStart + i` for `i` in 0..6: consecutive
    numbers starting at 1, 8, 15, ..., among them a positive streak.
  */
  function StreakRange(streak: nat): (r: seq<int>)
    ensures |r| == 7 && r[0] >= 1 && r[0] % 7 == 1
    ensures forall i :: 0 < i < 7 ==> r[i] == r[i - 1] + 1
    ensures streak > 0 ==> streak in r
  {
    var r := seq(7, i => RangeStart(streak) + i);
    assert streak > 0 ==> r[streak - RangeStart(streak)] == streak;
    r
  }

  /** A cell is drawn as active when its number does not exceed the streak. */
  predicate IsActive(day: int, streak: nat)
  {
    day <= streak
  }

  // ---------------------------------------------------------------------
  // Properties

  /** No streak yet: the cells are 1 to 7. */
  lemma ZeroStreakWindow()
    ensures StreakRange(0) == [1, 2, 3, 4, 5, 6, 7]
  {
  }

  /**
    The active cells are the first `streak - rangeStart + 1` of the row: a
    positive streak lights at least the first cell, and a streak that is a
    multiple of 7 lights all seven.
  */
  lemma ActiveCellsArePrefix(streak: nat)
    ensures var r := StreakRange(streak);
      forall i :: 0 <= i < 7 ==> (IsActive(r[i], streak) <==> i <= streak - RangeStart(streak))
    ensures streak > 0 ==> IsActive(StreakRange(streak)[0], streak)
    ensures streak > 0 && streak % 7 == 0 ==> forall i :: 0 <= i < 7 ==> IsActive(StreakRange(streak)[i], streak)
    ensures streak == 0 ==> forall i :: 0 <= i < 7 ==> !IsActive(StreakRange(streak)[i], streak)
  {
    if streak > 0 && streak % 7 == 0 {
      assert RangeEnd(streak) == streak;
    }
  }
}
