/** The six cases of `find_adjacent_times` as regions of the day, on a
    working day (not a holiday).  Between 00:00:00 and 23:59:59, both
    excluded, the case taken only moves forward through the day:
    suspended (1), pre-service (2), first to second bus (3), interior (6),
    before the last bus (5), after it (4), and suspended again (1).  The two
    excluded instants are where the code leaves that order. */
module DayRegions {
  import opened Clock
  import opened Results
  import opened Adjacency
  import opened AdjacencyFacts

  /** The case `find_adjacent_times` takes at `q`, by the tests of its
      `if`/`elif` chain in their order. */
  function Region(t: Timetable, q: TimeOfDay): nat
    requires ValidTimetable(t)
  {
    var n := |t|;
    if 0 < q < t[0] - HalfHour || t[n - 1] + HalfHour < q < DayEnd then 1
    else if t[0] - HalfHour <= q <= t[0] then 2
    else if t[0] < q <= t[1] then 3
    else if t[n - 1] < q then 4
    else if t[n - 2] < q then 5
    else 6
  }

  /** Where a region falls in the day: the suspended hours before the first
      bus come first and those after the last bus come last. */
  function DayOrder(t: Timetable, q: TimeOfDay): nat
    requires ValidTimetable(t)
  {
    match Region(t, q)
    case 1 => if q < t[0] then 0 else 6
    case 2 => 1
    case 3 => 2
    case 6 => 3
    case 5 => 4
    case _ => 5
  }

  /** `Region` names the case the code takes: cases 1 to 5 return from
      their own branch (recognisable by the record's counts), and case 6
      is exactly the one left to the scan. */
  lemma RegionSelectsCase(line: string, t: Timetable, q: TimeOfDay)
    requires ValidTimetable(t)
    ensures var k, early := Region(t, q), Regions1To5(line, t, q, false);
      && early.Ok?
      && (k == 6 <==> early.value.None?)
      && (k == 1 ==> early.value == Some(AdjTimes(line, 0, 0, [t[0], t[|t| - 1]])))
      && (k == 2 ==> early.value == Some(AdjTimes(line, 0, 2, [t[0], t[1]])))
      && (k == 3 ==> early.value == Some(AdjTimes(line, 1, 2, [t[0], t[1], t[2]])))
      && (k == 4 ==> early.value.Some? && early.value.value.next == 0)
      && (k == 5 ==> early.value.Some? && early.value.value.next == 1)
  {
    var n := |t|;
    assert t[0] < t[1] <= t[n - 2] < t[n - 1];
    if Region(t, q) == 6 && q != 0 {
      assert t[1] < q <= t[n - 2];
    }
  }

  /** Between 00:00:00 and 23:59:59, both excluded, a later query is never
      in an earlier region of the day. */
  lemma RegionsFollowTheDay(t: Timetable, p: TimeOfDay, q: TimeOfDay)
    requires ValidTimetable(t)
    requires 0 < p <= q < DayEnd
    ensures DayOrder(t, p) <= DayOrder(t, q)
  {
    var n := |t|;
    assert t[0] < t[1] <= t[n - 2] < t[n - 1];
  }

  /** At the two excluded instants the code leaves the order: 00:00:00
      before a late first bus is case 6, and 23:59:59 after a last bus
      that left more than 30 minutes before is case 4 again, not case 1. */
  lemma RegionsAtTheEnds(t: Timetable)
    requires ValidTimetable(t)
    ensures HalfHour < t[0] ==> Region(t, 0) == 6
    ensures t[|t| - 1] + HalfHour < DayEnd ==> Region(t, DayEnd) == 4
  {
    var n := |t|;
    assert t[0] < t[1] <= t[n - 2] < t[n - 1];
  }
}
