/** Worked examples on concrete timetables. */
module DayExamples {
  import opened Text
  import opened Clock
  import opened Results
  import opened Adjacency
  import opened AdjacencyFacts
  import opened Status
  import opened StatusFacts

  function At(h: nat, m: nat): TimeOfDay
    requires h < 24 && m < 60
  {
    h * 3600 + m * 60
  }

  /** Departures every 30 minutes from 08:00 to 22:00. */
  function HalfHourly(): (t: Timetable)
    ensures |t| == 29 && ValidTimetable(t)
    ensures t[0] == At(8, 0) && t[28] == At(22, 0)
  {
    seq(29, k requires 0 <= k < 29 => 28800 + 1800 * k)
  }

  /** At 08:05 the 08:00 bus runs and the 08:30 and 09:00 buses wait. */
  lemma ExampleJustAfterFirst()
    ensures Adjacent("A", HalfHourly(), At(8, 5), false)
      == Ok(AdjTimes("A", 1, 2, [At(8, 0), At(8, 30), At(9, 0)]))
  {
    var t := HalfHourly();
    FirstToSecondCase("A", t, At(8, 5));
  }

  /** At 22:15 the 21:30 bus has arrived and the 22:00 bus still runs. */
  lemma ExampleAfterLast()
    ensures Adjacent("A", HalfHourly(), At(22, 15), false)
      == Ok(AdjTimes("A", 1, 0, [At(22, 0)]))
  {
    var t := HalfHourly();
    AfterLastCase("A", t, At(22, 15));
  }

  /** At 23:50 the service has ended: first and last bus. */
  lemma ExampleLateNight()
    ensures Adjacent("A", HalfHourly(), At(23, 50), false)
      == Ok(AdjTimes("A", 0, 0, [At(8, 0), At(22, 0)]))
  {
    var t := HalfHourly();
    SuspendedCase("A", t, At(23, 50), false);
  }

  /** At 21:30, the departure of the second-to-last bus, the resolver as
      written raises KeyError on key 29. */
  lemma ExampleSecondToLast()
    ensures Adjacent("A", HalfHourly(), At(21, 30), false) == Err(MissingKey(29))
  {
    SecondToLastCrashes("A", HalfHourly());
  }

  /** At 21:30 the corrected resolver lists the 21:30 and 22:00 buses as
      waiting; the 21:00 bus arrived at 21:20. */
  lemma ExampleSecondToLastResolved()
    ensures var t := HalfHourly();
      t[27] == At(21, 30) && Resolve("A", t, t[27], false) == AdjTimes("A", 0, 2, [t[27], t[28]])
  {
    var t := HalfHourly();
    assert t[26] == At(21, 0) && t[27] == At(21, 30);
    IdleAtSecondToLast("A", t);
  }

  /** At the second-to-last departure, when the bus before it has already
      arrived, the corrected resolver lists the last two departures as
      waiting. */
  lemma IdleAtSecondToLast(line: string, t: Timetable)
    requires ValidTimetable(t) && |t| >= 4
    requires t[|t| - 3] + RunningWindow <= t[|t| - 2]
    ensures Resolve(line, t, t[|t| - 2], false) == AdjTimes(line, 0, 2, [t[|t| - 2], t[|t| - 1]])
  {
    var n, q := |t|, t[|t| - 2];
    assert t[1] < q;
    assert NextIndex(t, q, 0) == n - 2;
  }

  /** At 00:00:00 the resolver as written raises KeyError on key -2. */
  lemma ExampleMidnight()
    ensures Adjacent("A", HalfHourly(), 0, false) == Err(MissingKey(-2))
    ensures Resolve("A", HalfHourly(), 0, false) == AdjTimes("A", 0, 0, [At(8, 0), At(22, 0)])
  {
    MidnightCrashes("A", HalfHourly());
  }

  /** At 21:55, when neither the 21:00 nor the 21:30 bus still runs, the
      record as written lists 21:30 as the one bus waiting; the corrected
      record lists 22:00. */
  lemma ExampleIdleBeforeLast()
    ensures Adjacent("A", HalfHourly(), At(21, 55), false)
      == Ok(AdjTimes("A", 0, 1, [At(21, 30), At(22, 0)]))
    ensures Resolve("A", HalfHourly(), At(21, 55), false) == AdjTimes("A", 0, 1, [At(22, 0)])
  {
    var t, q := HalfHourly(), At(21, 55);
    assert t[26] == At(21, 0) && t[27] == At(21, 30) && t[28] == At(22, 0);
    BeforeLastCase("A", t, q);
    ResolveIdleBeforeLast("A", t, q);
  }

  /** The status text at 21:55 shows the 21:30 bus, which left 25 minutes
      earlier, as the one bus waiting. */
  lemma ExampleIdleBeforeLastText()
    ensures StatusText(AdjTimes("A", 0, 1, [At(21, 30), At(22, 0)]), At(21, 55), false)
      == Ok("[0대 운행중]\n\n[1대 대기중]\n21:30(25분전)")
  {
    OneWaitingText(AdjTimes("A", 0, 1, [At(21, 30), At(22, 0)]), At(21, 55));
    OneWaitingAtFiveToTen();
  }

  /** The pieces of that text, spelled out. */
  lemma OneWaitingAtFiveToTen()
    ensures RunningHeader(0) + "\n\n" + WaitingHeader(1) + Entry(At(21, 30), At(21, 55))
      == "[0대 운행중]\n\n[1대 대기중]\n21:30(25분전)"
  {
    HeadersOfOneWaiting();
    EntryAtHalfPastNine();
  }

  lemma HeadersOfOneWaiting()
    ensures RunningHeader(0) == "[0대 운행중]" && WaitingHeader(1) == "[1대 대기중]"
  {
    assert Decimal(0) == "0" && Decimal(1) == "1";
  }

  /** The 21:30 bus seen at 21:55. */
  lemma EntryAtHalfPastNine()
    ensures Entry(At(21, 30), At(21, 55)) == "\n21:30(25분전)"
  {
    assert At(21, 30) == 77400 && At(21, 55) == 78900;
    assert FormatClock(77400) == "21:30" by {
      assert FormatClock(77400) == [Digit(2), Digit(1), ':', Digit(3), Digit(0)];
    }
    assert MinutesBetween(77400, 78900) == 25;
    assert Decimal(25) == "25" by {
      assert Decimal(2) == [Digit(2)];
    }
  }
}
