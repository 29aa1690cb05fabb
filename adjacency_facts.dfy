/** What the resolver as written does in each region of the day, where it
    fails, and how it relates to the corrected resolver. */
module AdjacencyFacts {
  import opened Clock
  import opened Results
  import opened Adjacency

  function Min(a: int, b: int): int {
    if a < b then a else b
  }

  /** At 00:00:00 exactly, with the first departure more than 30 minutes
      away, no case of 1 to 5 applies (case 1's lower bound is strict). */
  predicate MidnightDefect(t: Timetable, q: TimeOfDay)
    requires |t| >= 1
  {
    q == 0 && HalfHour < t[0]
  }

  /** Case 5 with neither of the two previous buses running. */
  predicate IdleBeforeLast(t: Timetable, q: TimeOfDay)
    requires |t| >= 3
  {
    && t[|t| - 2] < q <= t[|t| - 1]
    && !IsRunning(t[|t| - 3], q)
    && !IsRunning(t[|t| - 2], q)
  }

  /** A case-6 query that falls exactly on a departure. */
  predicate AtInteriorDeparture(t: Timetable, q: TimeOfDay)
    requires |t| >= 3
  {
    t[1] < q <= t[|t| - 2] && q in t
  }

  /** The inputs on which the as-written resolver and the corrected one
      part ways. */
  predicate Deviates(t: Timetable, q: TimeOfDay, holiday: bool)
    requires |t| >= 3
  {
    !holiday && (MidnightDefect(t, q) || IdleBeforeLast(t, q) || AtInteriorDeparture(t, q))
  }

  /** The `k` departures of `t` from position `a` on. */
  function SliceAt(t: Timetable, a: nat, k: nat): (s: seq<TimeOfDay>)
    requires a + k <= |t|
    ensures |s| == k && forall m :: 0 <= m < k ==> s[m] == t[a + m]
  {
    t[a..a + k]
  }

  // ---------------------------------------------------------------------
  // The scan
  // ---------------------------------------------------------------------

  /** The case-6 loop stops at the first departure strictly later than the
      query, and returns None when there is none. */
  lemma {:induction false} ScanFindsFirstLater(line: string, t: Timetable, q: TimeOfDay, from: nat)
    requires from <= |t|
    ensures Scan(line, t, q, from) ==
      if FirstLater(t, q, from) < |t| then ScanStep(line, t, q, FirstLater(t, q, from))
      else Err(NoneReturned)
    decreases |t| - from
  {
    if from < |t| && !(q < t[from]) {
      ScanFindsFirstLater(line, t, q, from + 1);
    }
  }

  /** On an ascending timetable the first departure strictly later than `q`
      is the first one at or after `q`, or the one after it when a bus
      leaves exactly at `q`. */
  lemma FirstLaterSkipsDeparture(t: Timetable, q: TimeOfDay)
    requires Ascending(t)
    ensures FirstLater(t, q, 0) == NextIndex(t, q, 0) + (if q in t then 1 else 0)
  {
    var i, j := FirstLater(t, q, 0), NextIndex(t, q, 0);
    if q in t {
      var k :| 0 <= k < |t| && t[k] == q;
      assert j == k;
      assert k + 1 < |t| ==> q < t[k + 1];
    } else {
      assert j == i;
    }
  }

  // ---------------------------------------------------------------------
  // The regions of the day, as written
  // ---------------------------------------------------------------------

  /** Case 1 is tested first: on a holiday, or strictly between midnight
      and 30 minutes before the first bus, or strictly between 30 minutes
      after the last bus and 23:59:59, the route reports its first and last
      departure. */
  lemma SuspendedCase(line: string, t: Timetable, q: TimeOfDay, holiday: bool)
    requires |t| >= 1
    requires holiday || 0 < q < t[0] - HalfHour || t[|t| - 1] + HalfHour < q < DayEnd
    ensures Adjacent(line, t, q, holiday) == Ok(AdjTimes(line, 0, 0, [t[0], t[|t| - 1]]))
  {
  }

  /** Case 2, both bounds inclusive: two buses waiting, the first two. A
      one-departure route raises KeyError on key 1. */
  lemma PreServiceCase(line: string, t: Timetable, q: TimeOfDay)
    requires |t| >= 1
    requires !(0 < q < t[0] - HalfHour) && !(t[|t| - 1] + HalfHour < q < DayEnd)
    requires t[0] - HalfHour <= q <= t[0]
    ensures Adjacent(line, t, q, false) ==
      if |t| >= 2 then Ok(AdjTimes(line, 0, 2, [t[0], t[1]])) else Err(MissingKey(1))
  {
  }

  /** Exactly 30 minutes before the first bus is already case 2, not case 1. */
  lemma PreServiceStartsAtThirtyMinutes(line: string, t: Timetable, q: TimeOfDay)
    requires ValidTimetable(t)
    requires q == t[0] - HalfHour
    ensures Adjacent(line, t, q, false) == Ok(AdjTimes(line, 0, 2, [t[0], t[1]]))
  {
    PreServiceCase(line, t, q);
  }

  /** Case 3: after the first bus, up to and including the second, the first
      counts as running and the next two as waiting, whether or not the
      first is still within its running window. */
  lemma FirstToSecondCase(line: string, t: Timetable, q: TimeOfDay)
    requires |t| >= 2 && Ascending(t)
    requires t[0] < q <= t[1]
    ensures Adjacent(line, t, q, false) ==
      if |t| >= 3 then Ok(AdjTimes(line, 1, 2, [t[0], t[1], t[2]])) else Err(MissingKey(2))
  {
  }

  /** Case 4 (and case 1 late at night): after the last bus, two running if
      the second-to-last still runs, else one if the last still runs, else
      the service-ended record.  The three branches are exhaustive. */
  lemma AfterLastCase(line: string, t: Timetable, q: TimeOfDay)
    requires |t| >= 2 && Ascending(t)
    requires t[|t| - 1] < q
    ensures Adjacent(line, t, q, false) == Ok(
      if IsRunning(t[|t| - 2], q) then AdjTimes(line, 2, 0, [t[|t| - 2], t[|t| - 1]])
      else if IsRunning(t[|t| - 1], q) then AdjTimes(line, 1, 0, [t[|t| - 1]])
      else AdjTimes(line, 0, 0, [t[0], t[|t| - 1]]))
  {
    var n := |t|;
    if !(t[n - 1] + HalfHour < q < DayEnd) {
      assert t[1] <= t[n - 1];
    }
  }

  /** Case 5: after the second-to-last bus, up to and including the last,
      one bus waits and up to two run.  In the idle branch the record holds
      two times for one bus. */
  lemma BeforeLastCase(line: string, t: Timetable, q: TimeOfDay)
    requires ValidTimetable(t)
    requires t[|t| - 2] < q <= t[|t| - 1]
    ensures Adjacent(line, t, q, false) == Ok(
      if IsRunning(t[|t| - 3], q) then AdjTimes(line, 2, 1, [t[|t| - 3], t[|t| - 2], t[|t| - 1]])
      else if IsRunning(t[|t| - 2], q) then AdjTimes(line, 1, 1, [t[|t| - 2], t[|t| - 1]])
      else AdjTimes(line, 0, 1, [t[|t| - 2], t[|t| - 1]]))
  {
    var n := |t|;
    assert t[0] < t[1] <= t[n - 2];
  }

  /** Case 6: the scan returns at the first departure `t[i]` strictly later
      than the query, with `t[i]` and `t[i+1]` waiting and up to two of
      `t[i-2]`, `t[i-1]` running.  Every key stays in range exactly when
      `i <= n - 2`; a query equal to `t[n-2]` reaches key `n`. */
  lemma InteriorCase(line: string, t: Timetable, q: TimeOfDay)
    requires ValidTimetable(t)
    requires t[1] < q <= t[|t| - 2]
    ensures var i := FirstLater(t, q, 0);
      && 2 <= i <= |t| - 1
      && (i == |t| - 1 <==> q == t[|t| - 2])
      && Adjacent(line, t, q, false) ==
        if i == |t| - 1 then Err(MissingKey(|t|))
        else if IsRunning(t[i - 2], q) then Ok(AdjTimes(line, 2, 2, [t[i - 2], t[i - 1], t[i], t[i + 1]]))
        else if IsRunning(t[i - 1], q) then Ok(AdjTimes(line, 1, 2, [t[i - 1], t[i], t[i + 1]]))
        else Ok(AdjTimes(line, 0, 2, [t[i], t[i + 1]]))
  {
    var n := |t|;
    assert t[0] < t[1] && t[n - 2] < t[n - 1];
    assert Regions1To5(line, t, q, false) == Ok(None);
    ScanFindsFirstLater(line, t, q, 0);
  }

  /** At 00:00:00 exactly, when the first bus is more than 30 minutes away,
      the scan stops at index 0 and raises KeyError on key -2. */
  lemma MidnightCrashes(line: string, t: Timetable)
    requires ValidTimetable(t) && HalfHour < t[0]
    ensures Adjacent(line, t, 0, false) == Err(MissingKey(-2))
  {
    assert t[0] < t[|t| - 2] < t[|t| - 1];
  }

  /** A query equal to the second-to-last departure of a route with four
      or more departures raises KeyError on key n. */
  lemma SecondToLastCrashes(line: string, t: Timetable)
    requires ValidTimetable(t) && |t| >= 4
    ensures Adjacent(line, t, t[|t| - 2], false) == Err(MissingKey(|t|))
  {
    InteriorCase(line, t, t[|t| - 2]);
  }

  /** On a valid timetable the as-written resolver fails on exactly two
      kinds of query, both off a holiday: midnight before a late first bus
      (key -2), and the second-to-last departure (key n). */
  lemma AsWrittenFailsExactly(line: string, t: Timetable, q: TimeOfDay, holiday: bool)
    requires ValidTimetable(t)
    ensures Adjacent(line, t, q, holiday).Err? <==>
      !holiday && (MidnightDefect(t, q) || (|t| >= 4 && q == t[|t| - 2]))
    ensures Adjacent(line, t, q, holiday).Err? ==>
      Adjacent(line, t, q, holiday).fault == if q == 0 then MissingKey(-2) else MissingKey(|t|)
  {
    var n := |t|;
    assert t[0] < t[1] <= t[n - 2] < t[n - 1];
    if holiday || 0 < q < t[0] - HalfHour || t[n - 1] + HalfHour < q < DayEnd {
      SuspendedCase(line, t, q, holiday);
    } else if t[0] - HalfHour <= q <= t[0] {
      PreServiceCase(line, t, q);
    } else if q < t[0] - HalfHour {
      MidnightCrashes(line, t);
    } else if q <= t[1] {
      FirstToSecondCase(line, t, q);
      if n >= 4 {
        assert t[1] < t[2] <= t[n - 2];
      }
    } else if t[n - 1] < q {
      AfterLastCase(line, t, q);
    } else if t[n - 2] < q {
      BeforeLastCase(line, t, q);
    } else {
      InteriorCase(line, t, q);
    }
  }

  /** The shape of a record the as-written resolver returns: the route's
      name, at most two running and two waiting buses, and times that are
      consecutive departures of the route, as many as the counts say,
      except in the service-ended record (first and last departure) and in
      the idle branch of case 5, which lists the second-to-last departure
      besides the last. */
  predicate RecordShaped(line: string, t: Timetable, q: TimeOfDay, holiday: bool, r: AdjTimes)
    requires ValidTimetable(t)
  {
    && r.line == line && r.prev <= 2 && r.next <= 2
    && (r.prev + r.next == 0 ==> r.times == [t[0], t[|t| - 1]])
    && (r.prev + r.next > 0 ==>
          && Contiguous(t, r.times)
          && (|r.times| == r.prev + r.next
              || (!holiday && IdleBeforeLast(t, q) && r.prev == 0 && r.next == 1 && r.times == t[|t| - 2..])))
  }

  /** `s` is a run of consecutive departures of `t`. */
  predicate Contiguous(t: Timetable, s: seq<TimeOfDay>) {
    exists a: nat :: a + |s| <= |t| && s == SliceAt(t, a, |s|)
  }

  /** Every record the as-written resolver returns on a valid timetable
      has the shape above, so its times are in ascending order. */
  lemma AsWrittenRecordShape(line: string, t: Timetable, q: TimeOfDay, holiday: bool)
    requires ValidTimetable(t)
    requires Adjacent(line, t, q, holiday).Ok?
    ensures var r := Adjacent(line, t, q, holiday).value;
      && RecordShaped(line, t, q, holiday, r)
      && (forall a, b :: 0 <= a < b < |r.times| ==> r.times[a] < r.times[b])
  {
    var n, r := |t|, Adjacent(line, t, q, holiday).value;
    assert t[0] < t[1] <= t[n - 2] < t[n - 1];
    if holiday || 0 < q < t[0] - HalfHour || t[n - 1] + HalfHour < q < DayEnd || q <= t[1] {
      ShapeBeforeSecond(line, t, q, holiday);
    } else if t[n - 2] < q {
      ShapeAfterSecondToLast(line, t, q);
    } else {
      ShapeInterior(line, t, q);
    }
    if r.prev + r.next > 0 {
      var a: nat :| a + |r.times| <= |t| && r.times == SliceAt(t, a, |r.times|);
      assert forall m :: 0 <= m < |r.times| ==> r.times[m] == t[a + m];
    }
  }

  lemma ShapeBeforeSecond(line: string, t: Timetable, q: TimeOfDay, holiday: bool)
    requires ValidTimetable(t) && Adjacent(line, t, q, holiday).Ok?
    requires holiday || 0 < q < t[0] - HalfHour || t[|t| - 1] + HalfHour < q < DayEnd || q <= t[1]
    ensures RecordShaped(line, t, q, holiday, Adjacent(line, t, q, holiday).value)
  {
    var n, r := |t|, Adjacent(line, t, q, holiday).value;
    assert t[0] < t[1] <= t[n - 2] < t[n - 1];
    if holiday || 0 < q < t[0] - HalfHour || t[n - 1] + HalfHour < q < DayEnd {
      SuspendedCase(line, t, q, holiday);
    } else if t[0] - HalfHour <= q <= t[0] {
      PreServiceCase(line, t, q);
      assert r.times == SliceAt(t, 0, 2);
    } else if q < t[0] - HalfHour {
      MidnightCrashes(line, t);
    } else {
      FirstToSecondCase(line, t, q);
      assert r.times == SliceAt(t, 0, 3);
    }
  }

  lemma ShapeAfterSecondToLast(line: string, t: Timetable, q: TimeOfDay)
    requires ValidTimetable(t)
    requires !(0 < q < t[0] - HalfHour || t[|t| - 1] + HalfHour < q < DayEnd || q <= t[1])
    requires t[|t| - 2] < q
    ensures RecordShaped(line, t, q, false, Adjacent(line, t, q, false).value)
  {
    var n, r := |t|, Adjacent(line, t, q, false).value;
    if t[n - 1] < q {
      AfterLastCase(line, t, q);
      if IsRunning(t[n - 2], q) {
        assert r.times == SliceAt(t, n - 2, 2);
      } else if IsRunning(t[n - 1], q) {
        assert r.times == SliceAt(t, n - 1, 1);
      }
    } else {
      BeforeLastCase(line, t, q);
      if IsRunning(t[n - 3], q) {
        assert r.times == SliceAt(t, n - 3, 3);
      } else {
        assert r.times == SliceAt(t, n - 2, 2);
      }
    }
  }

  lemma ShapeInterior(line: string, t: Timetable, q: TimeOfDay)
    requires ValidTimetable(t) && Adjacent(line, t, q, false).Ok?
    requires t[1] < q <= t[|t| - 2]
    ensures RecordShaped(line, t, q, false, Adjacent(line, t, q, false).value)
  {
    var r, i := Adjacent(line, t, q, false).value, FirstLater(t, q, 0);
    InteriorCase(line, t, q);
    assert i <= |t| - 2;
    InteriorShape(line, t, q, i, r);
  }

  lemma InteriorShape(line: string, t: Timetable, q: TimeOfDay, i: nat, r: AdjTimes)
    requires ValidTimetable(t) && 2 <= i <= |t| - 2
    requires r ==
      if IsRunning(t[i - 2], q) then AdjTimes(line, 2, 2, [t[i - 2], t[i - 1], t[i], t[i + 1]])
      else if IsRunning(t[i - 1], q) then AdjTimes(line, 1, 2, [t[i - 1], t[i], t[i + 1]])
      else AdjTimes(line, 0, 2, [t[i], t[i + 1]])
    ensures RecordShaped(line, t, q, false, r)
  {
    if IsRunning(t[i - 2], q) {
      assert r.times == SliceAt(t, i - 2, 4);
    } else if IsRunning(t[i - 1], q) {
      assert r.times == SliceAt(t, i - 1, 3);
    } else {
      assert r.times == SliceAt(t, i, 2);
    }
  }

  // ---------------------------------------------------------------------
  // The corrected resolver
  // ---------------------------------------------------------------------

  /** What the resolver is meant to report outside the suspended hours, in
      terms of the next departure `t[j]` (the first at or after the query):
      up to two waiting buses `t[j]`, `t[j+1]`, and before them the departed
      buses still running, the latest two at most.  The service-ended
      record appears exactly when every bus has left and none is running.
      Between the first and second bus (j == 1) the first counts as running
      regardless of its window. */
  predicate IsWindow(t: Timetable, q: TimeOfDay, r: AdjTimes)
    requires ValidTimetable(t)
  {
    var j := NextIndex(t, q, 0);
    && (r.prev + r.next == 0 <==> j == |t| && forall m :: 0 <= m < |t| ==> !IsRunning(t[m], q))
    && (r.prev + r.next == 0 ==> r.times == [t[0], t[|t| - 1]])
    && (r.prev + r.next > 0 ==>
          && r.next == Min(2, |t| - j)
          && r.prev <= j
          && r.times == t[j - r.prev .. j + r.next])
    && (r.prev + r.next > 0 && j != 1 ==>
          && (forall m :: j - r.prev <= m < j ==> IsRunning(t[m], q))
          && (r.prev < 2 ==> forall m :: 0 <= m < j - r.prev ==> !IsRunning(t[m], q)))
    && (j == 1 ==> r.prev == 1 && r.next == 2)
  }

  /** Outside the suspended hours the corrected resolver reports the window
      around the next departure. */
  lemma ResolveWindow(line: string, t: Timetable, q: TimeOfDay)
    requires ValidTimetable(t)
    requires !SuspendedHours(t, q)
    ensures IsWindow(t, q, Resolve(line, t, q, false))
  {
    var n := |t|;
    assert t[0] < t[1] <= t[n - 2] < t[n - 1];
    if q <= t[0] {
      WindowBeforeFirst(line, t, q);
    } else if q <= t[1] {
      WindowFirstToSecond(line, t, q);
    } else if t[n - 1] < q {
      WindowAfterLast(line, t, q);
    } else if t[n - 2] < q {
      WindowBeforeLast(line, t, q);
    } else {
      WindowInterior(line, t, q);
    }
  }

  lemma WindowBeforeFirst(line: string, t: Timetable, q: TimeOfDay)
    requires ValidTimetable(t) && !SuspendedHours(t, q)
    requires q <= t[0]
    ensures IsWindow(t, q, Resolve(line, t, q, false))
  {
    var r := Resolve(line, t, q, false);
    assert r == AdjTimes(line, 0, 2, t[0..2]);
    FirstTwoWaiting(line, t, q, r);
  }

  lemma FirstTwoWaiting(line: string, t: Timetable, q: TimeOfDay, r: AdjTimes)
    requires ValidTimetable(t) && q <= t[0]
    requires r == AdjTimes(line, 0, 2, t[0..2])
    ensures IsWindow(t, q, r)
  {
    assert NextIndex(t, q, 0) == 0;
  }

  lemma WindowFirstToSecond(line: string, t: Timetable, q: TimeOfDay)
    requires ValidTimetable(t) && !SuspendedHours(t, q)
    requires t[0] < q <= t[1]
    ensures IsWindow(t, q, Resolve(line, t, q, false))
  {
    var r := Resolve(line, t, q, false);
    assert t[1] < t[|t| - 1];
    assert r == AdjTimes(line, 1, 2, t[0..3]);
    assert NextIndex(t, q, 0) == 1;
  }

  lemma WindowAfterLast(line: string, t: Timetable, q: TimeOfDay)
    requires ValidTimetable(t) && !SuspendedHours(t, q)
    requires t[|t| - 1] < q
    ensures IsWindow(t, q, Resolve(line, t, q, false))
  {
    var r := Resolve(line, t, q, false);
    ResolveAfterLast(line, t, q);
    AfterLastWindow(line, t, q, r);
  }

  /** The corrected case 4: every bus has left; up to two of the last two
      still run. */
  lemma ResolveAfterLast(line: string, t: Timetable, q: TimeOfDay)
    requires ValidTimetable(t) && !SuspendedHours(t, q)
    requires t[|t| - 1] < q
    ensures var n := |t|;
      Resolve(line, t, q, false) ==
        if IsRunning(t[n - 2], q) then AdjTimes(line, 2, 0, t[n - 2..n])
        else if IsRunning(t[n - 1], q) then AdjTimes(line, 1, 0, t[n - 1..n])
        else AdjTimes(line, 0, 0, [t[0], t[n - 1]])
  {
    var n := |t|;
    assert t[0] < t[1] <= t[n - 2] < t[n - 1];
  }

  lemma AfterLastWindow(line: string, t: Timetable, q: TimeOfDay, r: AdjTimes)
    requires ValidTimetable(t) && t[|t| - 1] < q
    requires var n := |t|;
      r == if IsRunning(t[n - 2], q) then AdjTimes(line, 2, 0, t[n - 2..n])
        else if IsRunning(t[n - 1], q) then AdjTimes(line, 1, 0, t[n - 1..n])
        else AdjTimes(line, 0, 0, [t[0], t[n - 1]])
    ensures IsWindow(t, q, r)
  {
    var n := |t|;
    NextIndexPastLast(t, q);
    if !IsRunning(t[n - 2], q) {
      assert forall m :: 0 <= m < n - 2 ==> t[m] < t[n - 2];
    }
  }

  /** After the last departure there is no next one. */
  lemma NextIndexPastLast(t: Timetable, q: TimeOfDay)
    requires Ascending(t) && |t| >= 1 && t[|t| - 1] < q
    ensures NextIndex(t, q, 0) == |t|
  {
    var j := NextIndex(t, q, 0);
    if j < |t| {
      assert false;
    }
  }

  lemma WindowBeforeLast(line: string, t: Timetable, q: TimeOfDay)
    requires ValidTimetable(t) && !SuspendedHours(t, q)
    requires t[|t| - 2] < q <= t[|t| - 1]
    ensures IsWindow(t, q, Resolve(line, t, q, false))
  {
    var r := Resolve(line, t, q, false);
    ResolveBeforeLast(line, t, q);
    BeforeLastWindow(line, t, q, r);
  }

  /** The corrected case 5: the last bus waits; up to two of the two before
      it still run. */
  lemma ResolveBeforeLast(line: string, t: Timetable, q: TimeOfDay)
    requires ValidTimetable(t) && !SuspendedHours(t, q)
    requires t[|t| - 2] < q <= t[|t| - 1]
    ensures var n := |t|;
      Resolve(line, t, q, false) ==
        if IsRunning(t[n - 3], q) then AdjTimes(line, 2, 1, t[n - 3..n])
        else if IsRunning(t[n - 2], q) then AdjTimes(line, 1, 1, t[n - 2..n])
        else AdjTimes(line, 0, 1, t[n - 1..n])
  {
    var n := |t|;
    assert t[0] < t[1] <= t[n - 2];
  }

  lemma BeforeLastWindow(line: string, t: Timetable, q: TimeOfDay, r: AdjTimes)
    requires ValidTimetable(t) && t[|t| - 2] < q <= t[|t| - 1]
    requires var n := |t|;
      r == if IsRunning(t[n - 3], q) then AdjTimes(line, 2, 1, t[n - 3..n])
        else if IsRunning(t[n - 2], q) then AdjTimes(line, 1, 1, t[n - 2..n])
        else AdjTimes(line, 0, 1, t[n - 1..n])
    ensures IsWindow(t, q, r)
  {
    var n := |t|;
    NextIndexBetween(t, q, n - 2, n - 1);
    if IsRunning(t[n - 3], q) {
      BeforeLastTwoRunning(line, t, q, r);
    } else if IsRunning(t[n - 2], q) {
      BeforeLastOneRunning(line, t, q, r);
    } else {
      BeforeLastNoneRunning(line, t, q, r);
    }
  }

  lemma BeforeLastTwoRunning(line: string, t: Timetable, q: TimeOfDay, r: AdjTimes)
    requires ValidTimetable(t) && t[|t| - 2] < q <= t[|t| - 1] && NextIndex(t, q, 0) == |t| - 1
    requires IsRunning(t[|t| - 3], q) && r == AdjTimes(line, 2, 1, t[|t| - 3..])
    ensures IsWindow(t, q, r)
  {
    var n := |t|;
    RunningIsMonotone(t[n - 3], t[n - 2], q);
  }

  lemma BeforeLastOneRunning(line: string, t: Timetable, q: TimeOfDay, r: AdjTimes)
    requires ValidTimetable(t) && t[|t| - 2] < q <= t[|t| - 1] && NextIndex(t, q, 0) == |t| - 1
    requires !IsRunning(t[|t| - 3], q) && IsRunning(t[|t| - 2], q) && r == AdjTimes(line, 1, 1, t[|t| - 2..])
    ensures IsWindow(t, q, r)
  {
    var n := |t|;
    assert forall m :: 0 <= m < n - 3 ==> t[m] < t[n - 3];
  }

  lemma BeforeLastNoneRunning(line: string, t: Timetable, q: TimeOfDay, r: AdjTimes)
    requires ValidTimetable(t) && t[|t| - 2] < q <= t[|t| - 1] && NextIndex(t, q, 0) == |t| - 1
    requires !IsRunning(t[|t| - 3], q) && !IsRunning(t[|t| - 2], q) && r == AdjTimes(line, 0, 1, t[|t| - 1..])
    ensures IsWindow(t, q, r)
  {
    var n := |t|;
    assert forall m :: 0 <= m < n - 2 ==> t[m] < t[n - 2];
  }

  lemma WindowInterior(line: string, t: Timetable, q: TimeOfDay)
    requires ValidTimetable(t) && !SuspendedHours(t, q)
    requires t[1] < q <= t[|t| - 2]
    ensures IsWindow(t, q, Resolve(line, t, q, false))
  {
    var j, r := NextIndex(t, q, 0), Resolve(line, t, q, false);
    ResolveInterior(line, t, q);
    if IsRunning(t[j - 2], q) {
      InteriorTwoRunning(line, t, q, j, r);
    } else if IsRunning(t[j - 1], q) {
      InteriorOneRunning(line, t, q, j, r);
    } else {
      InteriorNoneRunning(line, t, q, j, r);
    }
  }

  /** The corrected case 6: the record around the next departure `t[j]`,
      with `t[j]` and `t[j+1]` waiting and up to two of `t[j-2]`, `t[j-1]`
      running. */
  lemma ResolveInterior(line: string, t: Timetable, q: TimeOfDay)
    requires ValidTimetable(t) && t[1] < q <= t[|t| - 2]
    ensures var j := NextIndex(t, q, 0);
      && 2 <= j <= |t| - 2 && t[j - 1] < q
      && Resolve(line, t, q, false) ==
        if IsRunning(t[j - 2], q) then AdjTimes(line, 2, 2, t[j - 2..j + 2])
        else if IsRunning(t[j - 1], q) then AdjTimes(line, 1, 2, t[j - 1..j + 2])
        else AdjTimes(line, 0, 2, t[j..j + 2])
  {
    var n, j := |t|, NextIndex(t, q, 0);
    NextIndexBetween(t, q, 1, n - 2);
    InteriorPassesEarlierTests(t, q);
    ResolveAtNextIndex(line, t, q, j);
    WindowSlices(t, j);
  }

  /** The slices the interior case lists, as the displays `Resolve` builds. */
  lemma WindowSlices(t: Timetable, j: nat)
    requires 2 <= j <= |t| - 2
    ensures t[j - 2..j + 2] == [t[j - 2], t[j - 1], t[j], t[j + 1]]
    ensures t[j - 1..j + 2] == [t[j - 1], t[j], t[j + 1]]
    ensures t[j..j + 2] == [t[j], t[j + 1]]
  {
    assert t[j - 2..j + 2] == [t[j - 2], t[j - 1], t[j], t[j + 1]];
    assert t[j - 1..j + 2] == [t[j - 1], t[j], t[j + 1]];
  }

  /** A case-6 query fails every test the corrected resolver makes before
      its scan. */
  lemma InteriorPassesEarlierTests(t: Timetable, q: TimeOfDay)
    requires ValidTimetable(t) && t[1] < q <= t[|t| - 2]
    ensures var n := |t|;
      && !SuspendedHours(t, q) && !(t[0] - HalfHour <= q <= t[0]) && !(t[0] < q <= t[1])
      && !(t[n - 1] < q) && !(t[n - 2] < q)
  {
    var n := |t|;
    assert t[0] < t[1] && t[n - 2] < t[n - 1];
  }

  lemma ResolveAtNextIndex(line: string, t: Timetable, q: TimeOfDay, j: nat)
    requires ValidTimetable(t) && j == NextIndex(t, q, 0)
    requires var n := |t|;
      && !SuspendedHours(t, q) && !(t[0] - HalfHour <= q <= t[0]) && !(t[0] < q <= t[1])
      && !(t[n - 1] < q) && !(t[n - 2] < q)
    requires 2 <= j <= |t| - 2
    ensures Resolve(line, t, q, false) ==
      if IsRunning(t[j - 2], q) then AdjTimes(line, 2, 2, [t[j - 2], t[j - 1], t[j], t[j + 1]])
      else if IsRunning(t[j - 1], q) then AdjTimes(line, 1, 2, [t[j - 1], t[j], t[j + 1]])
      else AdjTimes(line, 0, 2, [t[j], t[j + 1]])
  {
  }

  /** When the query lies in `(t[lo], t[hi]]`, so does the next departure's
      index in `(lo, hi]`. */
  lemma NextIndexBetween(t: Timetable, q: TimeOfDay, lo: nat, hi: nat)
    requires Ascending(t) && lo < hi < |t| && t[lo] < q <= t[hi]
    ensures lo < NextIndex(t, q, 0) <= hi
  {
    var j := NextIndex(t, q, 0);
    if j <= lo {
      assert false;
    }
  }

  lemma InteriorTwoRunning(line: string, t: Timetable, q: TimeOfDay, j: nat, r: AdjTimes)
    requires ValidTimetable(t) && t[1] < q <= t[|t| - 2]
    requires j == NextIndex(t, q, 0) && 2 <= j <= |t| - 2
    requires IsRunning(t[j - 2], q) && r == AdjTimes(line, 2, 2, t[j - 2..j + 2])
    ensures IsWindow(t, q, r)
  {
    RunningIsMonotone(t[j - 2], t[j - 1], q);
  }

  lemma InteriorOneRunning(line: string, t: Timetable, q: TimeOfDay, j: nat, r: AdjTimes)
    requires ValidTimetable(t) && t[1] < q <= t[|t| - 2]
    requires j == NextIndex(t, q, 0) && 2 <= j <= |t| - 2
    requires !IsRunning(t[j - 2], q) && IsRunning(t[j - 1], q) && r == AdjTimes(line, 1, 2, t[j - 1..j + 2])
    ensures IsWindow(t, q, r)
  {
    assert forall m :: 0 <= m < j - 2 ==> t[m] < t[j - 2];
  }

  lemma InteriorNoneRunning(line: string, t: Timetable, q: TimeOfDay, j: nat, r: AdjTimes)
    requires ValidTimetable(t) && t[1] < q <= t[|t| - 2]
    requires j == NextIndex(t, q, 0) && 2 <= j <= |t| - 2
    requires !IsRunning(t[j - 2], q) && !IsRunning(t[j - 1], q) && r == AdjTimes(line, 0, 2, t[j..j + 2])
    ensures IsWindow(t, q, r)
  {
    assert forall m :: 0 <= m < j - 1 ==> t[m] < t[j - 1];
  }

  /** Corrects the case-6 crash: a bus that leaves exactly at the query is
      reported as the first waiting bus, for every departure. */
  lemma ResolveAtDeparture(line: string, t: Timetable, k: nat)
    requires ValidTimetable(t) && k < |t|
    ensures var r := Resolve(line, t, t[k], false);
      r.next >= 1 && r.prev + r.next <= |r.times| && r.times[r.prev] == t[k]
  {
    var n := |t|;
    assert t[0] <= t[k] <= t[n - 1];
    ResolveWindow(line, t, t[k]);
    assert NextIndex(t, t[k], 0) == k;
  }

  /** Corrects the midnight crash: 00:00:00 lies in the suspended hours
      whenever the first bus is more than 30 minutes away. */
  lemma ResolveAtMidnight(line: string, t: Timetable, holiday: bool)
    requires ValidTimetable(t) && HalfHour < t[0]
    ensures Resolve(line, t, 0, holiday) == AdjTimes(line, 0, 0, [t[0], t[|t| - 1]])
  {
  }

  /** Corrects the idle branch of case 5: only the last bus is listed, so
      the record's length is its one waiting bus. */
  lemma ResolveIdleBeforeLast(line: string, t: Timetable, q: TimeOfDay)
    requires ValidTimetable(t) && IdleBeforeLast(t, q)
    ensures Resolve(line, t, q, false) == AdjTimes(line, 0, 1, [t[|t| - 1]])
  {
    var n := |t|;
    assert t[0] < t[1] <= t[n - 2];
  }

  /** The as-written resolver and the corrected one agree everywhere except
      on the three defects: midnight before a late first bus, the idle
      branch of case 5, and a case-6 query that falls on a departure. */
  lemma AsWrittenMatchesCorrected(line: string, t: Timetable, q: TimeOfDay, holiday: bool)
    requires ValidTimetable(t)
    ensures Adjacent(line, t, q, holiday) == Ok(Resolve(line, t, q, holiday)) <==> !Deviates(t, q, holiday)
  {
    var n := |t|;
    assert t[0] < t[1] <= t[n - 2] < t[n - 1];
    if holiday || 0 < q < t[0] - HalfHour || t[n - 1] + HalfHour < q < DayEnd {
      SuspendedCase(line, t, q, holiday);
    } else if t[0] - HalfHour <= q <= t[0] {
      PreServiceCase(line, t, q);
    } else if q < t[0] - HalfHour {
      MidnightCrashes(line, t);
    } else if q <= t[1] {
      FirstToSecondCase(line, t, q);
    } else if t[n - 1] < q {
      AfterLastCase(line, t, q);
    } else if t[n - 2] < q {
      BeforeLastCase(line, t, q);
    } else {
      InteriorMatchesCorrected(line, t, q);
    }
  }

  /** In case 6 the two resolvers agree exactly when the query is not a
      departure. */
  lemma InteriorMatchesCorrected(line: string, t: Timetable, q: TimeOfDay)
    requires ValidTimetable(t)
    requires t[1] < q <= t[|t| - 2]
    ensures Adjacent(line, t, q, false) == Ok(Resolve(line, t, q, false)) <==> q !in t
  {
    var n := |t|;
    InteriorCase(line, t, q);
    FirstLaterSkipsDeparture(t, q);
    var i, j := FirstLater(t, q, 0), NextIndex(t, q, 0);
    if q in t && j + 2 < n {
      assert t[j + 1] < t[j + 2];
      assert Resolve(line, t, q, false).times[|Resolve(line, t, q, false).times| - 1] == t[j + 1];
    }
  }
}
