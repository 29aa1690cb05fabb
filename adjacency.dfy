/** The adjacency resolver `find_adjacent_times`: which buses of one route
    are running and which are about to leave at a query instant.

    `Adjacent` is the resolver as written, failures included: the timetable
    is a dict keyed by position, so a key outside 0..n-1 raises KeyError
    (negative keys included: this is not Python list indexing), and a scan
    that finds nothing returns None.  `FindAdjacentTimes` runs the same
    case analysis with the case-6 scan as a loop.  `Resolve` is the resolver
    with the three defects described in the README corrected. */
module Adjacency {
  import opened Clock
  import opened Results

  /** `AdjTimes`: route name, number of buses running (`prev_`), number
      waiting (`next_`), and their departure times. */
  datatype AdjTimes = AdjTimes(line: string, prev: nat, next: nat, times: seq<TimeOfDay>)

  /** A route's departures, `line_times[0]`, `line_times[1]`, ... */
  type Timetable = seq<TimeOfDay>

  predicate Ascending(t: Timetable) {
    forall i, j :: 0 <= i < j < |t| ==> t[i] < t[j]
  }

  /** What every route's timetable satisfies: strictly ascending, and long
      enough for every region the resolver distinguishes. */
  predicate ValidTimetable(t: Timetable) {
    |t| >= 3 && Ascending(t)
  }

  /** `line_times[k]`. */
  function Get(t: Timetable, k: int): Result<TimeOfDay> {
    if 0 <= k < |t| then Ok(t[k]) else Err(MissingKey(k))
  }

  /** The first index at or after `from` whose departure is strictly later
      than `q` (|t| when there is none). */
  function FirstLater(t: Timetable, q: TimeOfDay, from: nat): (i: nat)
    requires from <= |t|
    ensures from <= i <= |t|
    ensures forall m :: from <= m < i ==> t[m] <= q
    ensures i < |t| ==> q < t[i]
    decreases |t| - from
  {
    if from == |t| || q < t[from] then from else FirstLater(t, q, from + 1)
  }

  /** The first index at or after `from` whose departure is not earlier than
      `q` (|t| when there is none). */
  function NextIndex(t: Timetable, q: TimeOfDay, from: nat): (j: nat)
    requires from <= |t|
    ensures from <= j <= |t|
    ensures forall m :: from <= m < j ==> t[m] < q
    ensures j < |t| ==> q <= t[j]
    decreases |t| - from
  {
    if from == |t| || q <= t[from] then from else NextIndex(t, q, from + 1)
  }

  // ---------------------------------------------------------------------
  // The resolver as written
  // ---------------------------------------------------------------------

  /** The test of case 1, evaluated left to right with short-circuiting:
      holiday, or 00:00:00 < q < first - 30 min, or
      last + 30 min < q < 23:59:59. */
  function SuspendedTest(t: Timetable, q: TimeOfDay, holiday: bool): Result<bool> {
    if holiday then Ok(true)
    else
      var early :- if 0 < q then (var first :- Get(t, 0); Ok(q < first - HalfHour)) else Ok(false);
      if early then Ok(true)
      else
        var last :- Get(t, |t| - 1);
        Ok(last + HalfHour < q < DayEnd)
  }

  /** Cases 1 to 5 of `find_adjacent_times`; `None` when none of them
      applies and the case-6 scan decides. */
  function Regions1To5(line: string, t: Timetable, q: TimeOfDay, holiday: bool): Result<Option<AdjTimes>> {
    var lastIndex := |t| - 1;
    var suspended :- SuspendedTest(t, q, holiday);
    if suspended then
      var first :- Get(t, 0);
      var last :- Get(t, lastIndex);
      Ok(Some(AdjTimes(line, 0, 0, [first, last])))
    else
      var first :- Get(t, 0);
      if first - HalfHour <= q <= first then
        var second :- Get(t, 1);
        Ok(Some(AdjTimes(line, 0, 2, [first, second])))
      else if first < q then
        var second :- Get(t, 1);
        if q <= second then
          var third :- Get(t, 2);
          Ok(Some(AdjTimes(line, 1, 2, [first, second, third])))
        else Regions4To5(line, t, q, first)
      else Regions4To5(line, t, q, first)
  }

  /** Cases 4 and 5, reached when cases 1 to 3 do not apply; `first` is
      `line_times[0]`. */
  function Regions4To5(line: string, t: Timetable, q: TimeOfDay, first: TimeOfDay): Result<Option<AdjTimes>> {
    var lastIndex := |t| - 1;
    var last :- Get(t, lastIndex);
    var beforeLast :- Get(t, lastIndex - 1);
    if last < q then
      if IsRunning(beforeLast, q) then Ok(Some(AdjTimes(line, 2, 0, [beforeLast, last])))
      else if IsRunning(last, q) then Ok(Some(AdjTimes(line, 1, 0, [last])))
      else Ok(Some(AdjTimes(line, 0, 0, [first, last])))
    else if beforeLast < q then
      var third :- Get(t, lastIndex - 2);
      if IsRunning(third, q) then Ok(Some(AdjTimes(line, 2, 1, [third, beforeLast, last])))
      else if IsRunning(beforeLast, q) then Ok(Some(AdjTimes(line, 1, 1, [beforeLast, last])))
      else Ok(Some(AdjTimes(line, 0, 1, [beforeLast, last])))
    else Ok(None)
  }

  /** One step of the case-6 scan, at an index `i` whose departure is later
      than `q`: two waiting (`t[i]`, `t[i+1]`) and up to two running. */
  function ScanStep(line: string, t: Timetable, q: TimeOfDay, i: nat): Result<AdjTimes>
    requires i < |t|
  {
    var twoBack :- Get(t, i - 2);
    if IsRunning(twoBack, q) then
      var oneBack :- Get(t, i - 1);
      var after :- Get(t, i + 1);
      Ok(AdjTimes(line, 2, 2, [twoBack, oneBack, t[i], after]))
    else
      var oneBack :- Get(t, i - 1);
      var after :- Get(t, i + 1);
      if IsRunning(oneBack, q) then Ok(AdjTimes(line, 1, 2, [oneBack, t[i], after]))
      else Ok(AdjTimes(line, 0, 2, [t[i], after]))
  }

  /** The case-6 scan from index `from` on. */
  function Scan(line: string, t: Timetable, q: TimeOfDay, from: nat): Result<AdjTimes>
    requires from <= |t|
    decreases |t| - from
  {
    if from == |t| then Err(NoneReturned)
    else if q < t[from] then ScanStep(line, t, q, from)
    else Scan(line, t, q, from + 1)
  }

  /** `find_adjacent_times(line, q)` on the route's timetable `t`. */
  function Adjacent(line: string, t: Timetable, q: TimeOfDay, holiday: bool): Result<AdjTimes> {
    var early :- Regions1To5(line, t, q, holiday);
    match early
    case Some(r) => Ok(r)
    case None => Scan(line, t, q, 0)
  }

  /** `find_adjacent_times`, with the case-6 `for` loop over the timetable's
      items and its early return. */
  method FindAdjacentTimes(line: string, t: Timetable, q: TimeOfDay, holiday: bool) returns (r: Result<AdjTimes>)
    ensures r == Adjacent(line, t, q, holiday)
  {
    var early := Regions1To5(line, t, q, holiday);
    if early.Err? {
      return Err(early.fault);
    }
    if early.value.Some? {
      return Ok(early.value.value);
    }
    for i := 0 to |t|
      invariant Scan(line, t, q, i) == Scan(line, t, q, 0)
    {
      if q < t[i] {
        return ScanStep(line, t, q, i);
      }
    }
    return Err(NoneReturned);
  }

  // ---------------------------------------------------------------------
  // The resolver corrected
  // ---------------------------------------------------------------------

  /** The hours in which the corrected resolver reports the service as
      suspended: from midnight (inclusive) to 30 minutes before the first
      departure, and from 30 minutes after the last one to 23:59:59. */
  predicate SuspendedHours(t: Timetable, q: TimeOfDay)
    requires |t| >= 1
  {
    0 <= q < t[0] - HalfHour || t[|t| - 1] + HalfHour < q < DayEnd
  }

  /** `find_adjacent_times` with three corrections: midnight itself is in
      the suspended hours; an idle case 5 lists only the last departure;
      the case-6 scan stops at the first departure at or after `q`. */
  function Resolve(line: string, t: Timetable, q: TimeOfDay, holiday: bool): (r: AdjTimes)
    requires ValidTimetable(t)
    ensures r.prev <= 2 && r.next <= 2
  {
    var n := |t|;
    if holiday || SuspendedHours(t, q) then AdjTimes(line, 0, 0, [t[0], t[n - 1]])
    else if t[0] - HalfHour <= q <= t[0] then AdjTimes(line, 0, 2, [t[0], t[1]])
    else if t[0] < q <= t[1] then AdjTimes(line, 1, 2, [t[0], t[1], t[2]])
    else if t[n - 1] < q then
      if IsRunning(t[n - 2], q) then AdjTimes(line, 2, 0, [t[n - 2], t[n - 1]])
      else if IsRunning(t[n - 1], q) then AdjTimes(line, 1, 0, [t[n - 1]])
      else AdjTimes(line, 0, 0, [t[0], t[n - 1]])
    else if t[n - 2] < q then
      if IsRunning(t[n - 3], q) then AdjTimes(line, 2, 1, [t[n - 3], t[n - 2], t[n - 1]])
      else if IsRunning(t[n - 2], q) then AdjTimes(line, 1, 1, [t[n - 2], t[n - 1]])
      else AdjTimes(line, 0, 1, [t[n - 1]])
    else
      var i := NextIndex(t, q, 0);
      assert t[1] < q && 2 <= i <= n - 2;
      if IsRunning(t[i - 2], q) then AdjTimes(line, 2, 2, [t[i - 2], t[i - 1], t[i], t[i + 1]])
      else if IsRunning(t[i - 1], q) then AdjTimes(line, 1, 2, [t[i - 1], t[i], t[i + 1]])
      else AdjTimes(line, 0, 2, [t[i], t[i + 1]])
  }
}
