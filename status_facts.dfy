/** What the status formatter promises: the vacation notice overrides
    everything, the service-ended text and every entry read back, the
    listing has one line per bus, and every record either resolver returns
    renders. */
module StatusFacts {
  import opened Text
  import opened Clock
  import opened Results
  import opened Adjacency
  import opened AdjacencyFacts
  import opened Status

  /** The service-ended text reads back the two departures it was given:
      the first bus's clock after "첫차: " and the last bus's after
      "막차: ", each five characters long. */
  lemma EndedTextReadsBack(first: TimeOfDay, last: TimeOfDay)
    ensures var e := EndedText(first, last);
      && |e| == 33
      && e[..4] == "운행종료"
      && e[4..9] == "\n첫차: " && e[9..14] == FormatClock(first)
      && e[14..23] == " (월평역 출발)"
      && e[23..28] == "\n막차: " && e[28..] == FormatClock(last)
  {
    var e := EndedText(first, last);
    var a, b := FormatClock(first), FormatClock(last);
    assert e == "운행종료" + "\n첫차: " + a + " (월평역 출발)" + "\n막차: " + b;
  }

  /** During the vacation the text is the fixed notice, whatever the record
      and the time. */
  lemma VacationOverrides(a: AdjTimes, b: AdjTimes, p: TimeOfDay, q: TimeOfDay)
    ensures StatusText(a, p, true) == StatusText(b, q, true) == Ok(VacationNotice)
  {
  }

  /** Number of line breaks in a text. */
  function LineBreaks(s: string): nat {
    if s == [] then 0 else LineBreaks(s[..|s| - 1]) + (if s[|s| - 1] == '\n' then 1 else 0)
  }

  lemma {:induction false} LineBreaksAppend(a: string, b: string)
    ensures LineBreaks(a + b) == LineBreaks(a) + LineBreaks(b)
    decreases |b|
  {
    if b == [] {
      assert a + b == a;
    } else {
      assert (a + b)[..|a + b| - 1] == a + b[..|b| - 1];
      assert (a + b)[|a + b| - 1] == b[|b| - 1];
      LineBreaksAppend(a, b[..|b| - 1]);
    }
  }

  lemma {:induction false} NoLineBreaks(s: string)
    requires forall k :: 0 <= k < |s| ==> s[k] != '\n'
    ensures LineBreaks(s) == 0
  {
    if s != [] {
      NoLineBreaks(s[..|s| - 1]);
    }
  }

  /** An entry reads back: it is one line holding the departure's HH:MM,
      then the minute distance in decimal, then the "minutes ago" label. */
  lemma EntryReadsBack(d: TimeOfDay, q: TimeOfDay)
    ensures var e := Entry(d, q);
      && |e| >= 10 && e[0] == '\n' && e[1..6] == FormatClock(d) && e[6] == '('
      && e[|e| - 3..] == "분전)"
      && (forall k :: 7 <= k < |e| - 3 ==> IsDigit(e[k]))
      && ParseDecimal(e[7..|e| - 3]) == MinutesBetween(d, q)
      && LineBreaks(e) == 1
  {
    var e, digits := Entry(d, q), Decimal(MinutesBetween(d, q));
    assert e[7..|e| - 3] == digits;
    DecimalRoundTrip(MinutesBetween(d, q));
    EntryIsOneLine(d, q);
  }

  /** An entry holds exactly one line break, the one it starts with. */
  lemma EntryIsOneLine(d: TimeOfDay, q: TimeOfDay)
    ensures LineBreaks(Entry(d, q)) == 1
  {
    var clock, digits := FormatClock(d), Decimal(MinutesBetween(d, q));
    var rest := clock + "(" + digits + "분전)";
    assert Entry(d, q) == "\n" + rest;
    RestOfEntryHasNoLineBreak(clock, digits);
    LineBreaksAppend("\n", rest);
    assert "\n"[..0] == [];
  }

  lemma RestOfEntryHasNoLineBreak(clock: string, digits: string)
    requires forall k :: 0 <= k < |clock| ==> clock[k] != '\n'
    requires forall k :: 0 <= k < |digits| ==> digits[k] != '\n'
    ensures LineBreaks(clock + "(" + digits + "분전)") == 0
  {
    NoLineBreaks(clock);
    NoLineBreaks(digits);
    EntryLiteralsHaveNoLineBreak();
    LineBreaksAppend(clock, "(");
    LineBreaksAppend(clock + "(", digits);
    LineBreaksAppend(clock + "(" + digits, "분전)");
  }

  /** The fixed pieces around an entry's minute count hold no line break. */
  lemma EntryLiteralsHaveNoLineBreak()
    ensures LineBreaks("(") == 0 && LineBreaks("분전)") == 0
  {
    NoLineBreaks("(");
    NoLineBreaks("분전)");
  }

  /** Each bus of `times[lo..hi)` adds one line to a listing whose
      writer puts one line break in every line. */
  lemma {:induction false} LinesOnePerBus(line: (TimeOfDay, TimeOfDay) -> string, times: seq<TimeOfDay>, q: TimeOfDay, lo: nat, hi: nat)
    requires lo <= hi <= |times|
    requires forall d: TimeOfDay :: LineBreaks(line(d, q)) == 1
    ensures LineBreaks(Lines(line, times, q, lo, hi)) == hi - lo
    decreases hi - lo
  {
    if lo < hi {
      LinesOnePerBus(line, times, q, lo, hi - 1);
      LineBreaksAppend(Lines(line, times, q, lo, hi - 1), line(times[hi - 1], q));
    }
  }

  /** A listing splits at any bus into the listings before and from it. */
  lemma {:induction false} LinesSplit(line: (TimeOfDay, TimeOfDay) -> string, times: seq<TimeOfDay>, q: TimeOfDay, lo: nat, mid: nat, hi: nat)
    requires lo <= mid <= hi <= |times|
    ensures Lines(line, times, q, lo, hi) == Lines(line, times, q, lo, mid) + Lines(line, times, q, mid, hi)
    decreases hi - mid
  {
    if mid == hi {
      assert Lines(line, times, q, mid, hi) == [];
    } else {
      LinesSplit(line, times, q, lo, mid, hi - 1);
      var a, b, e := Lines(line, times, q, lo, mid), Lines(line, times, q, mid, hi - 1), line(times[hi - 1], q);
      assert (a + b) + e == a + (b + e);
    }
  }

  /** The listing of `times[lo..hi)` has one line per listed bus. */
  lemma EntriesOnePerBus(times: seq<TimeOfDay>, q: TimeOfDay, lo: nat, hi: nat)
    requires lo <= hi <= |times|
    ensures LineBreaks(Entries(times, q, lo, hi)) == hi - lo
  {
    forall d: TimeOfDay
      ensures LineBreaks(Entry(d, q)) == 1
    {
      EntryIsOneLine(d, q);
    }
    LinesOnePerBus(Entry, times, q, lo, hi);
  }

  /** Listing the running buses and then the waiting ones lists the
      record's buses in order: the two groups together are the listing of
      `times[0..prev+next)`. */
  lemma EntriesSplit(times: seq<TimeOfDay>, q: TimeOfDay, lo: nat, mid: nat, hi: nat)
    requires lo <= mid <= hi <= |times|
    ensures Entries(times, q, lo, hi) == Entries(times, q, lo, mid) + Entries(times, q, mid, hi)
  {
    LinesSplit(Entry, times, q, lo, mid, hi);
  }

  /** A record the corrected resolver returns always renders: the
      formatter never reads past the end of its `times`. */
  lemma ResolvedRecordRenders(line: string, t: Timetable, q: TimeOfDay, holiday: bool, vacation: bool)
    requires ValidTimetable(t)
    ensures StatusText(Resolve(line, t, q, holiday), q, vacation).Ok?
  {
  }

  /** Every record the as-written resolver returns renders as well. */
  lemma AsWrittenRecordRenders(line: string, t: Timetable, q: TimeOfDay, holiday: bool, vacation: bool)
    requires ValidTimetable(t)
    requires Adjacent(line, t, q, holiday).Ok?
    ensures StatusText(Adjacent(line, t, q, holiday).value, q, vacation).Ok?
  {
    AsWrittenRecordShape(line, t, q, holiday);
  }

  /** In the idle branch of case 5 the as-written record makes the status
      show the second-to-last bus, which has already left, as the one bus
      waiting; the corrected record shows the last bus. */
  lemma IdleBeforeLastShowsDepartedBus(line: string, t: Timetable, q: TimeOfDay)
    requires ValidTimetable(t) && IdleBeforeLast(t, q)
    ensures StatusText(Adjacent(line, t, q, false).value, q, false)
      == Ok(RunningHeader(0) + "\n\n" + WaitingHeader(1) + Entry(t[|t| - 2], q))
    ensures StatusText(Resolve(line, t, q, false), q, false)
      == Ok(RunningHeader(0) + "\n\n" + WaitingHeader(1) + Entry(t[|t| - 1], q))
  {
    BeforeLastCase(line, t, q);
    ResolveIdleBeforeLast(line, t, q);
    OneWaitingText(Adjacent(line, t, q, false).value, q);
    OneWaitingText(Resolve(line, t, q, false), q);
  }

  /** The text of a record with no bus running and one waiting names the
      first of its times. */
  lemma OneWaitingText(a: AdjTimes, q: TimeOfDay)
    requires a.prev == 0 && a.next == 1 && |a.times| >= 1
    ensures StatusText(a, q, false) == Ok(RunningHeader(0) + "\n\n" + WaitingHeader(1) + Entry(a.times[0], q))
  {
    var e := Entry(a.times[0], q);
    assert Entries(a.times, q, 0, 0) == "";
    assert Entries(a.times, q, 0, 1) == "" + e == e;
    assert RunningHeader(0) + "" + "\n\n" == RunningHeader(0) + "\n\n";
  }
}
