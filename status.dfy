/** The status formatter `get_str_info` (with its inner `get_info`): the
    text shown for one route, given a resolver record and the query time. */
module Status {
  import opened Text
  import opened Clock
  import opened Results
  import opened Adjacency

  /** "No shuttle service during the vacation." */
  const VacationNotice: string := "방학 중 셔틀 운행 하지 않습니다."

  /** One listed bus: a new line, its departure as HH:MM and its distance
      from the query in minutes, labelled "minutes ago" for running and
      waiting buses alike. */
  function Entry(d: TimeOfDay, q: TimeOfDay): string {
    "\n" + FormatClock(d) + "(" + Decimal(MinutesBetween(d, q)) + "분전)"
  }

  /** The lines `line` writes for the buses `times[lo..hi)`, in order,
      each given the query time: the shape of a `for` loop of `get_info`. */
  function Lines(line: (TimeOfDay, TimeOfDay) -> string, times: seq<TimeOfDay>, q: TimeOfDay, lo: nat, hi: nat): string
    requires lo <= hi <= |times|
    decreases hi - lo
  {
    if lo == hi then "" else Lines(line, times, q, lo, hi - 1) + line(times[hi - 1], q)
  }

  /** The entries of `times[lo..hi)`, in order: what the `for` loops of
      `get_info` append. */
  function Entries(times: seq<TimeOfDay>, q: TimeOfDay, lo: nat, hi: nat): string
    requires lo <= hi <= |times|
  {
    Lines(Entry, times, q, lo, hi)
  }

  /** "Service ended", the first bus (leaving from Wolpyeong station) and
      the last bus. */
  function EndedText(first: TimeOfDay, last: TimeOfDay): string {
    "운행종료" + "\n첫차: " + FormatClock(first) + " (월평역 출발)" + "\n막차: " + FormatClock(last)
  }

  /** "[N buses running]" */
  function RunningHeader(prev: nat): string {
    "[" + Decimal(prev) + "대 운행중]"
  }

  /** "[N buses waiting]" */
  function WaitingHeader(next: nat): string {
    "[" + Decimal(next) + "대 대기중]"
  }

  /** `get_str_info(adj, q)` with `is_vacation()` as `vacation`. */
  function StatusText(adj: AdjTimes, q: TimeOfDay, vacation: bool): Result<string> {
    if vacation then Ok(VacationNotice) else InfoText(adj, q)
  }

  /** `get_info(adj.prev, adj.next)`: the service-ended text, or the running
      group followed by the waiting group.  Reading past the end of `times`
      raises IndexError at the first missing position, which is always
      `|times|`. */
  function InfoText(adj: AdjTimes, q: TimeOfDay): Result<string> {
    if adj.prev == 0 && adj.next == 0 then
      if |adj.times| < 2 then Err(IndexOutOfRange(|adj.times|))
      else Ok(EndedText(adj.times[0], adj.times[1]))
    else if |adj.times| < Listed(adj) then Err(IndexOutOfRange(|adj.times|))
    else Ok(Layout(RunningHeader(adj.prev), Entries(adj.times, q, 0, adj.prev),
                   WaitingHeader(adj.next), Entries(adj.times, q, adj.prev, Listed(adj))))
  }

  /** How many buses a record lists: the running ones, then the waiting
      ones. */
  function Listed(adj: AdjTimes): nat {
    adj.prev + adj.next
  }

  /** The running group, a blank line, and the waiting group. */
  function Layout(runningHeader: string, running: string, waitingHeader: string, waiting: string): string {
    runningHeader + running + "\n\n" + waitingHeader + waiting
  }

  /** One of `get_info`'s `for` loops: append the entries of
      `times[lo..hi)` to `info` with `+=`, raising IndexError at the first
      position past the end of `times`. */
  method AppendEntries(info: string, times: seq<TimeOfDay>, q: TimeOfDay, lo: nat, hi: nat) returns (r: Result<string>)
    requires lo <= hi && lo <= |times|
    ensures r == if |times| < hi then Err(IndexOutOfRange(|times|)) else Ok(info + Entries(times, q, lo, hi))
  {
    var text := info;
    for i := lo to hi
      invariant i <= |times|
      invariant text == info + Entries(times, q, lo, i)
    {
      if i == |times| {
        return Err(IndexOutOfRange(i));
      }
      assert Entries(times, q, lo, i + 1) == Entries(times, q, lo, i) + Entry(times[i], q);
      text := text + Entry(times[i], q);
    }
    return Ok(text);
  }

  /** `get_str_info`: the vacation notice, or what `get_info` returns. */
  method GetStrInfo(adj: AdjTimes, q: TimeOfDay, vacation: bool) returns (r: Result<string>)
    ensures r == StatusText(adj, q, vacation)
  {
    if vacation {
      return Ok(VacationNotice);
    }
    r := GetInfo(adj, q);
  }

  /** `get_info`: the service-ended text, or the running header and its
      entries, a blank line, and the waiting header and its entries. */
  method GetInfo(adj: AdjTimes, q: TimeOfDay) returns (r: Result<string>)
    ensures r == InfoText(adj, q)
  {
    if adj.prev == 0 && adj.next == 0 {
      if |adj.times| < 2 {
        return Err(IndexOutOfRange(|adj.times|));
      }
      return Ok(EndedText(adj.times[0], adj.times[1]));
    }
    var running := AppendEntries(RunningHeader(adj.prev), adj.times, q, 0, adj.prev);
    if running.Err? {
      return running;
    }
    var head := running.value + "\n\n" + WaitingHeader(adj.next);
    r := AppendEntries(head, adj.times, q, adj.prev, Listed(adj));
    if r.Ok? {
      InfoTextListed(adj, q, running.value, head, r.value);
    }
  }

  /** Appending the blank line, the waiting header and the waiting group's
      entries to the running group's text gives what `get_info` returns
      for a record with listed buses. */
  lemma InfoTextListed(adj: AdjTimes, q: TimeOfDay, running: string, head: string, text: string)
    requires !(adj.prev == 0 && adj.next == 0) && Listed(adj) <= |adj.times|
    requires running == RunningHeader(adj.prev) + Entries(adj.times, q, 0, adj.prev)
    requires head == running + "\n\n" + WaitingHeader(adj.next)
    requires text == head + Entries(adj.times, q, adj.prev, Listed(adj))
    ensures InfoText(adj, q) == Ok(text)
  {
  }
}
