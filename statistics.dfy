/**
 * The global statistics of src/App.tsx: the zero state, the stats half of
 * `handleSaveSession`, and what `StatsScreen` reads from them.
 */
module Statistics {
  import opened Types

  /** The zero statistics used when nothing is stored (src/App.tsx:62-66): the
      daily entries add up to the totals, no day shows a session, and the
      statistics screen counts one day. */
  function DefaultStats(): (s: GlobalStats)
    ensures Consistent(s) && DateKeyed(s)
    ensures forall d :: DayEntry(s.dailyStats, d) == DayStat(0, 0)
    ensures DaysCount(s) == 1
  {
    GlobalStats(0, 0, map[])
  }

  function Plus(a: DayStat, b: DayStat): DayStat {
    DayStat(a.count + b.count, a.duration + b.duration)
  }

  /** A day's entry, or `{0, 0}` when the day has none (`dailyStats[today] || {…}`). */
  function DayEntry(daily: map<string, DayStat>, day: string): (e: DayStat)
    ensures day in daily ==> e == daily[day]
    ensures day !in daily ==> e == DayStat(0, 0)
  {
    if day in daily then daily[day] else DayStat(0, 0)
  }

  /** A `YYYY-MM-DD` date key, the shape `toISOString().split('T')[0]` gives
      (src/App.tsx:116). */
  predicate IsDateKey(s: string) {
    |s| == 10
    && forall i :: 0 <= i < 10 ==> if i == 4 || i == 7 then s[i] == '-' else '0' <= s[i] <= '9'
  }

  /** Every day recorded in the statistics has a date key. */
  predicate DateKeyed(stats: GlobalStats) {
    forall d :: d in stats.dailyStats ==> IsDateKey(d)
  }

  /** The stats half of `handleSaveSession`: one more session of `duration`
      seconds, in the totals and in the entry of `today`. */
  function RecordSession(stats: GlobalStats, today: string, duration: nat): (r: GlobalStats)
    requires IsDateKey(today)
    ensures DateKeyed(stats) ==> DateKeyed(r)
    ensures r.totalCount == stats.totalCount + 1
    ensures r.totalDuration == stats.totalDuration + duration
    ensures r.dailyStats.Keys == stats.dailyStats.Keys + {today}
    ensures r.dailyStats[today] == Plus(DayEntry(stats.dailyStats, today), DayStat(1, duration))
    ensures forall d :: d in stats.dailyStats && d != today ==> r.dailyStats[d] == stats.dailyStats[d]
  {
    var todayStats := DayEntry(stats.dailyStats, today);
    GlobalStats(
      stats.totalCount + 1,
      stats.totalDuration + duration,
      stats.dailyStats[today := DayStat(todayStats.count + 1, todayStats.duration + duration)])
  }

  /** The sum of all daily entries. */
  ghost function Total(daily: map<string, DayStat>): DayStat
    decreases |daily|
  {
    if daily == map[] then DayStat(0, 0)
    else
      var d :| d in daily;
      Plus(daily[d], Total(daily - {d}))
  }

  /** The daily entries add up to the totals. */
  ghost predicate Consistent(stats: GlobalStats) {
    Total(stats.dailyStats) == DayStat(stats.totalCount, stats.totalDuration)
  }

  /** Any one entry can be split off the sum, whichever entry `Total` chose first. */
  lemma {:induction false} TotalSplit(daily: map<string, DayStat>, day: string)
    requires day in daily
    ensures Total(daily) == Plus(daily[day], Total(daily - {day}))
    decreases |daily|
  {
    var d :| d in daily && Total(daily) == Plus(daily[d], Total(daily - {d}));
    if d != day {
      var rest := daily - {d};
      TotalSplit(rest, day);
      assert rest - {day} == (daily - {day}) - {d};
      TotalSplit(daily - {day}, d);
      var t := Total(rest - {day});
      assert Total(rest) == Plus(daily[day], t);
      assert Total(daily - {day}) == Plus(daily[d], t);
      assert Total(daily) == Plus(daily[d], Plus(daily[day], t));
    }
  }

  /** Replacing one entry changes the sum by the difference of old and new entry. */
  lemma TotalUpdate(daily: map<string, DayStat>, day: string, e: DayStat)
    ensures Plus(Total(daily[day := e]), DayEntry(daily, day)) == Plus(Total(daily), e)
  {
    var updated := daily[day := e];
    TotalSplit(updated, day);
    assert updated - {day} == daily - {day};
    if day in daily {
      TotalSplit(daily, day);
    } else {
      assert daily - {day} == daily;
    }
  }

  /** Recording a session keeps the daily entries adding up to the totals. */
  lemma RecordSessionConsistent(stats: GlobalStats, today: string, duration: nat)
    requires Consistent(stats) && IsDateKey(today)
    ensures Consistent(RecordSession(stats, today, duration))
  {
    var e := Plus(DayEntry(stats.dailyStats, today), DayStat(1, duration));
    TotalUpdate(stats.dailyStats, today, e);
  }

  /** Under consistency no single day exceeds the totals. */
  lemma DayWithinTotals(stats: GlobalStats, day: string)
    requires Consistent(stats)
    ensures DayEntry(stats.dailyStats, day).count <= stats.totalCount
    ensures DayEntry(stats.dailyStats, day).duration <= stats.totalDuration
  {
    if day in stats.dailyStats {
      TotalSplit(stats.dailyStats, day);
    }
  }

  /** `StatsScreen`'s number of days: the number of recorded days, but at least 1. */
  function DaysCount(stats: GlobalStats): (n: nat)
    ensures n >= 1
    ensures n == |stats.dailyStats| || (stats.dailyStats == map[] && n == 1)
  {
    if |stats.dailyStats| == 0 then 1 else |stats.dailyStats|
  }

  /** After a session of any length, today's entry shows at least one session and the day count is positive. */
  lemma SessionShowsToday(stats: GlobalStats, today: string, duration: nat)
    requires IsDateKey(today)
    ensures var r := RecordSession(stats, today, duration);
      DayEntry(r.dailyStats, today).count >= 1
      && DayEntry(r.dailyStats, today).duration >= duration
      && DaysCount(r) == |stats.dailyStats| + (if today in stats.dailyStats then 0 else 1)
  {
    var r := RecordSession(stats, today, duration);
    if today !in stats.dailyStats {
      assert |r.dailyStats.Keys| == |stats.dailyStats.Keys| + 1;
    } else {
      assert r.dailyStats.Keys == stats.dailyStats.Keys;
    }
  }
}
