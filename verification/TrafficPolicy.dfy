/** Per-host traffic policy and the calendar that decides when its cycle ends.

    Times are Unix seconds in UTC. Months are numbered year * 12 + (month - 1),
    and their first days follow the Gregorian calendar.
  */
module TrafficPolicy {
  import opened Text

  datatype LimitType = Upload | Download | Sum
  datatype Action = NotifyOnly | SubscriptionExclude | DisableServers | ResetLinks
  datatype ResetMode = Off | FixedDay | CalendarMonth | IntervalDays

  /** last_reset_cycle_key, one constructor for each text the service writes there. */
  datatype CycleKey = NoKey | Manual(at: int) | Fixed(month: int, day: int) | Calendar(month: int)
                    | Interval(anchor: int, index: int)

  datatype Policy = Policy(enabled: bool, limitBytes: int, limitType: LimitType, percent: int, action: Action,
                           reached: bool, mode: ResetMode, resetDay: int, intervalDays: int, anchorAt: int,
                           lastResetAt: int, lastKey: CycleKey, updatedAt: int)

  /** The agent host row, of which only created_at is read. */
  datatype HostRow = Found(createdAt: int) | Missing | Broken

  // ---------------------------------------------------------------- calendar

  const DAY: int := 86400

  predicate Leap(y: int) { y % 4 == 0 && (y % 100 != 0 || y % 400 == 0) }

  function MonthLength(m: int): (n: int)
    ensures 28 <= n <= 31
  {
    var mo := m % 12;
    if mo == 1 then if Leap(m / 12) then 29 else 28
    else if mo == 3 || mo == 5 || mo == 8 || mo == 10 then 30 else 31
  }

  const EPOCH_MONTH: int := 1970 * 12

  /** Days from 1970-01-01 to the first day of month m, counted month by month. */
  function FirstDay(m: int): int
    decreases if m >= EPOCH_MONTH then m - EPOCH_MONTH else EPOCH_MONTH - m
  {
    if m == EPOCH_MONTH then 0
    else if m > EPOCH_MONTH then FirstDay(m - 1) + MonthLength(m - 1)
    else FirstDay(m + 1) - MonthLength(m)
  }

  function MonthStart(m: int): int { FirstDay(m) * DAY }

  /** The months tile the calendar: each begins where the one before it ends. */
  lemma MonthStep(m: int)
    ensures FirstDay(m + 1) == FirstDay(m) + MonthLength(m)
  {
  }

  lemma {:induction false} MonthsAreOrdered(m: int, n: int)
    requires m < n
    ensures MonthStart(m) + 28 * DAY <= MonthStart(n)
    ensures MonthStart(m + 1) <= MonthStart(n)
    decreases n - m
  {
    MonthStep(n - 1);
    if m < n - 1 {
      MonthsAreOrdered(m, n - 1);
    }
    MonthStep(m);
  }

  function SeekMonth(now: int, m: int): (r: int)
    ensures MonthStart(r) <= now < MonthStart(r + 1)
    decreases if MonthStart(m) > now then MonthStart(m) - now else now - MonthStart(m)
  {
    MonthStep(m);
    MonthStep(m - 1);
    if MonthStart(m) > now then
      if MonthStart(m - 1) <= now then m - 1 else SeekMonth(now, m - 1)
    else if MonthStart(m + 1) <= now then SeekMonth(now, m + 1) else m
  }

  /** The month of a time, as time.Time.Date() reports it. */
  function MonthOf(now: int): (m: int)
    ensures MonthStart(m) <= now < MonthStart(m + 1)
  {
    SeekMonth(now, EPOCH_MONTH)
  }

  lemma MonthOfIsUnique(now: int, m: int)
    requires MonthStart(m) <= now < MonthStart(m + 1)
    ensures MonthOf(now) == m
  {
    if m < MonthOf(now) {
      MonthsAreOrdered(m, MonthOf(now));
    } else if m > MonthOf(now) {
      MonthsAreOrdered(MonthOf(now), m);
    }
  }

  lemma MonthOfIsMonotonic(a: int, b: int)
    requires a <= b
    ensures MonthOf(a) <= MonthOf(b)
  {
    if MonthOf(b) < MonthOf(a) {
      MonthsAreOrdered(MonthOf(b), MonthOf(a));
    }
  }

  // The closed form of the same calendar, as an independent check.

  function DaysBeforeYear(y: int): int { 365 * y + (y - 1) / 4 - (y - 1) / 100 + (y - 1) / 400 }

  function DaysBeforeMonth(mo: int): int
    requires 0 <= mo < 12
  {
    [0, 31, 59, 90, 120, 151, 181, 212, 243, 273, 304, 334][mo]
  }

  function GregorianFirstDay(m: int): int {
    DaysBeforeYear(m / 12) - DaysBeforeYear(1970) + DaysBeforeMonth(m % 12)
    + if m % 12 >= 2 && Leap(m / 12) then 1 else 0
  }

  lemma YearStep(y: int)
    ensures DaysBeforeYear(y + 1) == DaysBeforeYear(y) + if Leap(y) then 366 else 365
  {
    QuotientStep(y, y / 4, y % 4, 4);
    QuotientStep(y, y / 100, y % 100, 100);
    QuotientStep(y, y / 400, y % 400, 400);
    if y % 100 == 0 { FourTimes(y, 25 * (y / 100)); }
    if y % 400 == 0 { HundredTimes(y, 4 * (y / 400)); }
  }

  lemma QuotientStep(y: int, q: int, r: int, k: int)
    requires k == 4 || k == 100 || k == 400
    requires y == k * q + r && 0 <= r < k
    ensures y / k - (y - 1) / k == if y % k == 0 then 1 else 0
  {
    if k == 4 {
      assert y - 1 == if r > 0 then 4 * q + (r - 1) else 4 * (q - 1) + 3;
    } else if k == 100 {
      assert y - 1 == if r > 0 then 100 * q + (r - 1) else 100 * (q - 1) + 99;
    } else {
      assert y - 1 == if r > 0 then 400 * q + (r - 1) else 400 * (q - 1) + 399;
    }
  }

  lemma FourTimes(y: int, k: int)
    requires y == 4 * k
    ensures y % 4 == 0
  {
  }

  lemma HundredTimes(y: int, k: int)
    requires y == 100 * k
    ensures y % 100 == 0
  {
  }

  lemma GregorianStep(m: int)
    ensures GregorianFirstDay(m + 1) == GregorianFirstDay(m) + MonthLength(m)
  {
    YearStep(m / 12);
    if m % 12 == 11 {
      assert (m + 1) / 12 == m / 12 + 1 && (m + 1) % 12 == 0;
    } else {
      assert (m + 1) / 12 == m / 12 && (m + 1) % 12 == m % 12 + 1;
    }
  }

  /** Counting month by month gives the Gregorian day number. */
  lemma {:induction false} FirstDayIsGregorian(m: int)
    ensures FirstDay(m) == GregorianFirstDay(m)
    decreases if m >= EPOCH_MONTH then m - EPOCH_MONTH else EPOCH_MONTH - m
  {
    if m > EPOCH_MONTH {
      FirstDayIsGregorian(m - 1);
      BothStep(m - 1);
    } else if m < EPOCH_MONTH {
      FirstDayIsGregorian(m + 1);
      BothStep(m);
    } else {
      BothStart();
    }
  }

  lemma BothStart()
    ensures FirstDay(EPOCH_MONTH) == GregorianFirstDay(EPOCH_MONTH)
  {
  }

  lemma BothStep(m: int)
    ensures FirstDay(m + 1) - FirstDay(m) == GregorianFirstDay(m + 1) - GregorianFirstDay(m)
  {
    MonthStep(m);
    GregorianStep(m);
  }

  // ---------------------------------------------------------------- decisions

  datatype Due = NotDue | DueNow(resetAt: int, key: CycleKey) | DueUnknown
  datatype Forecast = NoForecast | At(resetAt: int, key: CycleKey) | ForecastUnknown

  predicate Monthly(p: Policy) { p.mode.FixedDay? || p.mode.CalendarMonth? }

  function DueDay(p: Policy, m: int): int {
    if p.mode.CalendarMonth? then 1
    else
      var day := if p.resetDay <= 0 then 1 else p.resetDay;
      if day > MonthLength(m) then MonthLength(m) else day
  }

  function DueAt(p: Policy, m: int): int { MonthStart(m) + (DueDay(p, m) - 1) * DAY }

  function MonthKey(p: Policy, m: int): CycleKey {
    if p.mode.CalendarMonth? then Calendar(m) else Fixed(m, DueDay(p, m))
  }

  /** Falls back to updated_at before the host row. */
  function InitialAnchor(p: Policy, host: HostRow): int {
    if p.anchorAt > 0 then p.anchorAt
    else if p.updatedAt > 0 then p.updatedAt
    else if host.Found? then host.createdAt
    else p.updatedAt
  }

  predicate SkipInitialCycle(p: Policy, host: HostRow, dueAt: int) {
    p.lastKey.NoKey? && InitialAnchor(p, host) >= dueAt
  }

  function MonthlyDue(p: Policy, host: HostRow, now: int): Due {
    var m := MonthOf(now);
    if now < DueAt(p, m) || SkipInitialCycle(p, host, DueAt(p, m)) then NotDue
    else if p.lastKey == MonthKey(p, m) then NotDue
    else DueNow(now, MonthKey(p, m))
  }

  /** Falls back to the host row before updated_at; an unreadable host is an error. */
  function IntervalAnchor(p: Policy, host: HostRow): Option<int> {
    if p.anchorAt > 0 then Some(p.anchorAt)
    else match host
      case Broken => None
      case Found(at) => if at > 0 then Some(at) else Some(p.updatedAt)
      case Missing => Some(p.updatedAt)
  }

  /** Integer division of the source: truncates toward zero. */
  function TruncDiv(a: int, b: int): int
    requires b > 0
  {
    if a >= 0 then a / b else -((-a) / b)
  }

  function IntervalDue(p: Policy, host: HostRow, now: int): Due {
    if p.intervalDays <= 0 then NotDue
    else match IntervalAnchor(p, host)
      case None => DueUnknown
      case Some(anchor) =>
        var period := p.intervalDays * DAY;
        if anchor <= 0 || now < anchor + period then NotDue
        else
          var index := TruncDiv(now - anchor, period);
          if index <= 0 || p.lastKey == Interval(anchor, index) then NotDue
          else DueNow(now, Interval(anchor, index))
  }

  function ScheduledResetDue(p: Policy, host: HostRow, now: int): Due {
    if !p.enabled || p.mode.Off? then NotDue
    else if Monthly(p) then MonthlyDue(p, host, now)
    else IntervalDue(p, host, now)
  }

  function SearchMonths(p: Policy, host: HostRow, m: int, left: nat): Forecast
    decreases left
  {
    if left == 0 then NoForecast
    else if p.lastKey != MonthKey(p, m) && !SkipInitialCycle(p, host, DueAt(p, m)) then At(DueAt(p, m), MonthKey(p, m))
    else SearchMonths(p, host, m + 1, left - 1)
  }

  lemma SearchStep(p: Policy, host: HostRow, m: int, left: nat)
    requires left > 0
    ensures SearchMonths(p, host, m, left)
            == if p.lastKey != MonthKey(p, m) && !SkipInitialCycle(p, host, DueAt(p, m)) then At(DueAt(p, m), MonthKey(p, m))
               else SearchMonths(p, host, m + 1, left - 1)
  {
  }

  const MONTHS_AHEAD: nat := 24

  /** The search loop shared by the two monthly modes. */
  method NextMonthlyReset(p: Policy, host: HostRow, now: int) returns (r: Forecast)
    ensures r == SearchMonths(p, host, MonthOf(now), MONTHS_AHEAD)
  {
    var first := MonthOf(now);
    var candidate := first;
    for i := 0 to MONTHS_AHEAD
      invariant candidate == first + i
      invariant SearchMonths(p, host, candidate, MONTHS_AHEAD - i) == SearchMonths(p, host, first, MONTHS_AHEAD)
    {
      SearchStep(p, host, candidate, MONTHS_AHEAD - i);
      var dueAt, key := DueAt(p, candidate), MonthKey(p, candidate);
      if p.lastKey != key && !SkipInitialCycle(p, host, dueAt) {
        return At(dueAt, key);
      }
      candidate := candidate + 1;
    }
    r := NoForecast;
  }

  function NextInterval(p: Policy, host: HostRow, now: int): Forecast {
    if p.intervalDays <= 0 then NoForecast
    else match IntervalAnchor(p, host)
      case None => ForecastUnknown
      case Some(anchor) =>
        var period := p.intervalDays * DAY;
        if anchor <= 0 then NoForecast
        else
          var index := TruncDiv(now - anchor, period);
          if index <= 0 then At(anchor + period, Interval(anchor, 1))
          else if p.lastKey != Interval(anchor, index) then At(anchor + index * period, Interval(anchor, index))
          else At(anchor + (index + 1) * period, Interval(anchor, index + 1))
  }

  function NextReset(p: Policy, host: HostRow, now: int): Forecast {
    if !p.enabled || p.mode.Off? then NoForecast
    else if Monthly(p) then SearchMonths(p, host, MonthOf(now), MONTHS_AHEAD)
    else NextInterval(p, host, now)
  }

  // ---------------------------------------------------------------- agreement

  lemma {:induction false} LaterMonthsAreAhead(p: Policy, host: HostRow, now: int, m: int, left: nat)
    requires m > MonthOf(now)
    ensures SearchMonths(p, host, m, left).At? ==> SearchMonths(p, host, m, left).resetAt > now
    ensures !SearchMonths(p, host, m, left).ForecastUnknown?
    decreases left
  {
    if left > 0 {
      MonthsAreOrdered(MonthOf(now), m);
      MonthStep(m);
      LaterMonthsAreAhead(p, host, now, m + 1, left - 1);
    }
  }

  lemma PeriodContains(d: int, period: int)
    requires period > 0 && d >= 0
    ensures TruncDiv(d, period) * period <= d < (TruncDiv(d, period) + 1) * period
    ensures TruncDiv(d, period) >= 1 <==> d >= period
  {
    var q := d / period;
    var base := q * period;
    assert d == base + d % period;
    assert (q + 1) * period == base + period;
    if q >= 1 {
      MulMonotonic(1, q, period);
    }
  }

  lemma NoPeriodYet(d: int, period: int)
    requires period > 0 && d < 0
    ensures TruncDiv(d, period) <= 0
  {
  }

  ghost predicate Agree(f: Forecast, d: Due, now: int) {
    match f
    case NoForecast => d.NotDue?
    case ForecastUnknown => d.DueUnknown?
    case At(at, key) => if at <= now then d == DueNow(now, key) else d.NotDue?
  }

  lemma MonthlyAgreement(p: Policy, host: HostRow, now: int)
    requires Monthly(p)
    ensures Agree(SearchMonths(p, host, MonthOf(now), MONTHS_AHEAD), MonthlyDue(p, host, now), now)
  {
    SearchStep(p, host, MonthOf(now), MONTHS_AHEAD);
    LaterMonthsAreAhead(p, host, now, MonthOf(now) + 1, MONTHS_AHEAD - 1);
  }

  lemma IntervalAgreement(p: Policy, host: HostRow, now: int)
    requires p.mode.IntervalDays?
    ensures Agree(NextInterval(p, host, now), IntervalDue(p, host, now), now)
  {
    if p.intervalDays > 0 && IntervalAnchor(p, host).Some? {
      var anchor, period := IntervalAnchor(p, host).value, p.intervalDays * DAY;
      if now >= anchor {
        PeriodContains(now - anchor, period);
      } else {
        NoPeriodYet(now - anchor, period);
      }
    }
  }

  /** The status page and the scheduler agree, in every mode and for every
      recorded key: a forecast in the past or present is a reset that is due, with
      the same key; a forecast ahead, or none, means nothing is due. */
  lemma ForecastAgreesWithScheduler(p: Policy, host: HostRow, now: int)
    ensures Agree(NextReset(p, host, now), ScheduledResetDue(p, host, now), now)
  {
    if Monthly(p) {
      MonthlyAgreement(p, host, now);
    } else if p.mode.IntervalDays? {
      IntervalAgreement(p, host, now);
    }
  }

  /** With the anchor not ahead of the clock the search needs two candidates. */
  lemma SearchSucceedsWithinTwo(p: Policy, host: HostRow, now: int)
    requires Monthly(p) && InitialAnchor(p, host) <= now
    ensures SearchMonths(p, host, MonthOf(now), MONTHS_AHEAD).At?
    ensures SearchMonths(p, host, MonthOf(now), MONTHS_AHEAD) == SearchMonths(p, host, MonthOf(now), 2)
  {
    var m := MonthOf(now);
    SearchStep(p, host, m, MONTHS_AHEAD);
    SearchStep(p, host, m, 2);
    if p.lastKey == MonthKey(p, m) || SkipInitialCycle(p, host, DueAt(p, m)) {
      SecondCandidate(p, host, now, MONTHS_AHEAD - 1);
      SecondCandidate(p, host, now, 1);
    }
  }

  lemma SecondCandidate(p: Policy, host: HostRow, now: int, left: nat)
    requires Monthly(p) && InitialAnchor(p, host) <= now && left > 0
    requires var m := MonthOf(now); p.lastKey == MonthKey(p, m) || SkipInitialCycle(p, host, DueAt(p, m))
    ensures var m := MonthOf(now) + 1; SearchMonths(p, host, m, left) == At(DueAt(p, m), MonthKey(p, m))
  {
    SearchStep(p, host, MonthOf(now) + 1, left);
    assert now < DueAt(p, MonthOf(now) + 1);
  }

  // ---------------------------------------------------------------- progress

  /** The period a key of the policy's own mode stands for. */
  function Period(k: CycleKey): int {
    match k
    case Fixed(m, _) => m
    case Calendar(m) => m
    case Interval(_, i) => i
    case _ => 0
  }

  /** The anchor of an interval policy does not move when the policy row is updated. */
  predicate AnchorIsFixed(p: Policy, host: HostRow) {
    p.mode.IntervalDays? ==> p.anchorAt > 0 || (host.Found? && host.createdAt > 0)
  }

  /** The key recorded by a scheduled reset that ran at time t under this policy. */
  ghost predicate RecordedAt(p: Policy, host: HostRow, t: int) {
    if Monthly(p) then p.lastKey == MonthKey(p, MonthOf(t))
    else p.mode.IntervalDays? && IntervalAnchor(p, host).Some? && p.intervalDays > 0 && t >= IntervalAnchor(p, host).value
         && p.lastKey == Interval(IntervalAnchor(p, host).value, TruncDiv(t - IntervalAnchor(p, host).value, p.intervalDays * DAY))
  }

  lemma QuotientIsMonotonic(a: int, b: int, period: int)
    requires 0 <= a <= b && period > 0
    ensures TruncDiv(a, period) <= TruncDiv(b, period)
  {
    PeriodContains(a, period);
    PeriodContains(b, period);
    var x, y := TruncDiv(a, period), TruncDiv(b, period);
    if x > y {
      MulMonotonic(y + 1, x, period);
    }
  }

  lemma MulMonotonic(x: int, y: int, k: int)
    requires x <= y && k >= 0
    ensures x * k <= y * k
  {
  }

  /** A due reset moves to a strictly later period than the one on record. */
  lemma DueAdvancesThePeriod(p: Policy, host: HostRow, t: int, now: int)
    requires RecordedAt(p, host, t) && t <= now
    requires ScheduledResetDue(p, host, now).DueNow?
    ensures Period(ScheduledResetDue(p, host, now).key) > Period(p.lastKey)
  {
    if Monthly(p) {
      MonthOfIsMonotonic(t, now);
    } else {
      var anchor, period := IntervalAnchor(p, host).value, p.intervalDays * DAY;
      QuotientIsMonotonic(t - anchor, now - anchor, period);
    }
  }

  /** Recording a due key makes it the key of the present period. */
  lemma DueIsRecorded(p: Policy, host: HostRow, now: int)
    requires AnchorIsFixed(p, host) && ScheduledResetDue(p, host, now).DueNow?
    ensures RecordedAt(p.(reached := false, lastResetAt := now, lastKey := ScheduledResetDue(p, host, now).key, updatedAt := now), host, now)
  {
  }

  /** The key of the period a time lies in. */
  function CurrentKey(p: Policy, host: HostRow, now: int): CycleKey {
    if Monthly(p) then MonthKey(p, MonthOf(now))
    else if p.intervalDays <= 0 || IntervalAnchor(p, host).None? then NoKey
    else Interval(IntervalAnchor(p, host).value, TruncDiv(now - IntervalAnchor(p, host).value, p.intervalDays * DAY))
  }

  lemma DueHasCurrentKey(p: Policy, host: HostRow, now: int)
    requires ScheduledResetDue(p, host, now).DueNow?
    ensures ScheduledResetDue(p, host, now).key == CurrentKey(p, host, now)
  {
  }

  /** After a manual reset has taken the record away, a reset that was due is due
      again, with the same key, at any later time of the same period. */
  lemma DueAgainAfterManual(p: Policy, p': Policy, host: HostRow, t: int, u: int)
    requires AnchorIsFixed(p, host) && ScheduledResetDue(p, host, t).DueNow? && t <= u
    requires CurrentKey(p, host, u) == CurrentKey(p, host, t)
    requires p'.lastKey.Manual?
    requires p' == p.(reached := p'.reached, lastResetAt := p'.lastResetAt, lastKey := p'.lastKey, updatedAt := p'.updatedAt)
    ensures ScheduledResetDue(p', host, u) == DueNow(u, CurrentKey(p, host, t))
  {
    if Monthly(p) {
      assert MonthOf(u) == MonthOf(t);
      assert DueAt(p', MonthOf(u)) == DueAt(p, MonthOf(t));
    } else {
      assert IntervalAnchor(p', host) == IntervalAnchor(p, host);
    }
  }
}
