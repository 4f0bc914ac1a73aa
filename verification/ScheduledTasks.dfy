/**
 * The clock of a scheduled task: which slot it owes next.
 *
 * Times are epoch milliseconds. A time zone is a pair of maps between epoch time and local
 * time; nothing is assumed of it but that it keeps days in order.
 */
module ScheduledTasks {
  import opened Prelude
  import opened Calendar

  const HOUR_MS := 60 * 60 * 1000
  const DAY_MS := 24 * HOUR_MS

  // ---------- Time zones ----------

  datatype Zone = Zone(local: int -> int, utc: int -> int)

  function DayOf(localTime: int): int {
    localTime / DAY_MS
  }

  function TimeWithinDay(localTime: int): int {
    localTime % DAY_MS
  }

  function At(day: int, timeWithinDay: int): int {
    day * DAY_MS + timeWithinDay
  }

  function LocalDay(z: Zone, time: int): int {
    DayOf(z.local(time))
  }

  function LocalMonth(z: Zone, time: int): int {
    MonthOf(LocalDay(z, time))
  }

  /** Local days never run backwards, and a local time converts to an instant on its own day. */
  ghost predicate Orderly(z: Zone) {
    && (forall t, u {:trigger LocalDay(z, t), LocalDay(z, u)} :: t <= u ==> LocalDay(z, t) <= LocalDay(z, u))
    && (forall l {:trigger z.utc(l)} :: LocalDay(z, z.utc(l)) == DayOf(l))
  }

  ghost predicate HasFixedOffset(z: Zone, offset: int) {
    forall t :: z.local(t) == t + offset && z.utc(t) == t - offset
  }

  lemma FixedOffsetIsOrderly(z: Zone, offset: int)
    requires HasFixedOffset(z, offset)
    ensures Orderly(z)
  {
  }

  // ---------- Date arithmetic ----------

  /** The instant at which the local date becomes the given day of its current month. */
  function WithDate(z: Zone, time: int, date: int): int {
    z.utc(At(MonthStart(LocalMonth(z, time)) + date - 1, TimeWithinDay(z.local(time))))
  }

  /** The instant at which the local month becomes the given one of its current year. */
  function WithMonth(z: Zone, time: int, index: int): int {
    z.utc(At(MonthStart(12 * (LocalMonth(z, time) / 12) + index) + DateOf(LocalDay(z, time)) - 1,
             TimeWithinDay(z.local(time))))
  }

  class Date {
    var time: int
    const zone: Zone

    constructor (zone: Zone, time: int)
      ensures this.zone == zone && this.time == time
    {
      this.zone := zone;
      this.time := time;
    }

    function GetDate(): int
      reads this
    {
      DateOf(LocalDay(zone, time))
    }

    function GetMonth(): int
      reads this
    {
      LocalMonth(zone, time) % 12
    }

    function GetFullYear(): int
      reads this
    {
      LocalMonth(zone, time) / 12
    }

    /** Moves to a day counted from the first of the current local month, into other months if need be. */
    method SetDate(date: int)
      modifies this
      ensures time == WithDate(zone, old(time), date)
      ensures Orderly(zone) ==> LocalDay(zone, time) == MonthStart(LocalMonth(zone, old(time))) + date - 1
    {
      if Orderly(zone) {
        WithDateDay(zone, time, date);
      }
      time := WithDate(zone, time, date);
    }

    /** Moves to a month counted from January of the current local year, keeping the number of the day. */
    method SetMonth(index: int)
      modifies this
      ensures time == WithMonth(zone, old(time), index)
      ensures Orderly(zone) ==>
                LocalDay(zone, time)
                == MonthStart(12 * (LocalMonth(zone, old(time)) / 12) + index) + DateOf(LocalDay(zone, old(time))) - 1
    {
      hide LocalMonth, DateOf, MonthStart;
      if Orderly(zone) {
        WithMonthDay(zone, time, index);
      }
      time := WithMonth(zone, time, index);
    }
  }

  /** The year `new Date(year, ...)` means by its first argument. */
  function ConstructorYear(year: int): int {
    if 0 <= year <= 99 then 1900 + year else year
  }

  /** The date reached by asking the Date constructor for day zero of the month after. */
  function DaysInMonth(z: Zone, year: int, index: int): int {
    DateOf(LocalDay(z, z.utc(At(MonthStart(12 * ConstructorYear(year) + index + 1) - 1, 0))))
  }

  /** The month whose length the constructor measures. */
  function ConstructorMonth(month: int): int {
    12 * ConstructorYear(month / 12) + month % 12
  }

  lemma DaysInMonthMeasures(z: Zone, month: int)
    requires Orderly(z)
    ensures DaysInMonth(z, month / 12, month % 12) == MonthLength(ConstructorMonth(month))
  {
    hide MonthOf, MonthLength, MonthStart;
    var named := ConstructorMonth(month);
    MonthsAbut(named);
    var last := MonthStart(named + 1) - 1;
    assert LocalDay(z, z.utc(At(last, 0))) == last;
    MonthIsUnique(last, named);
  }

  lemma ConstructorMonthLength(month: int)
    ensures MonthLength(ConstructorMonth(month)) <= MonthLength(month)
    ensures MonthLength(ConstructorMonth(month)) == MonthLength(month) <==> month != 1
    ensures MonthLength(ConstructorMonth(1)) == 28
  {
    var year, named := month / 12, ConstructorMonth(month);
    assert named / 12 == ConstructorYear(year) && named % 12 == month % 12;
    if 0 <= year <= 99 {
      assert (1900 + year) % 4 == year % 4;
    }
  }

  /** `daysInMonth` is right for every month but February of the year 0, which it makes a day short. */
  lemma DaysInMonthIsExact(z: Zone, month: int)
    requires Orderly(z)
    ensures 1 <= DaysInMonth(z, month / 12, month % 12) <= MonthLength(month)
    ensures DaysInMonth(z, month / 12, month % 12) == MonthLength(month) <==> month != 1
    ensures month == 1 ==> DaysInMonth(z, month / 12, month % 12) == 28
  {
    DaysInMonthMeasures(z, month);
    ConstructorMonthLength(month);
  }

  // ---------- Recurrences ----------

  datatype Unit = Hours | Days | Weeks | Months

  /** A JavaScript number that may be infinite or not a number. */
  datatype Number = Finite(value: real) | NonFinite

  datatype Recurrence = Recurrence(unit: Option<Unit>, interval: Number)

  datatype Cadence = Once | Every(unit: Unit, interval: int)

  ghost predicate Proper(cadence: Cadence) {
    cadence.Every? ==> cadence.interval >= 1
  }

  /** An interval is rounded down, and anything that is not then positive counts as one. */
  function NormalizeRecurrence(recurrence: Recurrence): (cadence: Cadence)
    ensures Proper(cadence)
    ensures cadence == Once <==> recurrence.unit == None
    ensures cadence.Every? ==> recurrence.unit == Some(cadence.unit)
    ensures cadence.Every? && recurrence.interval.Finite? && recurrence.interval.value >= 1.0
            ==> cadence.interval as real <= recurrence.interval.value < cadence.interval as real + 1.0
    ensures cadence.Every? && (recurrence.interval.NonFinite? || recurrence.interval.value < 1.0)
            ==> cadence.interval == 1
  {
    match recurrence.unit
    case None => Once
    case Some(unit) =>
      match recurrence.interval
      case NonFinite => Every(unit, 1)
      case Finite(value) => Every(unit, if value.Floor > 0 then value.Floor else 1)
  }

  // ---------- Slots ----------

  function DaysPerUnit(unit: Unit): int {
    if unit == Weeks then 7 else 1
  }

  function Min(a: int, b: int): int {
    if a < b then a else b
  }

  /** The first of the month that lies `months` after the month of `from`. */
  function FirstOfMonth(z: Zone, from: int, months: int): int {
    var first := WithDate(z, from, 1);
    WithMonth(z, first, LocalMonth(z, first) % 12 + months)
  }

  function MonthlyStep(z: Zone, from: int, months: int): int {
    var first := FirstOfMonth(z, from, months);
    WithDate(z, first, Min(DateOf(LocalDay(z, from)),
                           DaysInMonth(z, LocalMonth(z, first) / 12, LocalMonth(z, first) % 12)))
  }

  /** Slot number k of a repeating task; slot zero is its start. */
  function Slot(z: Zone, start: int, cadence: Cadence, k: nat): int
    requires cadence.Every?
  {
    var n := cadence.interval * k;
    if k == 0 then start
    else match cadence.unit
      case Hours => start + n * HOUR_MS
      case Months => MonthlyStep(z, start, n)
      case _ => WithDate(z, start, DateOf(LocalDay(z, start)) + n * DaysPerUnit(cadence.unit))
  }

  lemma DayOfAt(day: int, time: int)
    ensures DayOf(At(day, TimeWithinDay(time))) == day
    ensures TimeWithinDay(At(day, TimeWithinDay(time))) == TimeWithinDay(time)
  {
  }

  lemma WithDateDay(z: Zone, time: int, date: int)
    requires Orderly(z)
    ensures LocalDay(z, WithDate(z, time, date)) == MonthStart(LocalMonth(z, time)) + date - 1
  {
    DayOfAt(MonthStart(LocalMonth(z, time)) + date - 1, z.local(time));
  }

  lemma WithMonthDay(z: Zone, time: int, index: int)
    requires Orderly(z)
    ensures LocalDay(z, WithMonth(z, time, index))
            == MonthStart(12 * (LocalMonth(z, time) / 12) + index) + DateOf(LocalDay(z, time)) - 1
  {
    hide MonthStart, DateOf, LocalMonth;
    DayOfAt(MonthStart(12 * (LocalMonth(z, time) / 12) + index) + DateOf(LocalDay(z, time)) - 1, z.local(time));
  }

  lemma WithDateInMonth(z: Zone, time: int, date: int)
    requires Orderly(z) && 1 <= date <= MonthLength(LocalMonth(z, time))
    ensures LocalMonth(z, WithDate(z, time, date)) == LocalMonth(z, time)
    ensures DateOf(LocalDay(z, WithDate(z, time, date))) == date
  {
    WithDateDay(z, time, date);
    MonthIsUnique(LocalDay(z, WithDate(z, time, date)), LocalMonth(z, time));
  }

  lemma FirstOfMonthIsInMonth(z: Zone, from: int, months: int)
    requires Orderly(z)
    ensures LocalMonth(z, FirstOfMonth(z, from, months)) == LocalMonth(z, from) + months
  {
    hide WithDate, WithMonth, LocalDay, DateOf, MonthStart, MonthOf, LocalMonth;
    var first := WithDate(z, from, 1);
    WithDateInMonth(z, from, 1);
    var index := LocalMonth(z, first) % 12 + months;
    WithMonthDay(z, first, index);
    assert 12 * (LocalMonth(z, first) / 12) + index == LocalMonth(z, from) + months;
    FirstDayIsInMonth(z, WithMonth(z, first, index), LocalMonth(z, from) + months);
  }

  lemma FirstDayIsInMonth(z: Zone, time: int, month: int)
    requires LocalDay(z, time) == MonthStart(month)
    ensures LocalMonth(z, time) == month
  {
    hide MonthStart, MonthLength;
    MonthIsUnique(LocalDay(z, time), month);
  }

  /**
   * A monthly slot never drifts: it falls in the month `months` after the start, on the start's
   * own date, or on the month's last day when the month is too short for it. The month after
   * January of the year 0 counts as 28 days long.
   */
  lemma MonthlySlotKeepsDate(z: Zone, from: int, months: int)
    requires Orderly(z)
    ensures LocalMonth(z, MonthlyStep(z, from, months)) == LocalMonth(z, from) + months
    ensures DateOf(LocalDay(z, MonthlyStep(z, from, months)))
            == var date, month := DateOf(LocalDay(z, from)), LocalMonth(z, from) + months;
               var last := if month == 1 then 28 else MonthLength(month);
               if date <= last then date else last
  {
    FirstOfMonthIsInMonth(z, from, months);
    var first := FirstOfMonth(z, from, months);
    DaysInMonthIsExact(z, LocalMonth(z, first));
    WithDateInMonth(z, first, Min(DateOf(LocalDay(z, from)),
                                  DaysInMonth(z, LocalMonth(z, first) / 12, LocalMonth(z, first) % 12)));
  }

  lemma FixedOffsetKeepsTime(z: Zone, offset: int, time: int, value: int)
    requires HasFixedOffset(z, offset)
    ensures TimeWithinDay(z.local(WithDate(z, time, value))) == TimeWithinDay(z.local(time))
    ensures TimeWithinDay(z.local(WithMonth(z, time, value))) == TimeWithinDay(z.local(time))
  {
    hide MonthStart, DateOf, LocalMonth, LocalDay;
    DayOfAt(MonthStart(LocalMonth(z, time)) + value - 1, z.local(time));
    DayOfAt(MonthStart(12 * (LocalMonth(z, time) / 12) + value) + DateOf(LocalDay(z, time)) - 1, z.local(time));
  }

  /** With a fixed offset every slot but those counted in hours keeps the local time of day. */
  lemma SlotKeepsTime(z: Zone, offset: int, start: int, cadence: Cadence, k: nat)
    requires HasFixedOffset(z, offset) && cadence.Every? && cadence.unit != Hours
    ensures TimeWithinDay(z.local(Slot(z, start, cadence, k))) == TimeWithinDay(z.local(start))
  {
    hide WithDate, WithMonth, LocalMonth, LocalDay, DateOf, DaysInMonth, TimeWithinDay, Min;
    var n := cadence.interval * k;
    if cadence.unit == Months {
      var first := WithDate(z, start, 1);
      FixedOffsetKeepsTime(z, offset, start, 1);
      FixedOffsetKeepsTime(z, offset, first, LocalMonth(z, first) % 12 + n);
      var moved := FirstOfMonth(z, start, n);
      FixedOffsetKeepsTime(z, offset, moved, Min(DateOf(LocalDay(z, start)),
                           DaysInMonth(z, LocalMonth(z, moved) / 12, LocalMonth(z, moved) % 12)));
    } else {
      FixedOffsetKeepsTime(z, offset, start, DateOf(LocalDay(z, start)) + n * DaysPerUnit(cadence.unit));
    }
  }

  /** A slot stepped by days or weeks falls that many local days, or times seven, after the start. */
  lemma DailySlotDay(z: Zone, start: int, cadence: Cadence, k: nat)
    requires Orderly(z) && cadence.Every? && cadence.unit in {Days, Weeks}
    ensures LocalDay(z, Slot(z, start, cadence, k))
            == LocalDay(z, start) + cadence.interval * k * (if cadence.unit == Weeks then 7 else 1)
  {
    if k > 0 {
      WithDateDay(z, start, DateOf(LocalDay(z, start)) + cadence.interval * k * DaysPerUnit(cadence.unit));
    }
  }

  lemma StepGrows(interval: int, j: nat, k: nat)
    requires interval >= 1 && j < k
    ensures interval * j < interval * k
  {
  }

  lemma EarlierDayIsEarlier(z: Zone, t: int, u: int)
    requires Orderly(z) && LocalDay(z, t) < LocalDay(z, u)
    ensures t < u
  {
  }

  lemma EarlierMonthIsEarlier(z: Zone, t: int, u: int)
    requires Orderly(z) && LocalMonth(z, t) < LocalMonth(z, u)
    ensures t < u
  {
    if u <= t {
      MonthsFollowDays(LocalDay(z, u), LocalDay(z, t));
    }
  }

  lemma SlotMonth(z: Zone, start: int, cadence: Cadence, k: nat)
    requires Orderly(z) && cadence.Every? && cadence.unit == Months
    ensures LocalMonth(z, Slot(z, start, cadence, k)) == LocalMonth(z, start) + cadence.interval * k
  {
    hide MonthlyStep, LocalMonth, DateOf, MonthLength;
    if k > 0 {
      MonthlySlotKeepsDate(z, start, cadence.interval * k);
    }
  }

  /** Slots come in strict order, whatever the unit, in every zone that keeps days in order. */
  lemma SlotsIncrease(z: Zone, start: int, cadence: Cadence, j: nat, k: nat)
    requires Orderly(z) && Proper(cadence) && cadence.Every? && j < k
    ensures Slot(z, start, cadence, j) < Slot(z, start, cadence, k)
  {
    StepGrows(cadence.interval, j, k);
    match cadence.unit
    case Hours =>
    case Months =>
      SlotMonth(z, start, cadence, j);
      SlotMonth(z, start, cadence, k);
      EarlierMonthIsEarlier(z, Slot(z, start, cadence, j), Slot(z, start, cadence, k));
    case _ =>
      DailySlotDay(z, start, cadence, j);
      DailySlotDay(z, start, cadence, k);
      EarlierDayIsEarlier(z, Slot(z, start, cadence, j), Slot(z, start, cadence, k));
  }

  // ---------- The next run ----------

  datatype Task = Task(startAt: int, recurrence: Recurrence, lastRunAt: Option<int>, enabled: bool)

  /** `t` is the first slot strictly after `after`. */
  ghost predicate IsFirstSlotAfter(z: Zone, start: int, cadence: Cadence, after: int, t: int)
    requires cadence.Every?
  {
    && after < t
    && (exists k: nat :: t == Slot(z, start, cadence, k))
    && (forall j: nat :: after < Slot(z, start, cadence, j) ==> t <= Slot(z, start, cadence, j))
  }

  /** A repeating task that has not run owes its start; one that has, the first slot after its last run. */
  ghost predicate Owes(z: Zone, task: Task, next: Option<int>) {
    var cadence := NormalizeRecurrence(task.recurrence);
    if !task.enabled then next == None
    else if task.lastRunAt == None then next == Some(task.startAt)
    else if cadence == Once then next == None
    else next.Some? && IsFirstSlotAfter(z, task.startAt, cadence, task.lastRunAt.value, next.value)
  }

  lemma SlotZero(z: Zone, start: int, cadence: Cadence)
    requires cadence.Every?
    ensures Slot(z, start, cadence, 0) == start
  {
  }

  lemma FirstSlotAfterIs(z: Zone, start: int, cadence: Cadence, after: int, k: nat)
    requires Orderly(z) && Proper(cadence) && cadence.Every?
    requires after < Slot(z, start, cadence, k)
    requires k > 0 ==> Slot(z, start, cadence, k - 1) <= after
    ensures IsFirstSlotAfter(z, start, cadence, after, Slot(z, start, cadence, k))
  {
    forall j: nat | after < Slot(z, start, cadence, j)
      ensures Slot(z, start, cadence, k) <= Slot(z, start, cadence, j)
    {
      if j + 1 < k {
        SlotsIncrease(z, start, cadence, j, k - 1);
      } else if k < j {
        SlotsIncrease(z, start, cadence, k, j);
      }
    }
  }

  /** Run number i is what the scheduled task owed after the run before it. */
  ghost predicate FollowsPrevious(z: Zone, start: int, recurrence: Recurrence, runs: seq<int>, i: nat)
    requires i < |runs|
  {
    Owes(z, Task(start, recurrence, if i == 0 then None else Some(runs[i - 1]), true), Some(runs[i]))
  }

  /**
   * Feeding each result back as the last run visits every slot once and in order, whatever the
   * unit and in every orderly zone.
   */
  lemma {:induction false} FeedbackVisitsEverySlot(z: Zone, start: int, recurrence: Recurrence, runs: seq<int>, i: nat)
    requires Orderly(z) && NormalizeRecurrence(recurrence).Every? && i < |runs|
    requires forall j: nat :: j < |runs| ==> FollowsPrevious(z, start, recurrence, runs, j)
    ensures runs[i] == Slot(z, start, NormalizeRecurrence(recurrence), i)
  {
    hide Slot;
    var cadence := NormalizeRecurrence(recurrence);
    assert FollowsPrevious(z, start, recurrence, runs, i);
    if i == 0 {
      SlotZero(z, start, cadence);
    } else {
      FeedbackVisitsEverySlot(z, start, recurrence, runs, i - 1);
      SlotsIncrease(z, start, cadence, i - 1, i);
      FirstSlotAfterIs(z, start, cadence, runs[i - 1], i);
    }
  }

  method AddCalendarSteps(z: Zone, from: int, unit: Unit, interval: int, steps: nat) returns (time: int)
    requires unit != Hours
    ensures time == Slot(z, from, Every(unit, interval), steps)
  {
    hide WithDate, WithMonth, LocalMonth, LocalDay, DateOf, DaysInMonth;
    if steps == 0 {
      return from;
    }
    var next := new Date(z, from);
    if unit == Days || unit == Weeks {
      var days := interval * steps * (if unit == Weeks then 7 else 1);
      next.SetDate(next.GetDate() + days);
      return next.time;
    }
    var dayOfMonth := next.GetDate();
    next.SetDate(1);
    next.SetMonth(next.GetMonth() + interval * steps);
    next.SetDate(Min(dayOfMonth, DaysInMonth(z, next.GetFullYear(), next.GetMonth())));
    return next.time;
  }

  /** By how many months the local month of one instant lies behind that of another. */
  function MonthsBetween(z: Zone, from: int, to: int): (months: int)
    ensures LocalMonth(z, to) == LocalMonth(z, from) + months
  {
    var start, end := LocalMonth(z, from), LocalMonth(z, to);
    (end / 12 - start / 12) * 12 + (end % 12 - start % 12)
  }

  /** How many steps the estimate jumps before the walk. */
  function Estimate(z: Zone, start: int, cadence: Cadence, after: int): (steps: int)
    requires cadence.Every? && Proper(cadence)
    ensures steps >= 1
  {
    var whole := if cadence.unit == Months then MonthsBetween(z, start, after) / cadence.interval
                 else (after - start) / (cadence.interval * DAY_MS * DaysPerUnit(cadence.unit));
    if whole > 1 then whole else 1
  }

  lemma QuotientBounds(n: int, d: int)
    requires d >= 1
    ensures d * (n / d) <= n < d * (n / d + 1)
  {
  }

  /** So many whole intervals fit, and one more does not; when none does the estimate is one all the same. */
  lemma MonthlyQuotient(z: Zone, start: int, cadence: Cadence, after: int)
    requires cadence.Every? && Proper(cadence) && cadence.unit == Months
    ensures var e := Estimate(z, start, cadence, after);
            && LocalMonth(z, after) < LocalMonth(z, start) + cadence.interval * (e + 1)
            && (e > 1 ==> LocalMonth(z, start) + cadence.interval * (e - 1) < LocalMonth(z, after))
  {
    hide LocalMonth;
    var e, months := Estimate(z, start, cadence, after), MonthsBetween(z, start, after);
    QuotientBounds(months, cadence.interval);
    IntervalsGrow(cadence.interval, months / cadence.interval + 1, e + 1);
    if e > 1 {
      OneIntervalLess(cadence.interval, e);
    }
  }

  lemma IntervalsGrow(interval: int, m: int, n: int)
    requires interval >= 1 && m <= n
    ensures interval * m <= interval * n
  {
  }

  lemma OneIntervalLess(interval: int, n: int)
    ensures interval * (n - 1) == interval * n - interval
  {
  }

  /** The monthly estimate is never too high, and at most one step too low, in every orderly zone. */
  lemma MonthlyEstimate(z: Zone, start: int, cadence: Cadence, after: int)
    requires Orderly(z) && cadence.Every? && Proper(cadence) && cadence.unit == Months && start <= after
    ensures Slot(z, start, cadence, Estimate(z, start, cadence, after) - 1) <= after
    ensures after < Slot(z, start, cadence, Estimate(z, start, cadence, after) + 1)
  {
    hide Slot, LocalMonth, Estimate, LocalDay;
    SlotZero(z, start, cadence);
    MonthlyQuotient(z, start, cadence, after);
    var e := Estimate(z, start, cadence, after);
    SlotMonth(z, start, cadence, e + 1);
    EarlierMonthIsEarlier(z, after, Slot(z, start, cadence, e + 1));
    if e > 1 {
      SlotMonth(z, start, cadence, e - 1);
      EarlierMonthIsEarlier(z, Slot(z, start, cadence, e - 1), after);
    }
  }

  lemma Reassociate(interval: int, k: int, width: int, scale: int)
    ensures interval * k * width * scale == k * (interval * scale * width)
  {
    assert interval * k * width * scale == interval * k * (width * scale);
    assert interval * k * (width * scale) == k * (interval * (width * scale));
    assert interval * (width * scale) == interval * scale * width;
  }

  lemma DayAndTimeDetermine(a: int, b: int, days: int)
    requires DayOf(b) == DayOf(a) + days && TimeWithinDay(b) == TimeWithinDay(a)
    ensures b == a + days * DAY_MS
  {
  }

  lemma FixedOffsetSlot(z: Zone, offset: int, start: int, cadence: Cadence, k: nat)
    requires HasFixedOffset(z, offset) && cadence.Every? && cadence.unit in {Days, Weeks}
    ensures Slot(z, start, cadence, k) == start + k * (cadence.interval * DAY_MS * DaysPerUnit(cadence.unit))
  {
    FixedOffsetIsOrderly(z, offset);
    hide Slot, TimeWithinDay, DayOf;
    DailySlotDay(z, start, cadence, k);
    SlotKeepsTime(z, offset, start, cadence, k);
    var slot := Slot(z, start, cadence, k);
    DayAndTimeDetermine(z.local(start), z.local(slot), cadence.interval * k * DaysPerUnit(cadence.unit));
    Reassociate(cadence.interval, k, DaysPerUnit(cadence.unit), DAY_MS);
  }

  /** So is the estimate for days and weeks, where every day lasts as long as every other. */
  lemma DailyEstimate(z: Zone, offset: int, start: int, cadence: Cadence, after: int)
    requires HasFixedOffset(z, offset) && cadence.Every? && Proper(cadence) && cadence.unit in {Days, Weeks}
    requires start <= after
    ensures Slot(z, start, cadence, Estimate(z, start, cadence, after) - 1) <= after
    ensures after < Slot(z, start, cadence, Estimate(z, start, cadence, after) + 1)
  {
    hide Slot;
    SlotZero(z, start, cadence);
    var e := Estimate(z, start, cadence, after);
    var step := cadence.interval * DAY_MS * DaysPerUnit(cadence.unit);
    QuotientBounds(after - start, step);
    FixedOffsetSlot(z, offset, start, cadence, e - 1);
    FixedOffsetSlot(z, offset, start, cadence, e + 1);
    if e > 1 {
      assert (e - 1) * step <= e * step;
    } else {
      assert (after - start) / step <= 1;
    }
  }

  ghost predicate EstimateIsClose(z: Zone, start: int, cadence: Cadence, after: int)
    requires cadence.Every? && Proper(cadence)
  {
    var e := Estimate(z, start, cadence, after);
    Slot(z, start, cadence, e - 1) <= after < Slot(z, start, cadence, e + 1)
  }

  lemma CloseEstimates(z: Zone, start: int, cadence: Cadence, after: int)
    requires Orderly(z) && cadence.Every? && Proper(cadence) && cadence.unit != Hours && start <= after
    ensures cadence.unit == Months ==> EstimateIsClose(z, start, cadence, after)
    ensures (exists offset :: HasFixedOffset(z, offset)) ==> EstimateIsClose(z, start, cadence, after)
  {
    if cadence.unit == Months {
      MonthlyEstimate(z, start, cadence, after);
    } else if offset :| HasFixedOffset(z, offset) {
      DailyEstimate(z, offset, start, cadence, after);
    }
  }

  /**
   * The next run, with the number of steps each walk took. For months, and for every unit when
   * the zone has a fixed offset, nothing is walked back and at most one step forward.
   */
  method ComputeNextRunAt(z: Zone, task: Task) returns (next: Option<int>, ghost back: nat, ghost forth: nat)
    requires Orderly(z)
    ensures Owes(z, task, next)
    ensures !task.enabled ==> next == None
    ensures task.enabled && task.lastRunAt == None ==> next == Some(task.startAt)
    ensures task.recurrence.unit == None && task.lastRunAt.Some? ==> next == None
    ensures task.enabled && task.lastRunAt.Some? && task.recurrence.unit.Some?
            ==> next.Some? && (IsFixed(z) ==> IsPlainNextRun(task, next.value))
    ensures NormalizeRecurrence(task.recurrence) != Once && NormalizeRecurrence(task.recurrence).unit == Months
            ==> back == 0 && forth <= 1
    ensures (exists offset :: HasFixedOffset(z, offset)) ==> back == 0 && forth <= 1
  {
    hide Slot, Estimate, NormalizeRecurrence, IsPlainNextRun, IsFixed;
    back, forth := 0, 0;
    PlainNextRuns(z, task);
    if !task.enabled {
      return None, 0, 0;
    }
    var cadence := NormalizeRecurrence(task.recurrence);
    if cadence == Once {
      return if task.lastRunAt == None then Some(task.startAt) else None, 0, 0;
    }
    if task.lastRunAt == None {
      return Some(task.startAt), 0, 0;
    }
    var after := task.lastRunAt.value;
    if task.startAt > after {
      SlotZero(z, task.startAt, cadence);
      FirstSlotAfterIs(z, task.startAt, cadence, after, 0);
      return Some(task.startAt), 0, 0;
    }
    if cadence.unit == Hours {
      var step := cadence.interval * HOUR_MS;
      var elapsed := after - task.startAt;
      HourlySlot(z, task.startAt, cadence, after);
      return Some(task.startAt + (elapsed / step + 1) * step), 0, 0;
    }

    var steps: nat := Estimate(z, task.startAt, cadence, after);
    CloseEstimates(z, task.startAt, cadence, after);
    ghost var close := EstimateIsClose(z, task.startAt, cadence, after);
    var candidate := AddCalendarSteps(z, task.startAt, cadence.unit, cadence.interval, steps);
    while steps > 0
      invariant candidate == Slot(z, task.startAt, cadence, steps)
      invariant back == Estimate(z, task.startAt, cadence, after) - steps
      invariant close ==> back == 0
      invariant back > 0 ==> after < candidate
    {
      var previous := AddCalendarSteps(z, task.startAt, cadence.unit, cadence.interval, steps - 1);
      if previous <= after {
        break;
      }
      steps := steps - 1;
      candidate := AddCalendarSteps(z, task.startAt, cadence.unit, cadence.interval, steps);
      back := back + 1;
    }
    while candidate <= after
      invariant candidate == Slot(z, task.startAt, cadence, steps)
      invariant steps > 0 ==> Slot(z, task.startAt, cadence, steps - 1) <= after
      invariant close ==> steps == Estimate(z, task.startAt, cadence, after) + forth && forth <= 1
      decreases after - candidate
    {
      SlotsIncrease(z, task.startAt, cadence, steps, steps + 1);
      steps := steps + 1;
      candidate := AddCalendarSteps(z, task.startAt, cadence.unit, cadence.interval, steps);
      forth := forth + 1;
    }
    FirstSlotAfterIs(z, task.startAt, cadence, after, steps);
    next := Some(candidate);
  }

  ghost predicate IsFixed(z: Zone) {
    exists offset :: HasFixedOffset(z, offset)
  }

  /** The first time after `after` among the start and the times that follow it at that distance. */
  ghost predicate IsFirstStepAfter(start: int, step: int, after: int, t: int) {
    && after < t && start <= t && (t == start || t - step <= after)
    && exists m: nat :: t == start + m * step
  }

  /** A week is seven days of 86,400,000 milliseconds and an hour has 3,600,000 of them. */
  ghost predicate IsPlainNextRun(task: Task, t: int)
    requires task.lastRunAt.Some? && task.recurrence.unit.Some?
  {
    var interval, after := NormalizeRecurrence(task.recurrence).interval, task.lastRunAt.value;
    match task.recurrence.unit.value
    case Hours => IsFirstStepAfter(task.startAt, interval * 3_600_000, after, t)
    case Days => IsFirstStepAfter(task.startAt, interval * 86_400_000, after, t)
    case Weeks => IsFirstStepAfter(task.startAt, interval * 604_800_000, after, t)
    case Months => true
  }

  function Width(unit: Unit): int {
    if unit == Hours then 3_600_000 else if unit == Days then 86_400_000 else 604_800_000
  }

  lemma PlainSlot(z: Zone, offset: int, start: int, cadence: Cadence, k: nat)
    requires HasFixedOffset(z, offset) && cadence.Every? && cadence.unit != Months
    ensures Slot(z, start, cadence, k) == start + k * (cadence.interval * Width(cadence.unit))
  {
    hide Slot;
    if cadence.unit == Hours {
      HourlySlotIs(z, start, cadence, k);
    } else {
      FixedOffsetSlot(z, offset, start, cadence, k);
      assert cadence.interval * DAY_MS * DaysPerUnit(cadence.unit) == cadence.interval * Width(cadence.unit);
    }
  }

  /** In a zone with a fixed offset the next run by hours, days or weeks is found by counting milliseconds. */
  lemma PlainNextRun(z: Zone, offset: int, task: Task, t: int)
    requires HasFixedOffset(z, offset) && task.enabled && task.lastRunAt.Some? && task.recurrence.unit.Some?
    requires Owes(z, task, Some(t))
    ensures IsPlainNextRun(task, t)
  {
    hide Slot, NormalizeRecurrence, Width;
    var cadence, start, after := NormalizeRecurrence(task.recurrence), task.startAt, task.lastRunAt.value;
    if cadence.unit != Months {
      var k: nat :| t == Slot(z, start, cadence, k);
      FixedOffsetIsOrderly(z, offset);
      PlainSlot(z, offset, start, cadence, k);
      var step := cadence.interval * Width(cadence.unit);
      WidthIs(cadence.unit);
      IntervalsGrow(Width(cadence.unit), 1, cadence.interval);
      if k > 0 {
        SlotsIncrease(z, start, cadence, k - 1, k);
        PlainSlot(z, offset, start, cadence, k - 1);
        OneIntervalLess(step, k);
      }
      StepsFromStart(start, step, after, t, k);
    }
  }

  lemma WidthIs(unit: Unit)
    ensures unit == Hours ==> Width(unit) == 3_600_000
    ensures unit == Days ==> Width(unit) == 86_400_000
    ensures unit == Weeks ==> Width(unit) == 604_800_000
    ensures Width(unit) > 0
  {
  }

  lemma StepsFromStart(start: int, step: int, after: int, t: int, k: nat)
    requires step > 0 && t == start + k * step && after < t && (k > 0 ==> t - step <= after)
    ensures IsFirstStepAfter(start, step, after, t)
  {
  }

  lemma PlainNextRuns(z: Zone, task: Task)
    ensures forall next ::
              (IsFixed(z) && task.enabled && task.lastRunAt.Some? && task.recurrence.unit.Some?
               && Owes(z, task, next) && next.Some?) ==> IsPlainNextRun(task, next.value)
  {
    forall next | IsFixed(z) && task.enabled && task.lastRunAt.Some? && task.recurrence.unit.Some?
                  && Owes(z, task, next) && next.Some?
      ensures IsPlainNextRun(task, next.value)
    {
      var offset :| HasFixedOffset(z, offset);
      PlainNextRun(z, offset, task, next.value);
    }
  }

  lemma HourlySlotIs(z: Zone, start: int, cadence: Cadence, k: nat)
    requires cadence.Every? && cadence.unit == Hours
    ensures Slot(z, start, cadence, k) == start + k * (cadence.interval * HOUR_MS)
  {
    Reassociate(cadence.interval, k, 1, HOUR_MS);
  }

  /** The hourly branch needs no walk. */
  lemma HourlySlot(z: Zone, start: int, cadence: Cadence, after: int)
    requires Orderly(z) && cadence.Every? && Proper(cadence) && cadence.unit == Hours && start <= after
    ensures var step := cadence.interval * HOUR_MS;
            IsFirstSlotAfter(z, start, cadence, after, start + ((after - start) / step + 1) * step)
  {
    hide Slot;
    var step := cadence.interval * HOUR_MS;
    var whole := (after - start) / step;
    QuotientBounds(after - start, step);
    HourlySlotIs(z, start, cadence, whole + 1);
    HourlySlotIs(z, start, cadence, whole);
    FirstSlotAfterIs(z, start, cadence, after, whole + 1);
  }
}
