/**
 * The scheduling rules of the background task service, with every reading of the current time
 * (`DateTime.Now`, `DateTime.Today`) passed in as `now`.
 */
module Scheduling {
  import opened Wrappers
  import opened Clock

  /** `ScheduledTask`. */
  datatype ScheduledTask = ScheduledTask(
    name: string,
    lastRun: DateTime,
    nextRun: Option<DateTime>,
    interval: TimeSpan,
    isEnabled: bool)

  const MAINTENANCE_START_HOUR: int := 2
  const MAINTENANCE_END_HOUR: int := 4

  /** `ShouldRunNow`: never when disabled, always when no next run is set, else once it is due. */
  predicate ShouldRunNow(task: ScheduledTask, now: DateTime)
  {
    task.isEnabled && (task.nextRun.None? || now >= task.nextRun.value)
  }

  /** Once a task is due it stays due as time goes on. */
  lemma ShouldRunNowStaysTrue(task: ScheduledTask, earlier: DateTime, later: DateTime)
    requires earlier <= later && ShouldRunNow(task, earlier)
    ensures ShouldRunNow(task, later)
  {
  }

  /** The three cases of `ShouldRunNow`, each stated on its own. */
  lemma ShouldRunNowCases(task: ScheduledTask, now: DateTime)
    ensures !task.isEnabled ==> !ShouldRunNow(task, now)
    ensures task.isEnabled && task.nextRun.None? ==> ShouldRunNow(task, now)
    ensures task.isEnabled && task.nextRun.Some? ==> (ShouldRunNow(task, now) <==> task.nextRun.value <= now)
  {
  }

  /** `ShouldRunDailyTask`: the hour and the minute of `now` are exactly the target ones. */
  predicate ShouldRunDailyTask(targetHour: int, targetMinute: int, now: DateTime)
  {
    Hour(now) == targetHour && Minute(now) == targetMinute
  }

  /**
   * The daily check fires exactly in the target minute of the day; there is no tolerance around
   * it, and a target outside 00:00..23:59 never fires.
   */
  lemma DailyTaskMinuteOfDay(targetHour: int, targetMinute: int, now: DateTime)
    ensures 0 <= targetHour < 24 && 0 <= targetMinute < 60 ==>
      (ShouldRunDailyTask(targetHour, targetMinute, now) <==> MinuteOfDay(now) == targetHour * 60 + targetMinute)
    ensures !(0 <= targetHour < 24 && 0 <= targetMinute < 60) ==> !ShouldRunDailyTask(targetHour, targetMinute, now)
  {
    var m := MinuteOfDay(now);
    assert m == Hour(now) * 60 + Minute(now);
  }

  lemma DayMinutes(t: DateTime)
    ensures t / TICKS_PER_MINUTE == (t / TICKS_PER_DAY) * 1440 + MinuteOfDay(t)
  {
    var minutes := t / TICKS_PER_MINUTE;
    assert t / TICKS_PER_DAY == minutes / 1440;
  }

  /** Two moments with the same date lie in the same whole day. */
  lemma SameDateSameDay(t1: DateTime, t2: DateTime)
    requires Date(t1) == Date(t2)
    ensures t1 / TICKS_PER_DAY == t2 / TICKS_PER_DAY
  {
    assert Date(t1) == (t1 / TICKS_PER_DAY) * TICKS_PER_DAY;
    assert Date(t2) == (t2 / TICKS_PER_DAY) * TICKS_PER_DAY;
  }

  /** Two moments of the same day at which a daily task fires lie in the same minute. */
  lemma DailyTaskFiresInOneMinute(targetHour: int, targetMinute: int, t1: DateTime, t2: DateTime)
    requires Date(t1) == Date(t2)
    requires ShouldRunDailyTask(targetHour, targetMinute, t1) && ShouldRunDailyTask(targetHour, targetMinute, t2)
    ensures t1 / TICKS_PER_MINUTE == t2 / TICKS_PER_MINUTE
  {
    DailyTaskMinuteOfDay(targetHour, targetMinute, t1);
    DailyTaskMinuteOfDay(targetHour, targetMinute, t2);
    var m := MinuteOfDay(t1);
    assert MinuteOfDay(t2) == m;
    DayMinutes(t1);
    DayMinutes(t2);
    SameDateSameDay(t1, t2);
  }

  /** `IsInMaintenanceWindow`: from 02:00 up to, not including, 04:00. */
  predicate IsInMaintenanceWindow(now: DateTime)
  {
    Hour(now) >= MAINTENANCE_START_HOUR && Hour(now) < MAINTENANCE_END_HOUR
  }

  /** The window is the two hours of minutes 120..239 of the day. */
  lemma MaintenanceWindowMinutes(now: DateTime)
    ensures IsInMaintenanceWindow(now) <==> 120 <= MinuteOfDay(now) < 240
  {
    assert MinuteOfDay(now) == Hour(now) * 60 + Minute(now);
  }

  /** `IsPromotionActive`: today's date is on or after the start and strictly before the end. */
  predicate IsPromotionActive(startDate: DateTime, endDate: DateTime, now: DateTime)
  {
    var today := Date(now);
    today >= startDate && today < endDate
  }

  /** With midnight bounds, a promotion is active from its start up to, not including, its end day. */
  lemma PromotionWithMidnightBounds(startDate: DateTime, endDate: DateTime, now: DateTime)
    requires startDate % TICKS_PER_DAY == 0 && endDate % TICKS_PER_DAY == 0
    ensures IsPromotionActive(startDate, endDate, now) <==> startDate <= now < endDate
  {
    var today := Date(now);
    assert today / TICKS_PER_DAY == now / TICKS_PER_DAY;
    assert startDate == (startDate / TICKS_PER_DAY) * TICKS_PER_DAY;
    assert endDate == (endDate / TICKS_PER_DAY) * TICKS_PER_DAY;
    assert today == (now / TICKS_PER_DAY) * TICKS_PER_DAY;
    if startDate <= now {
      assert startDate / TICKS_PER_DAY <= now / TICKS_PER_DAY;
    }
    if today < endDate {
      assert now / TICKS_PER_DAY < endDate / TICKS_PER_DAY;
    }
  }

  /** The end date is exclusive: a promotion ending today is no longer active, whatever the hour. */
  lemma PromotionEndExclusive(startDate: DateTime, now: DateTime)
    ensures !IsPromotionActive(startDate, Date(now), now)
  {
  }

  /** A start with a time of day other than midnight only takes effect on the next day. */
  lemma PromotionStartAfterMidnight(startDate: DateTime, endDate: DateTime, now: DateTime)
    requires Date(now) == Date(startDate) && startDate != Date(startDate)
    ensures !IsPromotionActive(startDate, endDate, now)
  {
  }

  datatype ScheduleError = ArgumentOutOfRange

  /**
   * `GetNextRunTime`: the last run plus the interval, with `DateTime.Add`'s error when the sum
   * leaves the range of `DateTime`.
   */
  function GetNextRunTime(task: ScheduledTask): (r: Result<DateTime, ScheduleError>)
    ensures r.Ok? <==> 0 <= task.lastRun + task.interval <= MAX_TICKS
    ensures r.Ok? ==> r.value - task.lastRun == task.interval
  {
    var next := task.lastRun + task.interval;
    if 0 <= next <= MAX_TICKS then Ok(next) else Err(ArgumentOutOfRange)
  }

  /**
   * A task whose next run is set from `GetNextRunTime` becomes due exactly one interval after its
   * last run, and a non-negative interval never moves the next run before the last one.
   */
  lemma NextRunDueAfterInterval(task: ScheduledTask, now: DateTime)
    requires task.isEnabled && GetNextRunTime(task).Ok?
    ensures var t := task.(nextRun := Some(GetNextRunTime(task).value));
            ShouldRunNow(t, now) <==> now - task.lastRun >= task.interval
    ensures task.interval >= 0 ==> GetNextRunTime(task).value >= task.lastRun
  {
  }
}
