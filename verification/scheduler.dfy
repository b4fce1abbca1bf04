/**
 * Daily start times (backend/src/session/scheduler.ts). A UTC day is exactly
 * 86,400,000 ms of the epoch clock; the clock reading is a parameter.
 */
module Scheduler {

  const HOUR_MS: int := 3600000
  const DAY_MS: int := 24 * HOUR_MS

  /** Midnight UTC of the day containing `now` (floor to a whole day). */
  function DayStart(now: int): (d: int)
    ensures d <= now < d + DAY_MS
    ensures d % DAY_MS == 0
  {
    now - now % DAY_MS
  }

  /** Today's start: midnight UTC of `now`'s day plus `hourUTC` hours. */
  function TodaySessionStart(hourUTC: int, now: int): (t: int)
    ensures t - hourUTC * HOUR_MS <= now < t - hourUTC * HOUR_MS + DAY_MS
    ensures (t - hourUTC * HOUR_MS) % DAY_MS == 0
  {
    DayStart(now) + hourUTC * HOUR_MS
  }

  /** Today's start while it is still ahead, otherwise the same hour tomorrow. */
  function NextSessionStart(hourUTC: int, now: int): (t: int)
    ensures now < TodaySessionStart(hourUTC, now) ==> t == TodaySessionStart(hourUTC, now)
    ensures now >= TodaySessionStart(hourUTC, now) ==> t == TodaySessionStart(hourUTC, now) + DAY_MS
  {
    var todayStart := TodaySessionStart(hourUTC, now);
    if now < todayStart then todayStart else todayStart + DAY_MS
  }

  /**
   * For an hour of the day, the next start is strictly in the future, at most a
   * day away, and falls on that hour.
   */
  lemma NextStartWithinADay(hourUTC: int, now: int)
    requires 0 <= hourUTC < 24
    ensures now < NextSessionStart(hourUTC, now) <= now + DAY_MS
    ensures NextSessionStart(hourUTC, now) % DAY_MS == hourUTC * HOUR_MS
  {
    var d := DayStart(now);
    var t := NextSessionStart(hourUTC, now);
    var offset := hourUTC * HOUR_MS;
    assert 0 <= offset < DAY_MS;
    if now < d + offset {
      assert t == d + offset;
    } else {
      assert t == d + offset + DAY_MS;
    }
    ModOfDayMultiple(d / DAY_MS + (if now < d + offset then 0 else 1), offset);
  }

  lemma ModOfDayMultiple(k: int, offset: int)
    requires 0 <= offset < DAY_MS
    ensures (k * DAY_MS + offset) % DAY_MS == offset
  {
  }
}
