/**
 * The daily watcher (backend/src/session/daily.ts): the start hour is checked
 * once when the module loads, and every minute a tick starts a session when
 * today's start time has passed and no session is active.
 */
module Daily {

  import opened Wrappers
  import opened SessionData
  import Scheduler
  import Runtime
  import Chain

  const START_HOUR_MISSING := "SESSION_START_HOUR not set"

  /**
   * The load-time check on `Number(SESSION_START_HOUR)`: an unset or
   * non-numeric value converts to NaN (None here) and aborts with an error;
   * any number is accepted. An empty value converts to 0, so it is hour 0.
   */
  function LoadStartHour(configured: Option<int>): (r: Result<int, string>)
    ensures configured.None? <==> r == Err(START_HOUR_MISSING)
    ensures configured.Some? ==> r == Ok(configured.value)
  {
    match configured
    case None => Err(START_HOUR_MISSING)
    case Some(h) => Ok(h)
  }

  /** The tick's decision: today's start has passed and no session is active. */
  predicate ShouldStart(startHour: int, now: int, session: Option<Session>)
  {
    now >= Scheduler.TodaySessionStart(startHour, now) && !Runtime.IsActive(session)
  }

  /** One tick of the watcher: too early or a session active, nothing; otherwise a new session. */
  method DailyTick(rt: Runtime.SessionRuntime, now: int, seed: string)
    modifies rt, rt.ledger, rt.chain
    ensures !ShouldStart(rt.startHour, now, old(rt.session)) ==>
      && rt.session == old(rt.session)
      && rt.ledger.balances == old(rt.ledger.balances)
      && rt.chain.requests == old(rt.chain.requests)
    ensures ShouldStart(rt.startHour, now, old(rt.session)) ==>
      && rt.session == Some(Runtime.FreshSession(now, seed))
      && rt.ledger.balances == map[]
      && rt.chain.requests == old(rt.chain.requests) + [Chain.StartSession(now)]
    ensures rt.lastFinalized == old(rt.lastFinalized) && rt.hubRef == old(rt.hubRef)
  {
    var todayStart := Scheduler.TodaySessionStart(rt.startHour, now);
    if now < todayStart {
      return;
    }
    if rt.HasActiveSession() {
      return;
    }
    rt.StartNewSession(now, seed);
  }

  /**
   * After a win the session is finalized, hence not active, so a tick later the
   * same UTC day starts a new session, although the `session_ended`
   * announcement made at the win named tomorrow's start.
   */
  lemma RestartsAfterWinSameDay(startHour: int, s: Session, winAt: int, tickAt: int)
    requires 0 <= startHour < 24
    requires s.finalized
    requires Scheduler.TodaySessionStart(startHour, winAt) <= winAt < tickAt
    requires Scheduler.DayStart(tickAt) == Scheduler.DayStart(winAt)
    ensures ShouldStart(startHour, tickAt, Some(s))
    ensures tickAt < Scheduler.NextSessionStart(startHour, winAt)
  {
  }
}
