/** The timer card of the counting screen: the elapsed time taken from the
    session's timestamps, the time remaining before the limit, the
    timed-out and warning flags; both times are shown as `Clock.FormatTime`
    text. The clock reading `now` is a parameter. */
module Timer {
  import opened Types
  import SessionStore
  import StateMachine

  /** The properties the counting screen hands the timer. */
  datatype TimerProps = TimerProps(
    startedAt: Option<int>,
    endedAt: Option<int>,
    timeLimitSec: int,
    isPaused: bool,
    pausedDurationMs: int)

  /** The limit shown when no session is loaded. */
  const FallbackLimitSec: int := 7200

  /** The last ten minutes before the limit, in milliseconds. */
  const WarningWindowMs: int := 600000

  /** The properties for the loaded session, if any: its timestamps, limit
      and paused total, with no start, no end, the fallback limit and no
      paused time when there is no session. */
  function PropsOf(session: Option<Session>): (p: TimerProps)
    ensures session.None? ==> p == TimerProps(None, None, FallbackLimitSec, false, 0)
    ensures session.Some? ==>
      && p.startedAt == session.value.startedAt && p.endedAt == session.value.endedAt
      && p.timeLimitSec == session.value.timeLimitSec
      && p.pausedDurationMs == session.value.pausedDurationMs
      && (p.isPaused <==> session.value.status == Types.Paused)
  {
    match session
    case None => TimerProps(None, None, FallbackLimitSec, false, 0)
    case Some(s) => TimerProps(s.startedAt, s.endedAt, s.timeLimitSec, s.status == Types.Paused, s.pausedDurationMs)
  }

  /** calculateElapsed: zero before the start; otherwise the time from the
      start to the end (or to now while the session runs) less the paused
      total, never below zero. A pause still in progress is not subtracted:
      the timer stops refreshing while paused instead. */
  function ElapsedMs(p: TimerProps, now: int): (r: int)
    ensures r >= 0
    ensures p.startedAt.None? ==> r == 0
    ensures p.startedAt.Some? ==>
      r >= p.endedAt.GetOr(now) - p.startedAt.value - p.pausedDurationMs
    ensures p.startedAt.Some? && r > 0 ==>
      r == p.endedAt.GetOr(now) - p.startedAt.value - p.pausedDurationMs
  {
    if p.startedAt.None? then 0
    else StateMachine.Max(0, p.endedAt.GetOr(now) - p.startedAt.value - p.pausedDurationMs)
  }

  /** What the card shows for one elapsed time. */
  datatype TimerView = TimerView(elapsedMs: int, remainingMs: int, timedOut: bool, warning: bool)

  /** The remaining time (the limit less the elapsed time, never below
      zero), the timed-out flag (nothing remains of a started session) and
      the warning flag (something, but at most ten minutes, remains). */
  function View(p: TimerProps, elapsedMs: int): (v: TimerView)
    requires elapsedMs >= 0
    ensures v.elapsedMs == elapsedMs && v.remainingMs >= 0
    ensures v.elapsedMs + v.remainingMs >= p.timeLimitSec * 1000
    ensures v.remainingMs > 0 ==> v.elapsedMs + v.remainingMs == p.timeLimitSec * 1000
    ensures v.timedOut <==> p.startedAt.Some? && elapsedMs >= p.timeLimitSec * 1000
    ensures v.warning <==>
      p.timeLimitSec * 1000 - WarningWindowMs <= elapsedMs < p.timeLimitSec * 1000
    ensures !(v.timedOut && v.warning)
  {
    var remaining := StateMachine.Max(0, p.timeLimitSec * 1000 - elapsedMs);
    TimerView(elapsedMs, remaining, remaining <= 0 && p.startedAt.Some?,
              remaining > 0 && remaining <= WarningWindowMs)
  }

  /** While the session runs, the timer's elapsed time is the one the state
      machine measures. */
  lemma RunningTimerAgrees(s: Session, now: int)
    requires s.status != Types.Paused && s.endedAt.None?
    ensures ElapsedMs(PropsOf(Some(s)), now) == StateMachine.ElapsedMs(s, now)
  {
  }

  /** While paused the timer keeps the value it computed when the pause
      began, and that value is the state machine's elapsed time at every
      instant of the pause. */
  lemma PausedTimerAgrees(s: Session, now: int)
    requires s.status == Types.Paused && s.pausedAt.Some? && s.endedAt.None?
    ensures ElapsedMs(PropsOf(Some(s)), s.pausedAt.value) == StateMachine.ElapsedMs(s, now)
  {
  }

  /** The card flags a running session as timed out exactly when the state
      machine's timeout check fires. */
  lemma TimedOutIffCheckTimeout(s: Session, now: int)
    requires s.status == Types.Active && s.endedAt.None?
    ensures View(PropsOf(Some(s)), ElapsedMs(PropsOf(Some(s)), now)).timedOut <==>
            StateMachine.CheckTimeout(s, now)
  {
    RunningTimerAgrees(s, now);
  }

  /** A session ended while running shows the duration it recorded, at any
      later time. */
  lemma EndedShowsDuration(db: SessionStore.Db, id: Id, t: Transition, at: int, now: int)
    requires id in db.sessions && db.sessions[id].status == Types.Active
    requires db.sessions[id].endedAt.None?
    requires t == End || t == Finish || t == TimeOut
    ensures var ended := StateMachine.Fire(db, id, t, at).value.1;
      ElapsedMs(PropsOf(Some(ended)), now) == ended.durationMs.value
  {
  }

  /** A session ended early during a pause shows more than the duration it
      recorded: the record keeps the paused total from before the last
      pause, so the timer counts the last pause as elapsed. */
  lemma EndedFromPauseShowsLastPause(db: SessionStore.Db, id: Id, at: int, now: int)
    requires id in db.sessions && db.sessions[id].status == Types.Paused
    requires db.sessions[id].startedAt.Some? && db.sessions[id].pausedAt.Some?
    requires var s := db.sessions[id];
      s.pausedAt.value - s.startedAt.value - s.pausedDurationMs >= 0
    requires at >= db.sessions[id].pausedAt.value
    ensures var ended := StateMachine.EndSessionEarly(db, id, at).value.1;
      ElapsedMs(PropsOf(Some(ended)), now) ==
        ended.durationMs.value + (at - db.sessions[id].pausedAt.value)
  {
  }
}
