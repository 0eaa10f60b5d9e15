/** The session state machine: the six transitions between the statuses,
    each reading the stored record, refusing a status it does not start from,
    and writing the new status with its timestamps; and the elapsed, remaining
    and duration arithmetic that excludes paused time.

    The application counts these times in fractional seconds computed from
    millisecond timestamps; the model keeps them in whole milliseconds, which
    is exact: a quantity in seconds is the model's quantity divided by 1000. */
module StateMachine {
  import opened Types
  import opened SessionStore
  import opened KickLog

  function Max(a: int, b: int): int { if a < b then b else a }

  /** The statuses each transition accepts. */
  predicate Allowed(t: Transition, s: Status) {
    match t
    case Start => s == Idle
    case Pause => s == Active
    case Resume => s == Paused
    case End => s == Active || s == Paused
    case Finish => s == Active
    case TimeOut => s == Active
  }

  /** The status each transition leads to; `Finish` is `completeSession`. */
  function Target(t: Transition): Status {
    match t
    case Start => Active
    case Pause => Paused
    case Resume => Active
    case End => EndedEarly
    case Finish => Complete
    case TimeOut => Timeout
  }

  predicate Terminal(s: Status) {
    s == Complete || s == Timeout || s == EndedEarly
  }

  /** Time in the current pause, when the session is paused. */
  function OpenPauseMs(s: Session, at: int): int {
    if s.status == Paused && s.pausedAt.Some? then at - s.pausedAt.value else 0
  }

  /** calculateElapsedSeconds: time since the start, minus the time already
      spent paused and the time of a pause still in progress, never below
      zero; zero before the session starts. */
  function ElapsedMs(s: Session, now: int): (r: int)
    ensures r >= 0
    ensures s.startedAt.None? ==> r == 0
    ensures s.startedAt.Some? ==>
      r >= now - s.startedAt.value - s.pausedDurationMs - OpenPauseMs(s, now)
    ensures s.startedAt.Some? && r > 0 ==>
      r + s.pausedDurationMs + OpenPauseMs(s, now) == now - s.startedAt.value
  {
    if s.startedAt.None? then 0
    else Max(0, now - s.startedAt.value - s.pausedDurationMs - OpenPauseMs(s, now))
  }

  /** calculateDuration: the time from the start to the end time, minus the
      time already spent paused and the time of a pause still open at the
      end, never below zero; zero for a session that never started. */
  function DurationMs(s: Session, endTime: int): (r: int)
    ensures r >= 0
    ensures s.startedAt.None? ==> r == 0
    ensures s.startedAt.Some? ==>
      r >= endTime - s.startedAt.value - s.pausedDurationMs - OpenPauseMs(s, endTime)
    ensures s.startedAt.Some? && r > 0 ==>
      r + s.pausedDurationMs + OpenPauseMs(s, endTime) == endTime - s.startedAt.value
  {
    if s.startedAt.None? then 0
    else
      var duration := endTime - s.startedAt.value - s.pausedDurationMs;
      var duration := if s.status == Paused && s.pausedAt.Some?
                      then duration - (endTime - s.pausedAt.value) else duration;
      Max(0, duration)
  }

  /** The duration written when a session ends is the elapsed time the timer
      shows at that instant. */
  lemma DurationIsElapsed(s: Session, t: int)
    ensures DurationMs(s, t) == ElapsedMs(s, t)
  {
  }

  /** calculateRemainingSeconds: the time limit minus the elapsed time, never
      below zero. */
  function RemainingMs(s: Session, now: int): (r: int)
    ensures r >= 0
    ensures r + ElapsedMs(s, now) >= s.timeLimitSec * 1000
    ensures r > 0 ==> r + ElapsedMs(s, now) == s.timeLimitSec * 1000
  {
    Max(0, s.timeLimitSec * 1000 - ElapsedMs(s, now))
  }

  /** checkTimeout: an active, started session whose elapsed time has
      reached its limit. */
  function CheckTimeout(s: Session, now: int): (r: bool)
    ensures r ==> s.status == Active && s.startedAt.Some?
  {
    s.status == Active && s.startedAt.Some? && ElapsedMs(s, now) >= s.timeLimitSec * 1000
  }

  /** A session times out exactly when it is active, started and has no time
      remaining. */
  lemma TimeoutIffNoneRemaining(s: Session, now: int)
    ensures CheckTimeout(s, now) <==>
            s.status == Active && s.startedAt.Some? && RemainingMs(s, now) == 0
  {
  }

  /** While paused the elapsed time stands still. */
  lemma ElapsedFrozenWhilePaused(s: Session, t1: int, t2: int)
    requires s.status == Paused && s.pausedAt.Some?
    ensures ElapsedMs(s, t1) == ElapsedMs(s, t2)
  {
  }

  /** While not paused the elapsed time never runs backwards, and once
      positive it advances exactly with the clock. */
  lemma ElapsedAdvancesWhileRunning(s: Session, t1: int, t2: int)
    requires s.status != Paused && t1 <= t2
    ensures ElapsedMs(s, t1) <= ElapsedMs(s, t2)
    ensures s.startedAt.Some? && ElapsedMs(s, t1) > 0 ==>
            ElapsedMs(s, t2) == ElapsedMs(s, t1) + (t2 - t1)
  {
  }

  /** The session as the transition writes it: the new status and the
      fields that go with it, every other field as it was. */
  function Transitioned(s: Session, t: Transition, now: int): Session
    requires t == Resume ==> s.pausedAt.Some?
  {
    match t
    case Start => s.(status := Active, startedAt := Some(now))
    case Pause => s.(status := Paused, pausedAt := Some(now))
    case Resume =>
      s.(status := Active, pausedAt := None,
         pausedDurationMs := s.pausedDurationMs + (now - s.pausedAt.value))
    case End => s.(status := EndedEarly, endedAt := Some(now), durationMs := Some(DurationMs(s, now)))
    case Finish => s.(status := Complete, endedAt := Some(now), durationMs := Some(DurationMs(s, now)))
    case TimeOut => s.(status := Timeout, endedAt := Some(now), durationMs := Some(DurationMs(s, now)))
  }

  /** The patch each transition writes. */
  function PatchFor(s: Session, t: Transition, now: int): SessionPatch
    requires t == Resume ==> s.pausedAt.Some?
  {
    match t
    case Start => EmptyPatch.(status := Some(Active), startedAt := Some(Some(now)))
    case Pause => EmptyPatch.(status := Some(Paused), pausedAt := Some(Some(now)))
    case Resume =>
      EmptyPatch.(status := Some(Active), pausedAt := Some(None),
                  pausedDurationMs := Some(s.pausedDurationMs + (now - s.pausedAt.value)))
    case End =>
      EmptyPatch.(status := Some(EndedEarly), endedAt := Some(Some(now)),
                  durationMs := Some(Some(DurationMs(s, now))))
    case Finish =>
      EmptyPatch.(status := Some(Complete), endedAt := Some(Some(now)),
                  durationMs := Some(Some(DurationMs(s, now))))
    case TimeOut =>
      EmptyPatch.(status := Some(Timeout), endedAt := Some(Some(now)),
                  durationMs := Some(Some(DurationMs(s, now))))
  }

  /** The common shape of the six transitions: look the session up, refuse
      a missing one or a status the transition does not start from (and a
      resume without a pause time), then write the patch and return the
      session with the patch applied. */
  function Fire(db: Db, id: Id, t: Transition, now: int): (r: Result<(Db, Session)>)
    ensures id !in db.sessions ==> r == Failure(NotFound(id))
    ensures id in db.sessions && !Allowed(t, db.sessions[id].status) ==>
      r == Failure(InvalidTransition(t, db.sessions[id].status))
    ensures (id in db.sessions && Allowed(t, db.sessions[id].status) && t == Resume &&
             db.sessions[id].pausedAt.None?) ==> r == Failure(MissingPausedAt)
    ensures r.Success? <==>
      id in db.sessions && Allowed(t, db.sessions[id].status) &&
      (t == Resume ==> db.sessions[id].pausedAt.Some?)
    ensures r.Success? ==>
      var (db', s') := r.value;
      && s'.status == Target(t)
      && s' == Transitioned(db.sessions[id], t, now)
      && db'.sessions == db.sessions[id := s']
      && db'.events == db.events
  {
    match GetSession(db, id)
    case None => Failure(NotFound(id))
    case Some(session) =>
      if !Allowed(t, session.status) then Failure(InvalidTransition(t, session.status))
      else if t == Resume && session.pausedAt.None? then Failure(MissingPausedAt)
      else
        var patch := PatchFor(session, t, now);
        var db' := UpdateSession(db, id, patch);
        var s' := ApplyPatch(session, patch);
        Success((db', s'))
  }

  /** startSession: idle to active, stamping the start time. */
  function StartSession(db: Db, id: Id, now: int): (r: Result<(Db, Session)>)
    ensures r.Success? <==> id in db.sessions && db.sessions[id].status == Idle
    ensures r.Success? ==>
      var (db', s') := r.value;
      && s' == db.sessions[id].(status := Active, startedAt := Some(now))
      && db'.sessions == db.sessions[id := s'] && db'.events == db.events
  {
    Fire(db, id, Start, now)
  }

  /** pauseSession: active to paused, stamping the pause time. */
  function PauseSession(db: Db, id: Id, now: int): (r: Result<(Db, Session)>)
    ensures r.Success? <==> id in db.sessions && db.sessions[id].status == Active
    ensures r.Success? ==>
      var (db', s') := r.value;
      && s' == db.sessions[id].(status := Paused, pausedAt := Some(now))
      && db'.sessions == db.sessions[id := s'] && db'.events == db.events
  {
    Fire(db, id, Pause, now)
  }

  /** resumeSession: paused to active, adding the time since the pause to
      the paused total and clearing the pause time. */
  function ResumeSession(db: Db, id: Id, now: int): (r: Result<(Db, Session)>)
    ensures r.Success? <==>
      id in db.sessions && db.sessions[id].status == Paused && db.sessions[id].pausedAt.Some?
    ensures (id in db.sessions && db.sessions[id].status == Paused &&
             db.sessions[id].pausedAt.None?) ==> r == Failure(MissingPausedAt)
    ensures r.Success? ==>
      var (db', s') := r.value;
      var s := db.sessions[id];
      && s'.status == Active && s'.pausedAt.None?
      && s'.pausedDurationMs == s.pausedDurationMs + (now - s.pausedAt.value)
      && s' == s.(status := s'.status, pausedAt := s'.pausedAt, pausedDurationMs := s'.pausedDurationMs)
      && db'.sessions == db.sessions[id := s'] && db'.events == db.events
  {
    Fire(db, id, Resume, now)
  }

  /** endSessionEarly: active or paused to ended early, stamping the end
      time and the duration. */
  function EndSessionEarly(db: Db, id: Id, now: int): (r: Result<(Db, Session)>)
    ensures r.Success? <==>
      id in db.sessions && (db.sessions[id].status == Active || db.sessions[id].status == Paused)
    ensures r.Success? ==>
      var (db', s') := r.value;
      && s' == db.sessions[id].(status := EndedEarly, endedAt := Some(now),
                                durationMs := Some(ElapsedMs(db.sessions[id], now)))
      && db'.sessions == db.sessions[id := s'] && db'.events == db.events
  {
    Fire(db, id, End, now)
  }

  /** completeSession: active to complete, stamping the end time and the
      duration. */
  function CompleteSession(db: Db, id: Id, now: int): (r: Result<(Db, Session)>)
    ensures r.Success? <==> id in db.sessions && db.sessions[id].status == Active
    ensures r.Success? ==>
      var (db', s') := r.value;
      && s' == db.sessions[id].(status := Complete, endedAt := Some(now),
                                durationMs := Some(ElapsedMs(db.sessions[id], now)))
      && db'.sessions == db.sessions[id := s'] && db'.events == db.events
  {
    Fire(db, id, Finish, now)
  }

  /** timeoutSession: active to timed out, stamping the end time and the
      duration. */
  function TimeoutSession(db: Db, id: Id, now: int): (r: Result<(Db, Session)>)
    ensures r.Success? <==> id in db.sessions && db.sessions[id].status == Active
    ensures r.Success? ==>
      var (db', s') := r.value;
      && s' == db.sessions[id].(status := Timeout, endedAt := Some(now),
                                durationMs := Some(ElapsedMs(db.sessions[id], now)))
      && db'.sessions == db.sessions[id := s'] && db'.events == db.events
  {
    Fire(db, id, TimeOut, now)
  }

  /** checkAutoComplete: an active session whose stored events have reached
      its target; false for a missing or inactive session. */
  function CheckAutoComplete(db: Db, id: Id): (r: bool)
    ensures r <==> id in db.sessions && db.sessions[id].status == Active &&
                   |GetKicksForSession(db, id)| >= db.sessions[id].targetCount
  {
    match GetSession(db, id)
    case None => false
    case Some(s) => s.status == Active && GetKickCount(db, id) >= s.targetCount
  }

  /** getValidTransitions: the statuses reachable in one step. */
  function GetValidTransitions(s: Status): seq<Status> {
    match s
    case Idle => [Active]
    case Active => [Paused, Complete, Timeout, EndedEarly]
    case Paused => [Active, EndedEarly]
    case _ => []
  }

  /** The listed next statuses are exactly the targets of the transitions
      the state machine accepts from the status. */
  lemma ValidTransitionsAgree(s: Status, next: Status)
    ensures next in GetValidTransitions(s) <==> exists t :: Allowed(t, s) && Target(t) == next
  {
    if next in GetValidTransitions(s) {
      var t :| t in [Start, Pause, Resume, End, Finish, TimeOut] && Allowed(t, s) && Target(t) == next;
    }
  }

  /** No transition leaves a terminal status, and a terminal status lists no
      next status. */
  lemma TerminalIsFinal(db: Db, id: Id, t: Transition, now: int)
    requires id in db.sessions && Terminal(db.sessions[id].status)
    ensures Fire(db, id, t, now) == Failure(InvalidTransition(t, db.sessions[id].status))
    ensures GetValidTransitions(db.sessions[id].status) == []
  {
  }

  /** The fields that go with each status: a start time once started, an end
      time and a duration once ended, a pause time exactly while paused (an
      early end from a pause keeps it, see EndFromPauseKeepsPausedAt). */
  predicate Coherent(s: Session) {
    match s.status
    case Idle => s.startedAt.None? && s.endedAt.None? && s.pausedAt.None? && s.durationMs.None?
    case Active => s.startedAt.Some? && s.endedAt.None? && s.pausedAt.None? && s.durationMs.None?
    case Paused => s.startedAt.Some? && s.endedAt.None? && s.pausedAt.Some? && s.durationMs.None?
    case EndedEarly =>
      s.startedAt.Some? && s.endedAt.Some? && s.durationMs.Some? && s.durationMs.value >= 0
    case _ =>
      s.startedAt.Some? && s.endedAt.Some? && s.durationMs.Some? && s.durationMs.value >= 0 &&
      s.pausedAt.None?
  }

  /** Every transition keeps the fields coherent with the status. */
  lemma FireKeepsCoherent(db: Db, id: Id, t: Transition, now: int)
    requires id in db.sessions && Coherent(db.sessions[id])
    requires Fire(db, id, t, now).Success?
    ensures Coherent(Fire(db, id, t, now).value.1)
  {
  }

  /** Ending early from a pause leaves the pause time in the record, so a
      finished session can carry a pause time although the record's
      documentation says it is null when not paused. */
  lemma EndFromPauseKeepsPausedAt(db: Db, id: Id, now: int)
    requires id in db.sessions && db.sessions[id].status == Paused
    requires db.sessions[id].pausedAt.Some?
    ensures var s' := EndSessionEarly(db, id, now).value.1;
      s'.status == EndedEarly && s'.pausedAt == db.sessions[id].pausedAt
  {
  }

  /** Start at t0, pause at t1, resume at t2 and finish at t3: the duration
      recorded is the time from start to finish minus the pause. */
  lemma PauseExcludedFromDuration(db: Db, id: Id, t0: int, t1: int, t2: int, t3: int, last: Transition)
    requires id in db.sessions && db.sessions[id].status == Idle
    requires db.sessions[id].pausedDurationMs == 0
    requires t0 <= t1 <= t2 <= t3
    requires last == End || last == Finish || last == TimeOut
    ensures var db0 := StartSession(db, id, t0).value.0;
      var db1 := PauseSession(db0, id, t1).value.0;
      var db2 := ResumeSession(db1, id, t2).value.0;
      var r := Fire(db2, id, last, t3);
      && r.Success?
      && r.value.1.durationMs == Some((t3 - t0) - (t2 - t1))
  {
    OnePause(db, id, t0, t1, t2);
    var db0 := StartSession(db, id, t0).value.0;
    var db1 := PauseSession(db0, id, t1).value.0;
    RunningEnd(ResumeSession(db1, id, t2).value.0, id, last, t3);
  }

  /** Ending a running session records the time since the start less the
      paused total. */
  lemma RunningEnd(db: Db, id: Id, last: Transition, now: int)
    requires id in db.sessions && db.sessions[id].status == Active
    requires db.sessions[id].startedAt.Some?
    requires last == End || last == Finish || last == TimeOut
    requires now - db.sessions[id].startedAt.value - db.sessions[id].pausedDurationMs >= 0
    ensures Fire(db, id, last, now).Success?
    ensures Fire(db, id, last, now).value.1.durationMs ==
      Some(now - db.sessions[id].startedAt.value - db.sessions[id].pausedDurationMs)
  {
  }

  /** Start, pause and resume leave the session running, started at the
      start, with the one pause counted. */
  lemma OnePause(db: Db, id: Id, t0: int, t1: int, t2: int)
    requires id in db.sessions && db.sessions[id].status == Idle
    requires db.sessions[id].pausedDurationMs == 0
    requires t1 <= t2
    ensures StartSession(db, id, t0).Success?
    ensures var db0 := StartSession(db, id, t0).value.0;
      PauseSession(db0, id, t1).Success?
    ensures var db0 := StartSession(db, id, t0).value.0;
      var db1 := PauseSession(db0, id, t1).value.0;
      ResumeSession(db1, id, t2).Success?
    ensures var db0 := StartSession(db, id, t0).value.0;
      var db1 := PauseSession(db0, id, t1).value.0;
      var s := ResumeSession(db1, id, t2).value.0.sessions[id];
      && id in ResumeSession(db1, id, t2).value.0.sessions
      && s.status == Active && s.startedAt == Some(t0) && s.pausedDurationMs == t2 - t1
  {
    var db0 := StartSession(db, id, t0).value.0;
    var db1 := PauseSession(db0, id, t1).value.0;
    var db2 := ResumeSession(db1, id, t2).value.0;
    assert db2.sessions[id].pausedDurationMs == t2 - t1;
  }
}
