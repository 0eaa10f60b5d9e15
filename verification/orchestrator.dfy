/** The session provider: the in-memory state (current session, its kicks,
    the loading flag, the last error) kept by a reducer, and the handlers the
    screens call, which run the store and state-machine operations and
    dispatch the results. A handler's run is modelled as one step from a
    `World` (store and in-memory state) to the next; the clock, the fresh ids
    and the time zone of that run come in an `Env`. */
module Orchestrator {
  import opened Types
  import opened Sequences
  import opened SessionStore
  import opened KickLog
  import opened LogInvariant
  import opened StateMachine

  datatype SessionState = SessionState(
    session: Option<Session>,
    kicks: seq<KickEvent>,
    isLoading: bool,
    error: Option<string>)

  datatype Action =
    | SetLoading(loading: bool)
    | SetError(message: Option<string>)
    | SetSession(current: Option<Session>)
    | SetKicks(events: seq<KickEvent>)
    | AddKick(event: KickEvent)
    | RemoveLastKick
    | Reset

  /** The state before the active session is loaded. */
  const Initial: SessionState := SessionState(None, [], true, None)

  /** sessionReducer. Dropping the last kick of an empty list leaves it
      empty, as `slice(0, -1)` does. */
  function Reduce(state: SessionState, action: Action): (r: SessionState)
    ensures action.AddKick? ==> r.kicks == state.kicks + [action.event]
    ensures action.RemoveLastKick? ==>
      |r.kicks| == Max(0, |state.kicks| - 1) && r.kicks <= state.kicks
    ensures !action.Reset? && !action.SetSession? ==> r.session == state.session
    ensures !action.Reset? && !action.SetError? ==> r.error == state.error
    ensures action.SetError? || action.SetLoading? || action.SetSession? ==> r.kicks == state.kicks
  {
    match action
    case SetLoading(b) => state.(isLoading := b)
    case SetError(e) => state.(error := e)
    case SetSession(s) => state.(session := s)
    case SetKicks(k) => state.(kicks := k)
    case AddKick(e) => state.(kicks := state.kicks + [e])
    case RemoveLastKick =>
      state.(kicks := if |state.kicks| == 0 then [] else state.kicks[..|state.kicks| - 1])
    case Reset => SessionState(None, [], false, None)
  }

  /** Adding a kick and then removing the last one restores the state. */
  lemma AddThenRemove(state: SessionState, e: KickEvent)
    ensures Reduce(Reduce(state, AddKick(e)), RemoveLastKick) == state
  {
    assert (state.kicks + [e])[..|state.kicks|] == state.kicks;
  }

  /** A reset forgets everything but is not loading, whatever came before. */
  lemma ResetForgets(state: SessionState, other: SessionState)
    ensures Reduce(state, Reset) == Reduce(other, Reset)
    ensures Reduce(state, Reset).session.None? && Reduce(state, Reset).kicks == []
  {
  }

  datatype World = World(db: Db, state: SessionState)

  /** The clock reading, fresh ids and time zone one handler run uses. */
  datatype Env = Env(now: int, sessionId: Id, eventId: Id, timezone: string)

  const LoadError: string := "Failed to load session"
  const CreateError: string := "Failed to create session"
  const RegisterError: string := "Failed to register kick"
  const UndoError: string := "Failed to undo kick"
  const PauseError: string := "Failed to pause session"
  const ResumeError: string := "Failed to resume session"
  const EndError: string := "Failed to end session"
  const SaveError: string := "Failed to save session details"

  function Dispatch(w: World, a: Action): World {
    w.(state := Reduce(w.state, a))
  }

  function Fail(w: World, message: string): World {
    Dispatch(w, SetError(Some(message)))
  }

  /** Every session's fields agree with its status. */
  predicate AllCoherent(db: Db) {
    forall k :: k in db.sessions ==> Coherent(db.sessions[k])
  }

  /** The in-memory state mirrors the store: the current session is the
      stored record, its kicks are the stored kicks in ordinal order, and
      without a session there are no kicks. */
  predicate Consistent(w: World) {
    && StoreInvariant(w.db)
    && AllCoherent(w.db)
    && match w.state.session
       case None => w.state.kicks == []
       case Some(s) =>
         && s.id in w.db.sessions
         && w.db.sessions[s.id] == s
         && w.state.kicks == GetKicksForSession(w.db, s.id)
  }

  // ---------------------------------------------------------------- tap

  /** tap: create a session when there is none, start it when idle, and
      when it is active register a kick, cache the count and complete the
      session once the target is reached. A failure at any step records
      the error and keeps what the earlier steps did. */
  function TapKick(w: World, env: Env): (r: World)
    ensures w.state.kicks <= r.state.kicks
    ensures |r.state.kicks| <= |w.state.kicks| + 1
  {
    match w.state.session
    case None =>
      (match CreateSession(w.db, env.sessionId, env.now, env.timezone, EmptyPatch)
       case Failure(_) => Fail(w, RegisterError)
       case Success((db1, s)) =>
         TapStarted(World(db1, Reduce(w.state, SetSession(Some(s)))), s, |w.state.kicks|, env))
    case Some(s) => TapStarted(w, s, |w.state.kicks|, env)
  }

  /** The part of tap after the session exists; `known` is the number of
      kicks the state held when the tap began. */
  function TapStarted(w: World, s: Session, known: int, env: Env): (r: World)
    ensures w.state.kicks <= r.state.kicks
    ensures |r.state.kicks| <= |w.state.kicks| + 1
  {
    if s.status == Idle then
      match StartSession(w.db, s.id, env.now)
      case Failure(_) => Fail(w, RegisterError)
      case Success((db2, s2)) => TapActive(World(db2, Reduce(w.state, SetSession(Some(s2)))), s2, known, env)
    else TapActive(w, s, known, env)
  }

  /** The part of tap that registers the kick: nothing unless active. */
  function TapActive(w: World, s: Session, known: int, env: Env): (r: World)
    ensures s.status != Active ==> r == w
    ensures w.state.kicks <= r.state.kicks
    ensures |r.state.kicks| <= |w.state.kicks| + 1
  {
    if s.status != Active then w
    else
      match RegisterKick(w.db, s.id, env.eventId, env.now, Tap)
      case Failure(_) => Fail(w, RegisterError)
      case Success((db3, kick)) =>
        var updated := s.(kickCount := known + 1);
        AutoComplete(Dispatch(Dispatch(World(db3, w.state), AddKick(kick)), SetSession(Some(updated))),
                     updated, env.now)
  }

  /** The end of tap: complete the session once its count reaches the
      target. */
  function AutoComplete(w: World, s: Session, now: int): (r: World)
    ensures r.state.kicks == w.state.kicks
    ensures s.kickCount < s.targetCount ==> r == w
  {
    if s.kickCount >= s.targetCount then
      match CompleteSession(w.db, s.id, now)
      case Failure(_) => Fail(w, RegisterError)
      case Success((db4, c)) => Dispatch(w.(db := db4), SetSession(Some(c)))
    else w
  }

  // ------------------------------------------------------ other handlers

  /** undo: nothing without a session or kicks; otherwise delete the
      highest-ordinal stored kick, drop the last in-memory kick and cache the
      lower count. The session's status is not consulted. */
  function UndoKick(w: World): (r: World)
    ensures w.state.session.None? || w.state.kicks == [] ==> r == w
    ensures r.state.kicks <= w.state.kicks
    ensures |w.state.kicks| > 0 && w.state.session.Some? ==>
      |r.state.kicks| == |w.state.kicks| - 1 &&
      r.state.session == Some(w.state.session.value.(kickCount := |w.state.kicks| - 1))
  {
    match w.state.session
    case None => w
    case Some(s) =>
      if |w.state.kicks| == 0 then w
      else
        var db' := DeleteLastKick(w.db, s.id).0;
        var updated := s.(kickCount := |w.state.kicks| - 1);
        Dispatch(Dispatch(World(db', w.state), RemoveLastKick), SetSession(Some(updated)))
  }

  /** The handlers that run one state-machine transition on the current
      session when its in-memory status allows it, storing the result or
      recording the error. */
  function RunTransition(w: World, t: Transition, guard: bool, message: string, now: int): (r: World)
    ensures w.state.session.None? || !guard ==> r == w
    ensures r.state.kicks == w.state.kicks
  {
    match w.state.session
    case None => w
    case Some(s) =>
      if !guard then w
      else
        match Fire(w.db, s.id, t, now)
        case Failure(_) => Fail(w, message)
        case Success((db', s')) => Dispatch(World(db', w.state), SetSession(Some(s')))
  }

  function CurrentStatusIs(w: World, st: Status): bool {
    w.state.session.Some? && w.state.session.value.status == st
  }

  /** pause: only from an active in-memory session. */
  function PauseCurrent(w: World, now: int): (r: World)
    ensures !CurrentStatusIs(w, Active) ==> r == w
  {
    RunTransition(w, Pause, CurrentStatusIs(w, Active), PauseError, now)
  }

  /** resume: only from a paused in-memory session. */
  function ResumeCurrent(w: World, now: int): (r: World)
    ensures !CurrentStatusIs(w, Paused) ==> r == w
  {
    RunTransition(w, Resume, CurrentStatusIs(w, Paused), ResumeError, now)
  }

  /** endEarly: only from an active or paused in-memory session. */
  function EndEarly(w: World, now: int): (r: World)
    ensures !CurrentStatusIs(w, Active) && !CurrentStatusIs(w, Paused) ==> r == w
  {
    RunTransition(w, End, CurrentStatusIs(w, Active) || CurrentStatusIs(w, Paused), EndError, now)
  }

  /** The periodic timeout check: when the in-memory session has run out of
      time, time it out; a failure is only logged. */
  function TimeoutTick(w: World, now: int): (r: World)
    ensures w.state.session.None? || !CheckTimeout(w.state.session.value, now) ==> r == w
    ensures r.state.kicks == w.state.kicks && r.state.error == w.state.error
  {
    match w.state.session
    case None => w
    case Some(s) =>
      if !CheckTimeout(s, now) then w
      else
        match TimeoutSession(w.db, s.id, now)
        case Failure(_) => w
        case Success((db', s')) => Dispatch(World(db', w.state), SetSession(Some(s')))
  }

  /** The note as stored: an empty note is null (`notes || null`). */
  function NoteOrNull(notes: string): (r: Option<string>)
    ensures r.None? <==> notes == []
    ensures r.Some? ==> r.value == notes
  {
    if notes == [] then None else Some(notes)
  }

  /** saveSessionDetails: write the rating and the note to the stored
      record and to the in-memory session. */
  function SaveSessionDetails(w: World, rating: Option<Rating>, notes: string): (r: World)
    ensures w.state.session.None? ==> r == w
    ensures w.state.session.Some? ==>
      var s := w.state.session.value;
      && r.state.session == Some(s.(strengthRating := rating, notes := NoteOrNull(notes)))
      && r.db == UpdateSession(w.db, s.id,
                               EmptyPatch.(strengthRating := Some(rating), notes := Some(NoteOrNull(notes))))
  {
    match w.state.session
    case None => w
    case Some(s) =>
      var patch := EmptyPatch.(strengthRating := Some(rating), notes := Some(NoteOrNull(notes)));
      var db' := UpdateSession(w.db, s.id, patch);
      Dispatch(World(db', w.state), SetSession(Some(s.(strengthRating := rating, notes := NoteOrNull(notes)))))
  }

  /** resetSession. */
  function ResetSession(w: World): (r: World)
    ensures r.db == w.db && r.state == SessionState(None, [], false, None)
  {
    Dispatch(w, Reset)
  }

  /** startNewSession: create a fresh idle session and make it current with
      no kicks. An active session already stored stays as it is. */
  function StartNewSession(w: World, env: Env): (r: World)
    ensures !r.state.isLoading
    ensures env.sessionId in w.db.sessions ==> r.db == w.db && r.state.error == Some(CreateError)
    ensures env.sessionId !in w.db.sessions ==>
      && r.state.kicks == []
      && env.sessionId in r.db.sessions
      && r.state.session == Some(r.db.sessions[env.sessionId])
      && r.state.session.value.status == Idle
      && r.db.sessions.Keys == w.db.sessions.Keys + {env.sessionId}
  {
    var w0 := Dispatch(w, SetLoading(true));
    match CreateSession(w0.db, env.sessionId, env.now, env.timezone, EmptyPatch)
    case Failure(_) => Dispatch(Fail(w0, CreateError), SetLoading(false))
    case Success((db1, s)) =>
      Dispatch(Dispatch(Dispatch(World(db1, w0.state), SetSession(Some(s))), SetKicks([])), SetLoading(false))
  }

  /** loadActiveSession: on start-up, make a stored active or paused
      session current with its kicks, then stop loading. */
  method LoadActiveSession(db: Db) returns (w: World)
    requires StoreInvariant(db) && AllCoherent(db)
    ensures Consistent(w) && w.db == db && !w.state.isLoading && w.state.error.None?
    ensures w.state.session.None? <==> forall k :: k in db.sessions ==> !IsCurrent(db.sessions[k])
    ensures w.state.session.Some? ==> IsCurrent(w.state.session.value)
  {
    var active := GetActiveSession(db);
    w := World(db, Initial);
    if active.Some? {
      var s := active.value;
      var k :| k in db.sessions && db.sessions[k] == s;
      assert s.id == k;
      w := Dispatch(w, SetSession(Some(s)));
      w := Dispatch(w, SetKicks(GetKicksForSession(db, s.id)));
    }
    w := Dispatch(w, SetLoading(false));
  }

  // ----------------------------------------------------------- derived

  /** The values the provider derives for the screens; times in
      milliseconds. */
  datatype SessionView = SessionView(
    elapsedMs: int,
    remainingMs: int,
    isSessionActive: bool,
    isPaused: bool,
    kickCount: nat,
    targetCount: int)

  function View(state: SessionState, now: int): (v: SessionView)
    ensures state.session.None? ==>
      v == SessionView(0, DefaultTimeLimitSec * 1000, false, false, |state.kicks|, DefaultTargetCount)
    ensures state.session.Some? ==>
      v.remainingMs + v.elapsedMs >= state.session.value.timeLimitSec * 1000
    ensures state.session.Some? ==>
      var s := state.session.value;
      && v.elapsedMs == ElapsedMs(s, now) && v.remainingMs == RemainingMs(s, now)
      && (v.isSessionActive <==> s.status == Active || s.status == Paused)
      && (v.isPaused <==> s.status == Paused)
      && v.targetCount == s.targetCount
    ensures v.isPaused ==> v.isSessionActive
    ensures v.kickCount == |state.kicks|
  {
    match state.session
    case None => SessionView(0, 7200 * 1000, false, false, |state.kicks|, 10)
    case Some(s) =>
      SessionView(ElapsedMs(s, now), RemainingMs(s, now),
                  s.status == Active || s.status == Paused, s.status == Paused,
                  |state.kicks|, s.targetCount)
  }

  /** The count on screen is the count the store caches and the number of
      stored events of the session. */
  lemma ViewCountIsStored(w: World, now: int)
    requires Consistent(w) && w.state.session.Some?
    ensures var id := w.state.session.value.id;
      View(w.state, now).kickCount == w.db.sessions[id].kickCount == GetKickCount(w.db, id)
  {
    var id := w.state.session.value.id;
    assert LogConsistent(w.db, id);
  }

  // ------------------------------------------------------- consistency

  /** A failure only records the message. */
  lemma FailKeepsConsistent(w: World, message: string)
    requires Consistent(w)
    ensures Consistent(Fail(w, message))
  {
  }

  /** A transition keeps the store's invariant and every session coherent. */
  lemma FireKeepsStore(db: Db, id: Id, t: Transition, now: int)
    requires StoreInvariant(db) && AllCoherent(db)
    requires Fire(db, id, t, now).Success?
    ensures var (db', s') := Fire(db, id, t, now).value;
      StoreInvariant(db') && AllCoherent(db') && db'.sessions[id] == s' &&
      forall sid :: GetKicksForSession(db', sid) == GetKicksForSession(db, sid)
  {
    var session := db.sessions[id];
    UpdateKeepsStore(db, id, PatchFor(session, t, now));
    FireKeepsCoherent(db, id, t, now);
  }

  /** Making a freshly created session current keeps the state consistent. */
  lemma CreateStepConsistent(w: World, env: Env)
    requires Consistent(w) && w.state.session.None?
    requires CreateSession(w.db, env.sessionId, env.now, env.timezone, EmptyPatch).Success?
    ensures var (db1, s) := CreateSession(w.db, env.sessionId, env.now, env.timezone, EmptyPatch).value;
      Consistent(World(db1, Reduce(w.state, SetSession(Some(s))))) && s.status == Idle
  {
    var (db1, s) := CreateSession(w.db, env.sessionId, env.now, env.timezone, EmptyPatch).value;
    CreateKeepsStore(w.db, env.sessionId, env.now, env.timezone, EmptyPatch);
    CreateDefaults(w.db, env.sessionId, env.now, env.timezone);
    NoEventsOf(w.db.events, env.sessionId);
    assert GetKicksForSession(db1, s.id) == [];
  }

  /** Running a transition on the current session keeps the state
      consistent. */
  lemma TransitionStepConsistent(w: World, s: Session, t: Transition, now: int)
    requires Consistent(w) && w.state.session == Some(s)
    requires Fire(w.db, s.id, t, now).Success?
    ensures var (db', s') := Fire(w.db, s.id, t, now).value;
      Consistent(World(db', Reduce(w.state, SetSession(Some(s')))))
  {
    FireKeepsStore(w.db, s.id, t, now);
  }

  /** Registering the kick of an active current session keeps the state
      consistent; the kick carries the next ordinal. */
  lemma RegisterStepConsistent(w: World, s: Session, env: Env)
    requires Consistent(w) && w.state.session == Some(s) && s.status == Active
    requires RegisterKick(w.db, s.id, env.eventId, env.now, Tap).Success?
    ensures var (db3, kick) := RegisterKick(w.db, s.id, env.eventId, env.now, Tap).value;
      var w3 := Dispatch(Dispatch(World(db3, w.state), AddKick(kick)),
                         SetSession(Some(s.(kickCount := |w.state.kicks| + 1))));
      Consistent(w3) && kick.ordinal == |w.state.kicks| + 1
  {
    var (db3, kick) := RegisterKick(w.db, s.id, env.eventId, env.now, Tap).value;
    assert LogConsistent(w.db, s.id);
    RegisterAppends(w.db, s.id, env.eventId, env.now, Tap);
    RegisterKeepsStore(w.db, s.id, env.eventId, env.now, Tap);
    RegisterKeepsCoherent(w.db, s.id, env.eventId, env.now);
    var updated := s.(kickCount := |w.state.kicks| + 1);
    var kicks := w.state.kicks + [kick];
    assert db3.sessions[s.id] == updated;
    MirrorStep(db3, updated, kicks, w.state);
    AddThenSet(World(db3, w.state), kick, updated);
  }

  /** Adding a kick and then replacing the session changes exactly those
      two fields. */
  lemma AddThenSet(w: World, kick: KickEvent, s: Session)
    ensures Dispatch(Dispatch(w, AddKick(kick)), SetSession(Some(s))) ==
            World(w.db, w.state.(session := Some(s), kicks := w.state.kicks + [kick]))
  {
    var added := Reduce(w.state, AddKick(kick));
    assert added == w.state.(kicks := w.state.kicks + [kick]);
  }

  /** Registering a kick only changes a cached count, which no status
      constrains. */
  lemma RegisterKeepsCoherent(db: Db, sid: Id, eventId: Id, now: int)
    requires AllCoherent(db)
    requires RegisterKick(db, sid, eventId, now, Tap).Success?
    ensures AllCoherent(RegisterKick(db, sid, eventId, now, Tap).value.0)
  {
    var db' := RegisterKick(db, sid, eventId, now, Tap).value.0;
    forall k | k in db'.sessions
      ensures Coherent(db'.sessions[k])
    {
      assert Coherent(db.sessions[k]);
    }
  }


  lemma AutoCompleteConsistent(w: World, s: Session, now: int)
    requires Consistent(w) && w.state.session == Some(s)
    ensures Consistent(AutoComplete(w, s, now))
  {
    if s.kickCount >= s.targetCount && CompleteSession(w.db, s.id, now).Success? {
      TransitionStepConsistent(w, s, Finish, now);
    }
  }

  lemma TapActiveConsistent(w: World, s: Session, env: Env)
    requires Consistent(w) && w.state.session == Some(s)
    ensures Consistent(TapActive(w, s, |w.state.kicks|, env))
  {
    if s.status == Active && RegisterKick(w.db, s.id, env.eventId, env.now, Tap).Success? {
      var (db3, kick) := RegisterKick(w.db, s.id, env.eventId, env.now, Tap).value;
      RegisterStepConsistent(w, s, env);
      var updated := s.(kickCount := |w.state.kicks| + 1);
      var w3 := Dispatch(Dispatch(World(db3, w.state), AddKick(kick)), SetSession(Some(updated)));
      AutoCompleteConsistent(w3, updated, env.now);
    }
  }

  lemma TapStartedConsistent(w: World, s: Session, env: Env)
    requires Consistent(w) && w.state.session == Some(s)
    ensures Consistent(TapStarted(w, s, |w.state.kicks|, env))
  {
    if s.status == Idle {
      match StartSession(w.db, s.id, env.now)
      case Failure(_) =>
      case Success((db2, s2)) =>
        TransitionStepConsistent(w, s, Start, env.now);
        TapActiveConsistent(World(db2, Reduce(w.state, SetSession(Some(s2)))), s2, env);
    } else {
      TapActiveConsistent(w, s, env);
    }
  }

  /** tap keeps the in-memory state a mirror of the store. */
  lemma TapConsistent(w: World, env: Env)
    requires Consistent(w)
    ensures Consistent(TapKick(w, env))
  {
    match w.state.session {
      case None =>
        match CreateSession(w.db, env.sessionId, env.now, env.timezone, EmptyPatch) {
          case Failure(_) =>
          case Success((db1, s)) =>
            CreateStepConsistent(w, env);
            TapStartedConsistent(World(db1, Reduce(w.state, SetSession(Some(s)))), s, env);
        }
      case Some(s) =>
        TapStartedConsistent(w, s, env);
    }
  }

  /** undo keeps the in-memory state a mirror of the store. */
  lemma UndoConsistent(w: World)
    requires Consistent(w)
    ensures Consistent(UndoKick(w))
  {
    if w.state.session.Some? && |w.state.kicks| > 0 {
      var s := w.state.session.value;
      var kicks := w.state.kicks;
      var (db', removed) := DeleteLastKick(w.db, s.id);
      assert LogConsistent(w.db, s.id);
      assert |EventsOf(w.db.events, s.id)| > 0 by {
        assert kicks[0] in multiset(EventsOf(w.db.events, s.id));
      }
      DeleteDrops(w.db, s.id);
      DeleteKeepsStore(w.db, s.id);
      DeleteKeepsCoherent(w.db, s.id);
      var updated := s.(kickCount := |kicks| - 1);
      assert db'.sessions[s.id] == updated;
      assert GetKicksForSession(db', s.id) == kicks[..|kicks| - 1];
      MirrorStep(db', updated, kicks[..|kicks| - 1], w.state);
      UndoSteps(w);
    }
  }

  /** What undo writes when it has a kick to remove. */
  lemma UndoSteps(w: World)
    requires w.state.session.Some? && |w.state.kicks| > 0
    ensures var s := w.state.session.value;
      var n := |w.state.kicks|;
      UndoKick(w) == World(DeleteLastKick(w.db, s.id).0,
                           w.state.(session := Some(s.(kickCount := n - 1)), kicks := w.state.kicks[..n - 1]))
  {
    var s := w.state.session.value;
    var n := |w.state.kicks|;
    var db' := DeleteLastKick(w.db, s.id).0;
    var removed := Reduce(w.state, RemoveLastKick);
    assert removed == w.state.(kicks := w.state.kicks[..n - 1]);
    var w1 := Dispatch(World(db', w.state), RemoveLastKick);
    assert w1 == World(db', removed);
    assert UndoKick(w) == Dispatch(w1, SetSession(Some(s.(kickCount := n - 1))));
  }

  /** A state that points at a stored session and its stored kicks mirrors
      a store that keeps its invariants. */
  lemma MirrorStep(db: Db, s: Session, kicks: seq<KickEvent>, state: SessionState)
    requires StoreInvariant(db) && AllCoherent(db)
    requires s.id in db.sessions && db.sessions[s.id] == s
    requires kicks == GetKicksForSession(db, s.id)
    ensures Consistent(World(db, state.(session := Some(s), kicks := kicks)))
  {
  }

  /** Deleting the last kick only changes a cached count, which no status
      constrains. */
  lemma DeleteKeepsCoherent(db: Db, sid: Id)
    requires AllCoherent(db)
    ensures AllCoherent(DeleteLastKick(db, sid).0)
  {
    var db' := DeleteLastKick(db, sid).0;
    forall k | k in db'.sessions
      ensures Coherent(db'.sessions[k])
    {
      assert Coherent(db.sessions[k]);
    }
  }

  lemma RunTransitionConsistent(w: World, t: Transition, guard: bool, message: string, now: int)
    requires Consistent(w)
    ensures Consistent(RunTransition(w, t, guard, message, now))
  {
    if w.state.session.Some? && guard && Fire(w.db, w.state.session.value.id, t, now).Success? {
      TransitionStepConsistent(w, w.state.session.value, t, now);
    }
  }

  /** pause, resume and endEarly keep the in-memory state a mirror of the
      store. */
  lemma PauseResumeEndConsistent(w: World, now: int)
    requires Consistent(w)
    ensures Consistent(PauseCurrent(w, now))
    ensures Consistent(ResumeCurrent(w, now))
    ensures Consistent(EndEarly(w, now))
  {
    RunTransitionConsistent(w, Pause, CurrentStatusIs(w, Active), PauseError, now);
    RunTransitionConsistent(w, Resume, CurrentStatusIs(w, Paused), ResumeError, now);
    RunTransitionConsistent(w, End, CurrentStatusIs(w, Active) || CurrentStatusIs(w, Paused), EndError, now);
  }

  /** The timeout check keeps the in-memory state a mirror of the store. */
  lemma TimeoutTickConsistent(w: World, now: int)
    requires Consistent(w)
    ensures Consistent(TimeoutTick(w, now))
  {
    if w.state.session.Some? && CheckTimeout(w.state.session.value, now) &&
       Fire(w.db, w.state.session.value.id, TimeOut, now).Success? {
      TransitionStepConsistent(w, w.state.session.value, TimeOut, now);
    }
  }

  /** Saving details keeps the in-memory state a mirror of the store. */
  lemma SaveDetailsConsistent(w: World, rating: Option<Rating>, notes: string)
    requires Consistent(w)
    ensures Consistent(SaveSessionDetails(w, rating, notes))
  {
    if w.state.session.Some? {
      var s := w.state.session.value;
      var patch := EmptyPatch.(strengthRating := Some(rating), notes := Some(NoteOrNull(notes)));
      UpdateKeepsStore(w.db, s.id, patch);
      var db' := UpdateSession(w.db, s.id, patch);
      assert AllCoherent(db') by {
        forall k | k in db'.sessions
          ensures Coherent(db'.sessions[k])
        {
          assert Coherent(w.db.sessions[k]);
        }
      }
    }
  }

  /** Starting a new session and resetting keep the in-memory state a
      mirror of the store. */
  lemma StartNewAndResetConsistent(w: World, env: Env)
    requires Consistent(w)
    ensures Consistent(StartNewSession(w, env))
    ensures Consistent(ResetSession(w))
  {
    var w0 := Dispatch(w, SetLoading(true));
    match CreateSession(w0.db, env.sessionId, env.now, env.timezone, EmptyPatch)
    case Failure(_) =>
    case Success((db1, s)) =>
      CreateKeepsStore(w.db, env.sessionId, env.now, env.timezone, EmptyPatch);
      CreateDefaults(w.db, env.sessionId, env.now, env.timezone);
      NoEventsOf(w.db.events, env.sessionId);
      assert GetKicksForSession(db1, s.id) == [];
  }

  // ------------------------------------------------------ tap behaviour

  /** A tap on an active session whose kick is accepted appends exactly one
      kick, numbered one past the kicks shown, and completes the session
      exactly when that reaches the target. */
  lemma TapOnActive(w: World, env: Env)
    requires Consistent(w) && CurrentStatusIs(w, Active)
    requires !EventIdTaken(w.db.events, env.eventId)
    ensures var r := TapKick(w, env);
      var s := w.state.session.value;
      && |r.state.kicks| == |w.state.kicks| + 1
      && r.state.kicks[..|w.state.kicks|] == w.state.kicks
      && r.state.kicks[|w.state.kicks|].ordinal == |w.state.kicks| + 1
      && r.state.session.Some?
      && r.state.session.value.kickCount == |w.state.kicks| + 1
      && (r.state.session.value.status == Complete <==> |w.state.kicks| + 1 >= s.targetCount)
      && (r.state.session.value.status == Active <==> |w.state.kicks| + 1 < s.targetCount)
      && r.state.error == w.state.error
  {
    var s := w.state.session.value;
    RegisterStepConsistent(w, s, env);
    var r := TapKick(w, env);
    assert r == TapActive(w, s, |w.state.kicks|, env);
    assert r.state.kicks[..|w.state.kicks|] == w.state.kicks;
  }

  /** A tap on an idle current session starts it at the tap's time and then
      records the kick as on an active session. */
  lemma TapOnIdle(w: World, env: Env)
    requires Consistent(w) && CurrentStatusIs(w, Idle)
    requires !EventIdTaken(w.db.events, env.eventId)
    ensures var r := TapKick(w, env);
      var s := w.state.session.value;
      && |r.state.kicks| == |w.state.kicks| + 1
      && r.state.kicks[..|w.state.kicks|] == w.state.kicks
      && r.state.kicks[|w.state.kicks|].ordinal == |w.state.kicks| + 1
      && r.state.session.Some?
      && r.state.session.value.startedAt == Some(env.now)
      && r.state.session.value.kickCount == |w.state.kicks| + 1
      && (r.state.session.value.status == Complete <==> |w.state.kicks| + 1 >= s.targetCount)
      && (r.state.session.value.status == Active <==> |w.state.kicks| + 1 < s.targetCount)
      && r.state.error == w.state.error
  {
    var w2 := StartOnTap(w, env);
    TapOnActive(w2, env);
  }

  /** The start a tap on an idle session makes first: a consistent world
      whose current session is active from the tap's time, with the same
      kicks, target and error, where the same tap has the same effect. */
  lemma StartOnTap(w: World, env: Env) returns (w2: World)
    requires Consistent(w) && CurrentStatusIs(w, Idle)
    requires !EventIdTaken(w.db.events, env.eventId)
    ensures Consistent(w2) && CurrentStatusIs(w2, Active)
    ensures !EventIdTaken(w2.db.events, env.eventId)
    ensures w2.state.kicks == w.state.kicks && w2.state.error == w.state.error
    ensures w2.state.session.value.startedAt == Some(env.now)
    ensures w2.state.session.value.targetCount == w.state.session.value.targetCount
    ensures TapKick(w2, env) == TapKick(w, env)
  {
    var s := w.state.session.value;
    var (db2, s2) := StartSession(w.db, s.id, env.now).value;
    TransitionStepConsistent(w, s, Start, env.now);
    w2 := World(db2, Reduce(w.state, SetSession(Some(s2))));
    assert TapKick(w, env) == TapActive(w2, s2, |w.state.kicks|, env);
  }

  /** A tick that finds the current session over its time limit times it
      out at the tick's time, in the store and in memory alike. */
  lemma TimeoutTickFires(w: World, now: int)
    requires Consistent(w) && w.state.session.Some?
    requires CheckTimeout(w.state.session.value, now)
    ensures var r := TimeoutTick(w, now);
      var s := w.state.session.value;
      && r.state.session.Some? && r.state.session.value.id == s.id
      && r.state.session.value.status == Timeout
      && r.state.session.value.endedAt == Some(now)
      && r.state.session.value.durationMs == Some(ElapsedMs(s, now))
      && r.db.sessions[s.id] == r.state.session.value
  {
    var s := w.state.session.value;
    assert s.status == Active && s.id in w.db.sessions;
    var (db', s') := TimeoutSession(w.db, s.id, now).value;
    assert TimeoutTick(w, now) == Dispatch(World(db', w.state), SetSession(Some(s')));
  }

  /** A tap on a paused or finished session changes nothing. */
  lemma TapIgnoredUnlessRunning(w: World, env: Env)
    requires w.state.session.Some?
    requires w.state.session.value.status != Idle && w.state.session.value.status != Active
    ensures TapKick(w, env) == w
  {
  }

  /** A first tap with no current session creates a session, starts it and
      records kick number one. */
  lemma FirstTapStarts(w: World, env: Env)
    requires Consistent(w) && w.state.session.None?
    requires env.sessionId !in w.db.sessions
    requires !EventIdTaken(w.db.events, env.eventId)
    ensures var r := TapKick(w, env);
      && r.state.session.Some? && r.state.session.value.id == env.sessionId
      && r.state.session.value.startedAt == Some(env.now)
      && |r.state.kicks| == 1 && r.state.kicks[0].ordinal == 1
      && r.state.kicks[0].occurredAt == env.now
      && r.state.session.value.status == (if 1 >= DefaultTargetCount then Complete else Active)
  {
    var (db1, s) := CreateSession(w.db, env.sessionId, env.now, env.timezone, EmptyPatch).value;
    CreateStepConsistent(w, env);
    CreateDefaults(w.db, env.sessionId, env.now, env.timezone);
    var w1 := World(db1, Reduce(w.state, SetSession(Some(s))));
    var (db2, s2) := StartSession(db1, s.id, env.now).value;
    TransitionStepConsistent(w1, s, Start, env.now);
    var w2 := World(db2, Reduce(w1.state, SetSession(Some(s2))));
    assert !EventIdTaken(db2.events, env.eventId);
    RegisterStepConsistent(w2, s2, env);
  }

  /** What tap writes on an active session when the kick is accepted and
      the target is not reached. */
  lemma TapBelowTarget(w: World, env: Env)
    requires CurrentStatusIs(w, Active)
    requires RegisterKick(w.db, w.state.session.value.id, env.eventId, env.now, Tap).Success?
    requires |w.state.kicks| + 1 < w.state.session.value.targetCount
    ensures var s := w.state.session.value;
      var (db3, kick) := RegisterKick(w.db, s.id, env.eventId, env.now, Tap).value;
      TapKick(w, env) ==
        World(db3, w.state.(kicks := w.state.kicks + [kick],
                            session := Some(s.(kickCount := |w.state.kicks| + 1))))
  {
  }

  /** Undo right after a tap that did not complete the session restores the
      store and the in-memory state exactly. */
  lemma TapThenUndo(w: World, env: Env)
    requires Consistent(w) && CurrentStatusIs(w, Active)
    requires !EventIdTaken(w.db.events, env.eventId)
    requires |w.state.kicks| + 1 < w.state.session.value.targetCount
    ensures UndoKick(TapKick(w, env)) == w
  {
    var s := w.state.session.value;
    var n := |w.state.kicks|;
    var (db3, kick) := RegisterKick(w.db, s.id, env.eventId, env.now, Tap).value;
    TapBelowTarget(w, env);
    assert LogConsistent(w.db, s.id);
    RegisterThenDelete(w.db, s.id, env.eventId, env.now, Tap);
    UndoRestores(w, db3, kick);
  }

  /** Undo of a state one kick ahead of `w`, whose store loses exactly that
      kick on undo, gives back `w`. */
  lemma UndoRestores(w: World, db3: Db, kick: KickEvent)
    requires w.state.session.Some?
    requires w.state.session.value.kickCount == |w.state.kicks|
    requires DeleteLastKick(db3, w.state.session.value.id).0 == w.db
    ensures var s := w.state.session.value;
      UndoKick(World(db3, w.state.(kicks := w.state.kicks + [kick],
                                   session := Some(s.(kickCount := |w.state.kicks| + 1))))) == w
  {
    var s := w.state.session.value;
    var n := |w.state.kicks|;
    var t := World(db3, w.state.(kicks := w.state.kicks + [kick], session := Some(s.(kickCount := n + 1))));
    UndoSteps(t);
    assert (w.state.kicks + [kick])[..n] == w.state.kicks;
    assert s.(kickCount := n + 1).(kickCount := n) == s;
  }


  /** On a consistent state a guarded transition the stored status allows
      never fails: the in-memory session is the stored one, and a paused
      session always has its pause time. */
  lemma RunTransitionSucceeds(w: World, t: Transition, guard: bool, message: string, now: int)
    requires Consistent(w) && w.state.session.Some? && guard
    requires Allowed(t, w.state.session.value.status)
    ensures CurrentStatusIs(RunTransition(w, t, guard, message, now), Target(t))
    ensures RunTransition(w, t, guard, message, now).state.error == w.state.error
  {
    var s := w.state.session.value;
    assert Coherent(w.db.sessions[s.id]);
    assert Fire(w.db, s.id, t, now).Success?;
  }

  /** The pause, resume and end handlers never fail on a consistent state,
      and leave the session in the status each stands for. */
  lemma HandlersSucceed(w: World, now: int)
    requires Consistent(w)
    ensures CurrentStatusIs(w, Active) ==>
      CurrentStatusIs(PauseCurrent(w, now), Paused) && PauseCurrent(w, now).state.error == w.state.error
    ensures CurrentStatusIs(w, Paused) ==>
      CurrentStatusIs(ResumeCurrent(w, now), Active) && ResumeCurrent(w, now).state.error == w.state.error
    ensures CurrentStatusIs(w, Active) || CurrentStatusIs(w, Paused) ==>
      CurrentStatusIs(EndEarly(w, now), EndedEarly) && EndEarly(w, now).state.error == w.state.error
  {
    if CurrentStatusIs(w, Active) {
      RunTransitionSucceeds(w, Pause, true, PauseError, now);
      RunTransitionSucceeds(w, End, true, EndError, now);
    }
    if CurrentStatusIs(w, Paused) {
      RunTransitionSucceeds(w, Resume, true, ResumeError, now);
      RunTransitionSucceeds(w, End, true, EndError, now);
    }
  }
}
