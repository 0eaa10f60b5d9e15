/** The session store: the sessions table as a map from id to record, the
    events table as a sequence in storage order, and the create, read,
    partial-update, query and cascading-delete operations over them. Each of
    the application's database transactions is one function from store to
    store. */
module SessionStore {
  import opened Types
  import opened Sequences

  datatype Db = Db(sessions: map<Id, Session>, events: seq<KickEvent>)

  /** The guarantees of the store's primary keys: a session is filed under
      its own id and no two events share an id. */
  predicate Valid(db: Db) {
    && (forall k :: k in db.sessions ==> db.sessions[k].id == k)
    && (forall i, j :: 0 <= i < j < |db.events| ==> db.events[i].id != db.events[j].id)
  }

  /** The events of one session, in storage order. */
  function EventsOf(events: seq<KickEvent>, sid: Id): (r: seq<KickEvent>)
    ensures forall i :: 0 <= i < |r| ==> r[i].sessionId == sid && r[i] in events
  {
    Filter(events, (e: KickEvent) => e.sessionId == sid)
  }

  /** Every event of the session is among its events. */
  lemma EventsOfKeeps(events: seq<KickEvent>, sid: Id)
    ensures forall i :: 0 <= i < |events| && events[i].sessionId == sid ==>
              events[i] in EventsOf(events, sid)
  {
    FilterKeeps(events, (e: KickEvent) => e.sessionId == sid);
  }

  /** A partial session record: each field either absent or carrying the
      value to write. Nullable fields carry `Some(None)` to write null. The id
      is the primary key and is never part of an update. */
  datatype SessionPatch = SessionPatch(
    createdAt: Option<int>,
    startedAt: Option<Option<int>>,
    endedAt: Option<Option<int>>,
    status: Option<Status>,
    targetCount: Option<int>,
    timeLimitSec: Option<int>,
    kickCount: Option<int>,
    durationMs: Option<Option<int>>,
    strengthRating: Option<Option<Rating>>,
    notes: Option<Option<string>>,
    timezone: Option<string>,
    schemaVersion: Option<int>,
    pausedDurationMs: Option<int>,
    pausedAt: Option<Option<int>>)

  const EmptyPatch: SessionPatch :=
    SessionPatch(None, None, None, None, None, None, None, None, None, None, None, None, None, None)

  /** Every field the patch supplies has the supplied value in `r`. */
  predicate Holds(p: SessionPatch, r: Session) {
    && (p.createdAt.Some? ==> r.createdAt == p.createdAt.value)
    && (p.startedAt.Some? ==> r.startedAt == p.startedAt.value)
    && (p.endedAt.Some? ==> r.endedAt == p.endedAt.value)
    && (p.status.Some? ==> r.status == p.status.value)
    && (p.targetCount.Some? ==> r.targetCount == p.targetCount.value)
    && (p.timeLimitSec.Some? ==> r.timeLimitSec == p.timeLimitSec.value)
    && (p.kickCount.Some? ==> r.kickCount == p.kickCount.value)
    && (p.durationMs.Some? ==> r.durationMs == p.durationMs.value)
    && (p.strengthRating.Some? ==> r.strengthRating == p.strengthRating.value)
    && (p.notes.Some? ==> r.notes == p.notes.value)
    && (p.timezone.Some? ==> r.timezone == p.timezone.value)
    && (p.schemaVersion.Some? ==> r.schemaVersion == p.schemaVersion.value)
    && (p.pausedDurationMs.Some? ==> r.pausedDurationMs == p.pausedDurationMs.value)
    && (p.pausedAt.Some? ==> r.pausedAt == p.pausedAt.value)
  }

  /** Every field the patch does not supply is the same in `s` and `r`. */
  predicate Untouched(p: SessionPatch, s: Session, r: Session) {
    && s.id == r.id
    && (p.createdAt.None? ==> r.createdAt == s.createdAt)
    && (p.startedAt.None? ==> r.startedAt == s.startedAt)
    && (p.endedAt.None? ==> r.endedAt == s.endedAt)
    && (p.status.None? ==> r.status == s.status)
    && (p.targetCount.None? ==> r.targetCount == s.targetCount)
    && (p.timeLimitSec.None? ==> r.timeLimitSec == s.timeLimitSec)
    && (p.kickCount.None? ==> r.kickCount == s.kickCount)
    && (p.durationMs.None? ==> r.durationMs == s.durationMs)
    && (p.strengthRating.None? ==> r.strengthRating == s.strengthRating)
    && (p.notes.None? ==> r.notes == s.notes)
    && (p.timezone.None? ==> r.timezone == s.timezone)
    && (p.schemaVersion.None? ==> r.schemaVersion == s.schemaVersion)
    && (p.pausedDurationMs.None? ==> r.pausedDurationMs == s.pausedDurationMs)
    && (p.pausedAt.None? ==> r.pausedAt == s.pausedAt)
  }

  /** Object spread `{ ...s, ...p }`: supplied fields win, the rest stay. */
  function ApplyPatch(s: Session, p: SessionPatch): (r: Session)
    ensures Holds(p, r) && Untouched(p, s, r)
  {
    Session(
      s.id,
      p.createdAt.GetOr(s.createdAt),
      p.startedAt.GetOr(s.startedAt),
      p.endedAt.GetOr(s.endedAt),
      p.status.GetOr(s.status),
      p.targetCount.GetOr(s.targetCount),
      p.timeLimitSec.GetOr(s.timeLimitSec),
      p.kickCount.GetOr(s.kickCount),
      p.durationMs.GetOr(s.durationMs),
      p.strengthRating.GetOr(s.strengthRating),
      p.notes.GetOr(s.notes),
      p.timezone.GetOr(s.timezone),
      p.schemaVersion.GetOr(s.schemaVersion),
      p.pausedDurationMs.GetOr(s.pausedDurationMs),
      p.pausedAt.GetOr(s.pausedAt))
  }

  /** Holds and Untouched pin the merged record down completely. */
  lemma MergeDetermined(s: Session, p: SessionPatch, r: Session)
    requires Holds(p, r) && Untouched(p, s, r)
    ensures r == ApplyPatch(s, p)
  {
  }

  /** The fields in which `t` differs from `s`, as a patch. */
  function Diff(s: Session, t: Session): SessionPatch {
    SessionPatch(
      if s.createdAt == t.createdAt then None else Some(t.createdAt),
      if s.startedAt == t.startedAt then None else Some(t.startedAt),
      if s.endedAt == t.endedAt then None else Some(t.endedAt),
      if s.status == t.status then None else Some(t.status),
      if s.targetCount == t.targetCount then None else Some(t.targetCount),
      if s.timeLimitSec == t.timeLimitSec then None else Some(t.timeLimitSec),
      if s.kickCount == t.kickCount then None else Some(t.kickCount),
      if s.durationMs == t.durationMs then None else Some(t.durationMs),
      if s.strengthRating == t.strengthRating then None else Some(t.strengthRating),
      if s.notes == t.notes then None else Some(t.notes),
      if s.timezone == t.timezone then None else Some(t.timezone),
      if s.schemaVersion == t.schemaVersion then None else Some(t.schemaVersion),
      if s.pausedDurationMs == t.pausedDurationMs then None else Some(t.pausedDurationMs),
      if s.pausedAt == t.pausedAt then None else Some(t.pausedAt))
  }

  /** Any record with the same id is reached from `s` by the patch of its
      differences: a partial update can express every change. */
  lemma DiffRoundTrip(s: Session, t: Session)
    requires s.id == t.id
    ensures ApplyPatch(s, Diff(s, t)) == t
  {
  }

  /** Applying the same patch twice is applying it once. */
  lemma PatchIdempotent(s: Session, p: SessionPatch)
    ensures ApplyPatch(ApplyPatch(s, p), p) == ApplyPatch(s, p)
  {
  }

  /** The record `createSession` builds before applying overrides. */
  function NewSession(id: Id, now: int, timezone: string): Session {
    Session(
      id, now, None, None, Idle, DefaultTargetCount, DefaultTimeLimitSec, 0, None, None, None,
      timezone, SchemaVersion, 0, None)
  }

  /** createSession: builds the default record under the fresh id `id`
      (the uuid), lets `overrides` win over the defaults and adds it. The
      store refuses an id it already holds. */
  function CreateSession(db: Db, id: Id, now: int, timezone: string, overrides: SessionPatch)
    : (r: Result<(Db, Session)>)
    ensures r.Failure? <==> id in db.sessions
    ensures r.Failure? ==> r.error == ConstraintError(id)
    ensures r.Success? ==>
      var (db', s) := r.value;
      && s.id == id
      && db'.sessions.Keys == db.sessions.Keys + {id}
      && db'.sessions[id] == s
      && (forall k :: k in db.sessions ==> db'.sessions[k] == db.sessions[k])
      && db'.events == db.events
      && Holds(overrides, s)
      && Untouched(overrides, NewSession(id, now, timezone), s)
  {
    if id in db.sessions then Failure(ConstraintError(id))
    else
      var s := ApplyPatch(NewSession(id, now, timezone), overrides);
      Success((db.(sessions := db.sessions[id := s]), s))
  }

  /** Without overrides a new session is idle, unstarted, empty and carries
      the default target, limit and schema version. */
  lemma CreateDefaults(db: Db, id: Id, now: int, timezone: string)
    requires id !in db.sessions
    ensures var s := CreateSession(db, id, now, timezone, EmptyPatch).value.1;
      && s.status == Idle && s.targetCount == 10 && s.timeLimitSec == 7200
      && s.kickCount == 0 && s.startedAt == None && s.endedAt == None && s.pausedAt == None
      && s.pausedDurationMs == 0 && s.durationMs == None && s.schemaVersion == 1
      && s.createdAt == now && s.timezone == timezone
      && s.strengthRating == None && s.notes == None
  {
  }

  /** Creating keeps the store's keys consistent. */
  lemma CreatePreservesValid(db: Db, id: Id, now: int, timezone: string, overrides: SessionPatch)
    requires Valid(db)
    ensures var r := CreateSession(db, id, now, timezone, overrides);
      r.Success? ==> Valid(r.value.0)
  {
  }

  /** getSession: the record under `id`, or none. */
  function GetSession(db: Db, id: Id): (r: Option<Session>)
    ensures r.None? <==> id !in db.sessions
    ensures r.Some? ==> r.value == db.sessions[id]
  {
    if id in db.sessions then Some(db.sessions[id]) else None
  }

  /** updateSession: merges `p` into the record under `id`; the store's
      update of a missing key changes nothing and raises nothing. */
  function UpdateSession(db: Db, id: Id, p: SessionPatch): (r: Db)
    ensures r.events == db.events
    ensures r.sessions.Keys == db.sessions.Keys
    ensures forall k :: k in db.sessions && k != id ==> r.sessions[k] == db.sessions[k]
    ensures id in db.sessions ==>
      Holds(p, r.sessions[id]) && Untouched(p, db.sessions[id], r.sessions[id])
  {
    if id in db.sessions then db.(sessions := db.sessions[id := ApplyPatch(db.sessions[id], p)])
    else db
  }

  /** Updating never moves a record away from its key. */
  lemma UpdatePreservesValid(db: Db, id: Id, p: SessionPatch)
    requires Valid(db)
    ensures Valid(UpdateSession(db, id, p))
  {
  }

  /** Every session of the table, each once, in no particular order. */
  method ListSessions(db: Db) returns (r: seq<Session>)
    ensures |r| == |db.sessions|
    ensures forall i :: 0 <= i < |r| ==> r[i] in db.sessions.Values
    ensures forall k :: k in db.sessions ==> db.sessions[k] in r
    ensures Valid(db) ==> forall i, j :: 0 <= i < j < |r| ==> r[i].id != r[j].id
  {
    var ids := KeyList(db.sessions.Keys);
    r := seq(|ids|, i requires 0 <= i < |ids| => db.sessions[ids[i]]);
    forall k | k in db.sessions
      ensures db.sessions[k] in r
    {
      var i :| 0 <= i < |ids| && ids[i] == k;
      assert r[i] == db.sessions[k];
    }
  }

  /** The keys of a set, each once, in the order the set yields them. */
  method KeyList(keys: set<Id>) returns (ids: seq<Id>)
    ensures |ids| == |keys|
    ensures forall i :: 0 <= i < |ids| ==> ids[i] in keys
    ensures forall k :: k in keys ==> k in ids
    ensures forall i, j :: 0 <= i < j < |ids| ==> ids[i] != ids[j]
  {
    var rest := keys;
    ids := [];
    while rest != {}
      invariant rest <= keys
      invariant forall i :: 0 <= i < |ids| ==> ids[i] in keys && ids[i] !in rest
      invariant forall k :: k in keys ==> k in rest || k in ids
      invariant forall i, j :: 0 <= i < j < |ids| ==> ids[i] != ids[j]
      invariant |ids| + |rest| == |keys|
      decreases rest
    {
      var k :| k in rest;
      ids := ids + [k];
      rest := rest - {k};
    }
  }

  function CreatedAt(s: Session): int { s.createdAt }
  function NewestFirst(s: Session): int { -s.createdAt }

  /** getAllSessions: every session once, newest creation time first. */
  method GetAllSessions(db: Db) returns (r: seq<Session>)
    ensures |r| == |db.sessions|
    ensures forall i :: 0 <= i < |r| ==> r[i] in db.sessions.Values
    ensures forall k :: k in db.sessions ==> db.sessions[k] in r
    ensures forall i, j :: 0 <= i < j < |r| ==> r[i].createdAt >= r[j].createdAt
  {
    var all := ListSessions(db);
    r := SortBy(all, NewestFirst);
    SortByMembers(all, NewestFirst);
    forall k | k in db.sessions
      ensures db.sessions[k] in r
    {
      var i :| 0 <= i < |all| && all[i] == db.sessions[k];
    }
    assert forall i, j :: 0 <= i < j < |r| ==> NewestFirst(r[i]) <= NewestFirst(r[j]);
  }

  /** The sessions of `s` created between `lo` and `hi` inclusive, oldest
      first. */
  function CreatedWithin(s: seq<Session>, lo: int, hi: int): (r: seq<Session>)
    ensures forall i :: 0 <= i < |r| ==> r[i] in s && lo <= r[i].createdAt <= hi
    ensures forall i :: 0 <= i < |s| && lo <= s[i].createdAt <= hi ==> s[i] in r
    ensures forall i, j :: 0 <= i < j < |r| ==> r[i].createdAt <= r[j].createdAt
  {
    var inDay := Filter(s, (x: Session) => lo <= x.createdAt <= hi);
    FilterKeeps(s, (x: Session) => lo <= x.createdAt <= hi);
    var r := SortBy(inDay, CreatedAt);
    SortByMembers(inDay, CreatedAt);
    assert forall i, j :: 0 <= i < j < |r| ==> CreatedAt(r[i]) <= CreatedAt(r[j]);
    r
  }

  /** getSessionsByDate: the sessions created within the day, both bounds
      inclusive, oldest first. The day's first and last instants are
      parameters: the time-zone arithmetic is not modelled. */
  method GetSessionsByDate(db: Db, dayStart: int, dayEnd: int) returns (r: seq<Session>)
    ensures forall i :: 0 <= i < |r| ==>
      r[i] in db.sessions.Values && dayStart <= r[i].createdAt <= dayEnd
    ensures forall k :: k in db.sessions && dayStart <= db.sessions[k].createdAt <= dayEnd ==>
      db.sessions[k] in r
    ensures forall i, j :: 0 <= i < j < |r| ==> r[i].createdAt <= r[j].createdAt
  {
    var all := ListSessions(db);
    r := CreatedWithin(all, dayStart, dayEnd);
    forall i | 0 <= i < |r|
      ensures r[i] in db.sessions.Values
    {
      var k :| 0 <= k < |all| && all[k] == r[i];
    }
    forall k | k in db.sessions && dayStart <= db.sessions[k].createdAt <= dayEnd
      ensures db.sessions[k] in r
    {
      var i :| 0 <= i < |all| && all[i] == db.sessions[k];
    }
  }

  /** The session is the current one: active or paused. */
  predicate IsCurrent(s: Session) {
    s.status == Active || s.status == Paused
  }

  /** getActiveSession: a session that is active or paused when there is
      one. The store lists the status index in order, so an active session
      comes before any paused one. */
  method GetActiveSession(db: Db) returns (r: Option<Session>)
    ensures r.None? <==> forall k :: k in db.sessions ==> !IsCurrent(db.sessions[k])
    ensures r.Some? ==> r.value in db.sessions.Values && IsCurrent(r.value)
    ensures r.Some? && r.value.status == Paused ==>
      forall k :: k in db.sessions ==> db.sessions[k].status != Active
  {
    if k :| k in db.sessions && db.sessions[k].status == Active {
      r := Some(db.sessions[k]);
    } else if k :| k in db.sessions && db.sessions[k].status == Paused {
      r := Some(db.sessions[k]);
    } else {
      r := None;
    }
  }

  /** deleteSession: removes the session and, in the same transaction,
      every event that belongs to it. */
  function DeleteSession(db: Db, id: Id): (r: Db)
    ensures r.sessions == db.sessions - {id}
    ensures EventsOf(r.events, id) == []
    ensures forall other :: other != id ==> EventsOf(r.events, other) == EventsOf(db.events, other)
    ensures multiset(r.events) + multiset(EventsOf(db.events, id)) == multiset(db.events)
  {
    var keep := (e: KickEvent) => e.sessionId != id;
    var r := Db(db.sessions - {id}, Filter(db.events, keep));
    forall other | other != id
      ensures EventsOf(r.events, other) == EventsOf(db.events, other)
    {
      FilterFilter(db.events, keep, (e: KickEvent) => e.sessionId == other);
    }
    FilterPartition(db.events, keep, (e: KickEvent) => e.sessionId == id);
    FilterNone(r.events, (e: KickEvent) => e.sessionId == id);
    r
  }

  /** Every event left after deleting a session was stored before and
      belongs to another session. */
  lemma DeleteSessionLeaves(db: Db, id: Id)
    ensures var r := DeleteSession(db, id);
      forall i :: 0 <= i < |r.events| ==> r.events[i] in db.events && r.events[i].sessionId != id
  {
    var keep := (e: KickEvent) => e.sessionId != id;
    assert DeleteSession(db, id).events == Filter(db.events, keep);
  }
}
