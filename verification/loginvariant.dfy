/** The invariant that ties the event log to the cached count: when only
    `registerKick` and `deleteLastKick` touch a session's events, its kicks in
    ordinal order carry the ordinals 1..n exactly, and the session's
    `kickCount` equals n, the number `getKickCount` reports. */
module LogInvariant {
  import opened Types
  import opened Sequences
  import opened SessionStore
  import opened KickLog

  /** The session's kicks, in ordinal order, are numbered 1, 2, ..., n. */
  predicate Gapless(db: Db, sid: Id) {
    var kicks := GetKicksForSession(db, sid);
    forall i :: 0 <= i < |kicks| ==> kicks[i].ordinal == i + 1
  }

  /** The session's cached `kickCount` is the number of its events. */
  predicate CountCached(db: Db, sid: Id) {
    sid in db.sessions ==> db.sessions[sid].kickCount == GetKickCount(db, sid)
  }

  predicate LogConsistent(db: Db, sid: Id) {
    Gapless(db, sid) && CountCached(db, sid)
  }

  /** Every event belongs to a stored session. */
  predicate NoOrphans(db: Db) {
    forall i :: 0 <= i < |db.events| ==> db.events[i].sessionId in db.sessions
  }

  /** The whole store: keys consistent, no orphaned events, and every
      session's log numbered 1..n with the count cached. */
  predicate StoreInvariant(db: Db) {
    && Valid(db)
    && NoOrphans(db)
    && forall sid {:trigger LogConsistent(db, sid)} :: sid in db.sessions ==> LogConsistent(db, sid)
  }

  /** Appending one event extends the events of its own session only. */
  lemma EventsOfAppend(events: seq<KickEvent>, e: KickEvent, sid: Id)
    ensures EventsOf(events + [e], sid) ==
            EventsOf(events, sid) + (if e.sessionId == sid then [e] else [])
  {
    FilterAppend(events, [e], (x: KickEvent) => x.sessionId == sid);
    assert [e][1..] == [];
  }

  /** A session none of whose events are stored has no events. */
  lemma {:induction false} NoEventsOf(events: seq<KickEvent>, sid: Id)
    requires forall i :: 0 <= i < |events| ==> events[i].sessionId != sid
    ensures EventsOf(events, sid) == []
    decreases |events|
  {
    if |events| > 0 {
      NoEventsOf(events[1..], sid);
    }
  }

  /** Under the numbering, the highest ordinal is the number of kicks. */
  lemma MaxOfGapless(db: Db, sid: Id)
    requires Gapless(db, sid)
    ensures MaxOrdinal(EventsOf(db.events, sid)) == GetKickCount(db, sid)
  {
    var own := EventsOf(db.events, sid);
    var kicks := GetKicksForSession(db, sid);
    var n := |kicks|;
    var m := MaxOrdinal(own);
    forall i | 0 <= i < |own|
      ensures own[i].ordinal <= n
    {
      assert own[i] in multiset(kicks);
      var j :| 0 <= j < |kicks| && kicks[j] == own[i];
    }
    if n > 0 {
      assert kicks[n - 1] in multiset(own);
      var j :| 0 <= j < |own| && own[j] == kicks[n - 1];
    }
  }

  /** Numbered 1..n means strictly increasing. */
  lemma GaplessStrict(db: Db, sid: Id)
    requires Gapless(db, sid)
    ensures StrictlySortedBy(GetKicksForSession(db, sid), Ordinal)
  {
  }

  /** No two events share an id. */
  predicate DistinctIds(events: seq<KickEvent>) {
    forall i, j :: 0 <= i < j < |events| ==> events[i].id != events[j].id
  }

  lemma DistinctCons(x: KickEvent, t: seq<KickEvent>)
    ensures DistinctIds([x] + t) <==>
            DistinctIds(t) && forall k :: 0 <= k < |t| ==> t[k].id != x.id
  {
    var s := [x] + t;
    assert forall k :: 0 <= k < |t| ==> s[k + 1] == t[k];
    if DistinctIds(t) && forall k :: 0 <= k < |t| ==> t[k].id != x.id {
      forall i, j | 0 <= i < j < |s|
        ensures s[i].id != s[j].id
      {
        assert s[j] == t[j - 1];
        if i > 0 {
          assert s[i] == t[i - 1];
        }
      }
    }
    if DistinctIds(s) {
      forall i, j | 0 <= i < j < |t|
        ensures t[i].id != t[j].id
      {
        assert s[i + 1] == t[i] && s[j + 1] == t[j];
      }
      forall k | 0 <= k < |t|
        ensures t[k].id != x.id
      {
        assert s[0] == x && s[k + 1] == t[k];
      }
    }
  }

  /** Dropping events keeps the remaining ids distinct. */
  lemma {:induction false} FilterDistinct(events: seq<KickEvent>, p: KickEvent -> bool)
    requires DistinctIds(events)
    ensures DistinctIds(Filter(events, p))
    decreases |events|
  {
    if |events| > 0 {
      var h, t := events[0], events[1..];
      assert events == [h] + t;
      DistinctCons(h, t);
      FilterDistinct(t, p);
      var rest := Filter(t, p);
      if p(h) {
        assert Filter(events, p) == [h] + rest;
        forall k | 0 <= k < |rest|
          ensures rest[k].id != h.id
        {
          var m :| 0 <= m < |t| && t[m] == rest[k];
        }
        DistinctCons(h, rest);
      } else {
        assert Filter(events, p) == rest;
      }
    }
  }

  /** The new kick's ordinal is the session's count plus one, and it lands
      last in the session's ordered kicks. */
  lemma RegisterAppends(db: Db, sid: Id, eventId: Id, now: int, source: KickSource)
    requires Gapless(db, sid)
    requires RegisterKick(db, sid, eventId, now, source).Success?
    ensures var (db', e) := RegisterKick(db, sid, eventId, now, source).value;
      && e.ordinal == GetKickCount(db, sid) + 1
      && GetKicksForSession(db', sid) == GetKicksForSession(db, sid) + [e]
  {
    var (db', e) := RegisterKick(db, sid, eventId, now, source).value;
    MaxOfGapless(db, sid);
    var own := EventsOf(db.events, sid);
    EventsOfAppend(db.events, e, sid);
    AppendMax(own, e);
  }

  lemma AppendMax(own: seq<KickEvent>, e: KickEvent)
    requires forall i :: 0 <= i < |own| ==> own[i].ordinal < e.ordinal
    ensures SortBy(own + [e], Ordinal) == SortBy(own, Ordinal) + [e]
  {
    forall y | y in own
      ensures Ordinal(y) <= Ordinal(e)
    {
      var i :| 0 <= i < |own| && own[i] == y;
    }
    SortAppendMax(own, e, Ordinal);
  }

  /** Registering a kick changes no other session's kicks. */
  lemma RegisterOthers(db: Db, sid: Id, eventId: Id, now: int, source: KickSource, other: Id)
    requires RegisterKick(db, sid, eventId, now, source).Success?
    requires other != sid
    ensures GetKicksForSession(RegisterKick(db, sid, eventId, now, source).value.0, other) ==
            GetKicksForSession(db, other)
  {
    var r := RegisterKick(db, sid, eventId, now, source).value;
    var e := r.1;
    assert r.0.events == db.events + [e];
    EventsOfAppend(db.events, e, other);
    assert EventsOf(r.0.events, other) == EventsOf(db.events, other);
  }

  /** A registered kick keeps the store's keys valid. */
  lemma RegisterValid(db: Db, sid: Id, eventId: Id, now: int, source: KickSource)
    requires Valid(db)
    requires RegisterKick(db, sid, eventId, now, source).Success?
    ensures Valid(RegisterKick(db, sid, eventId, now, source).value.0)
  {
    var (db', e) := RegisterKick(db, sid, eventId, now, source).value;
    assert forall i :: 0 <= i < |db.events| ==> db.events[i].id != e.id;
    forall i, j | 0 <= i < j < |db'.events|
      ensures db'.events[i].id != db'.events[j].id
    {
      assert db'.events[i] == db.events[i];
      if j < |db.events| {
        assert db'.events[j] == db.events[j];
      }
    }
  }

  /** Registering a kick keeps the numbering and the cached count. */
  lemma RegisterPreserves(db: Db, sid: Id, eventId: Id, now: int, source: KickSource)
    requires Valid(db) && LogConsistent(db, sid)
    requires RegisterKick(db, sid, eventId, now, source).Success?
    ensures var db' := RegisterKick(db, sid, eventId, now, source).value.0;
      Valid(db') && LogConsistent(db', sid)
  {
    var (db', e) := RegisterKick(db, sid, eventId, now, source).value;
    RegisterAppends(db, sid, eventId, now, source);
    RegisterValid(db, sid, eventId, now, source);
    var kicks := GetKicksForSession(db, sid);
    var kicks' := GetKicksForSession(db', sid);
    forall i | 0 <= i < |kicks'|
      ensures kicks'[i].ordinal == i + 1
    {
      if i < |kicks| {
        assert kicks'[i] == kicks[i];
      }
    }
  }

  /** Removing the event with a unique id takes exactly that event out of
      its own session and leaves every other session's events as they were. */
  lemma RemoveIdExact(events: seq<KickEvent>, x: KickEvent)
    requires DistinctIds(events)
    requires x in events
    ensures multiset(EventsOf(RemoveId(events, x.id), x.sessionId)) ==
            multiset(EventsOf(events, x.sessionId))[x := 0]
    ensures forall other :: other != x.sessionId ==>
              EventsOf(RemoveId(events, x.id), other) == EventsOf(events, other)
  {
    var sid := x.sessionId;
    var notId := (e: KickEvent) => e.id != x.id;
    var isSid := (e: KickEvent) => e.sessionId == sid;
    var k :| 0 <= k < |events| && events[k] == x;
    assert forall i :: 0 <= i < |events| ==> (notId(events[i]) <==> events[i] != x) by {
      forall i | 0 <= i < |events|
        ensures notId(events[i]) <==> events[i] != x
      {
        if i < k {
          assert events[i].id != events[k].id;
        } else if k < i {
          assert events[k].id != events[i].id;
        }
      }
    }
    FilterCommute(events, notId, isSid);
    var own := EventsOf(events, sid);
    forall i | 0 <= i < |own|
      ensures notId(own[i]) <==> own[i] != x
    {
      var m :| 0 <= m < |events| && events[m] == own[i];
    }
    FilterDropsAll(own, x, notId);
    forall other | other != sid
      ensures EventsOf(RemoveId(events, x.id), other) == EventsOf(events, other)
    {
      FilterFilter(events, notId, (e: KickEvent) => e.sessionId == other);
    }
  }

  /** Undo takes the kick with ordinal n away and leaves kicks 1..n-1 in
      order. */
  lemma DeleteDrops(db: Db, sid: Id)
    requires Valid(db) && Gapless(db, sid)
    ensures var (db', removed) := DeleteLastKick(db, sid);
      var kicks := GetKicksForSession(db, sid);
      removed.Some? ==>
        && removed.value.ordinal == |kicks|
        && GetKicksForSession(db', sid) == kicks[..|kicks| - 1]
  {
    var (db', removed) := DeleteLastKick(db, sid);
    var kicks := GetKicksForSession(db, sid);
    if removed.Some? {
      DeleteRemainder(db, sid);
    }
  }

  lemma DeleteRemainder(db: Db, sid: Id)
    requires Valid(db) && Gapless(db, sid) && |GetKicksForSession(db, sid)| > 0
    ensures var kicks := GetKicksForSession(db, sid);
      GetKicksForSession(DeleteLastKick(db, sid).0, sid) == kicks[..|kicks| - 1]
  {
    var kicks := GetKicksForSession(db, sid);
    var after := GetKicksForSession(DeleteLastKick(db, sid).0, sid);
    DeleteMultiset(db, sid);
    assert SortedBy(after, Ordinal);
    SortedRemainder(kicks, after);
  }

  /** A sorted sequence holding the kicks numbered 1..n without the last
      one is the kicks numbered 1..n-1. */
  lemma SortedRemainder(kicks: seq<KickEvent>, after: seq<KickEvent>)
    requires |kicks| > 0
    requires forall i :: 0 <= i < |kicks| ==> kicks[i].ordinal == i + 1
    requires multiset(after) == multiset(kicks)[kicks[|kicks| - 1] := 0]
    requires SortedBy(after, Ordinal)
    ensures after == kicks[..|kicks| - 1]
  {
    LastOut(kicks);
    StrictlySortedUnique(kicks[..|kicks| - 1], after, Ordinal);
  }

  /** Undo removes exactly one copy of the session's last kick. */
  lemma DeleteMultiset(db: Db, sid: Id)
    requires Valid(db) && |GetKicksForSession(db, sid)| > 0
    ensures var kicks := GetKicksForSession(db, sid);
      multiset(GetKicksForSession(DeleteLastKick(db, sid).0, sid)) ==
      multiset(kicks)[kicks[|kicks| - 1] := 0]
  {
    var kicks := GetKicksForSession(db, sid);
    var last := kicks[|kicks| - 1];
    DeletePicksLast(db, sid);
    assert DistinctIds(db.events);
    RemoveIdExact(db.events, last);
  }

  /** Undo removes the last of the session's kicks in ordinal order, which
      is a stored event of that session. */
  lemma DeletePicksLast(db: Db, sid: Id)
    requires |GetKicksForSession(db, sid)| > 0
    ensures var kicks := GetKicksForSession(db, sid);
      var last := kicks[|kicks| - 1];
      && last in db.events && last.sessionId == sid
      && DeleteLastKick(db, sid).0.events == RemoveId(db.events, last.id)
  {
    var kicks := GetKicksForSession(db, sid);
    var last := kicks[|kicks| - 1];
    var own := EventsOf(db.events, sid);
    assert last in multiset(own);
    var m :| 0 <= m < |own| && own[m] == last;
  }

  /** Dropping the last of a sequence numbered 1..n leaves 1..n-1, which
      holds no copy of the dropped element. */
  lemma LastOut(kicks: seq<KickEvent>)
    requires |kicks| > 0
    requires forall i :: 0 <= i < |kicks| ==> kicks[i].ordinal == i + 1
    ensures var front := kicks[..|kicks| - 1];
      && multiset(front) == multiset(kicks)[kicks[|kicks| - 1] := 0]
      && StrictlySortedBy(front, Ordinal)
  {
    var n := |kicks|;
    var last := kicks[n - 1];
    var front := kicks[..n - 1];
    assert kicks == front + [last];
    assert last !in front;
  }

  /** Undo changes no other session's kicks. */
  lemma DeleteOthers(db: Db, sid: Id, other: Id)
    requires Valid(db) && other != sid
    ensures GetKicksForSession(DeleteLastKick(db, sid).0, other) == GetKicksForSession(db, other)
  {
    var (db', removed) := DeleteLastKick(db, sid);
    if removed.Some? {
      var last := removed.value;
      var own := EventsOf(db.events, sid);
      assert last in multiset(own);
      var m :| 0 <= m < |own| && own[m] == last;
      RemoveIdExact(db.events, last);
    }
  }

  /** Undo keeps the store's keys valid, the numbering and the cached count. */
  lemma DeletePreserves(db: Db, sid: Id)
    requires Valid(db) && LogConsistent(db, sid)
    ensures Valid(DeleteLastKick(db, sid).0) && LogConsistent(DeleteLastKick(db, sid).0, sid)
  {
    DeleteKeepsValid(db, sid);
    DeleteKeepsLog(db, sid);
  }

  lemma DeleteKeepsValid(db: Db, sid: Id)
    requires Valid(db)
    ensures Valid(DeleteLastKick(db, sid).0)
  {
    var (db', removed) := DeleteLastKick(db, sid);
    if removed.Some? {
      FilterDistinct(db.events, (e: KickEvent) => e.id != removed.value.id);
    }
  }

  lemma DeleteKeepsLog(db: Db, sid: Id)
    requires Valid(db) && LogConsistent(db, sid)
    ensures LogConsistent(DeleteLastKick(db, sid).0, sid)
  {
    var (db', removed) := DeleteLastKick(db, sid);
    DeleteDrops(db, sid);
    if removed.Some? {
      var kicks := GetKicksForSession(db, sid);
      var kicks' := GetKicksForSession(db', sid);
      forall i | 0 <= i < |kicks'|
        ensures kicks'[i].ordinal == i + 1
      {
        assert kicks'[i] == kicks[i];
      }
    }
  }

  /** Registering a kick for a stored session keeps the whole store's
      invariant. */
  lemma RegisterKeepsStore(db: Db, sid: Id, eventId: Id, now: int, source: KickSource)
    requires StoreInvariant(db) && sid in db.sessions
    requires RegisterKick(db, sid, eventId, now, source).Success?
    ensures StoreInvariant(RegisterKick(db, sid, eventId, now, source).value.0)
  {
    var (db', e) := RegisterKick(db, sid, eventId, now, source).value;
    RegisterPreserves(db, sid, eventId, now, source);
    forall other | other in db'.sessions
      ensures LogConsistent(db', other)
    {
      if other != sid {
        RegisterOthers(db, sid, eventId, now, source, other);
        assert LogConsistent(db, other);
      }
    }
    RegisterNoOrphans(db, sid, eventId, now, source);
  }

  lemma RegisterNoOrphans(db: Db, sid: Id, eventId: Id, now: int, source: KickSource)
    requires NoOrphans(db) && sid in db.sessions
    requires RegisterKick(db, sid, eventId, now, source).Success?
    ensures NoOrphans(RegisterKick(db, sid, eventId, now, source).value.0)
  {
    var (db', e) := RegisterKick(db, sid, eventId, now, source).value;
    forall i | 0 <= i < |db'.events|
      ensures db'.events[i].sessionId in db'.sessions
    {
      if i < |db.events| {
        assert db'.events[i] == db.events[i];
      } else {
        assert db'.events[i] == e;
      }
    }
  }

  /** Undoing a kick keeps the whole store's invariant. */
  lemma DeleteKeepsStore(db: Db, sid: Id)
    requires StoreInvariant(db)
    ensures StoreInvariant(DeleteLastKick(db, sid).0)
  {
    var (db', removed) := DeleteLastKick(db, sid);
    if sid in db.sessions {
      assert LogConsistent(db, sid);
      DeletePreserves(db, sid);
    }
    forall other | other in db'.sessions
      ensures LogConsistent(db', other)
    {
      if other != sid {
        DeleteOthers(db, sid, other);
        assert LogConsistent(db, other);
      }
    }
    DeleteNoOrphans(db, sid);
  }

  lemma DeleteNoOrphans(db: Db, sid: Id)
    requires NoOrphans(db)
    ensures NoOrphans(DeleteLastKick(db, sid).0)
  {
    var (db', removed) := DeleteLastKick(db, sid);
    forall i | 0 <= i < |db'.events|
      ensures db'.events[i].sessionId in db'.sessions
    {
      if removed.Some? {
        var m :| 0 <= m < |db.events| && db.events[m] == db'.events[i];
      }
    }
  }

  lemma DeleteSessionNoOrphans(db: Db, id: Id)
    requires NoOrphans(db)
    ensures NoOrphans(DeleteSession(db, id))
  {
    var db' := DeleteSession(db, id);
    DeleteSessionLeaves(db, id);
    assert forall e :: e in db.events ==> e.sessionId in db.sessions;
  }

  /** A write that leaves `kickCount` alone keeps the whole store's
      invariant. */
  lemma UpdateKeepsStore(db: Db, id: Id, p: SessionPatch)
    requires StoreInvariant(db) && p.kickCount.None?
    ensures StoreInvariant(UpdateSession(db, id, p))
  {
    var db' := UpdateSession(db, id, p);
    UpdatePreservesValid(db, id, p);
    assert db'.events == db.events;
    assert NoOrphans(db');
    forall other | other in db'.sessions
      ensures LogConsistent(db', other)
    {
      assert LogConsistent(db, other);
      assert GetKicksForSession(db', other) == GetKicksForSession(db, other);
      assert db'.sessions[other].kickCount == db.sessions[other].kickCount;
    }
  }

  /** Creating a session with a zero count keeps the whole store's
      invariant: no stored event can belong to the new id. */
  lemma CreateKeepsStore(db: Db, id: Id, now: int, timezone: string, overrides: SessionPatch)
    requires StoreInvariant(db)
    requires overrides.kickCount.None? || overrides.kickCount == Some(0)
    requires CreateSession(db, id, now, timezone, overrides).Success?
    ensures StoreInvariant(CreateSession(db, id, now, timezone, overrides).value.0)
  {
    var db' := CreateSession(db, id, now, timezone, overrides).value.0;
    CreatePreservesValid(db, id, now, timezone, overrides);
    NoEventsOf(db.events, id);
    forall other | other in db'.sessions
      ensures LogConsistent(db', other)
    {
      assert GetKicksForSession(db', other) == GetKicksForSession(db, other);
      if other != id {
        assert LogConsistent(db, other);
      }
    }
  }

  /** Deleting a session with its events keeps the whole store's invariant. */
  lemma DeleteSessionKeepsStore(db: Db, id: Id)
    requires StoreInvariant(db)
    ensures StoreInvariant(DeleteSession(db, id))
  {
    var db' := DeleteSession(db, id);
    FilterDistinct(db.events, (e: KickEvent) => e.sessionId != id);
    forall other | other in db'.sessions
      ensures LogConsistent(db', other)
    {
      assert EventsOf(db'.events, other) == EventsOf(db.events, other);
      assert LogConsistent(db, other);
    }
    DeleteSessionNoOrphans(db, id);
  }

  /** Undoing a kick right after registering it restores the store exactly:
      the event goes and the cached count returns to its old value. */
  lemma RegisterThenDelete(db: Db, sid: Id, eventId: Id, now: int, source: KickSource)
    requires Valid(db) && LogConsistent(db, sid) && sid in db.sessions
    requires RegisterKick(db, sid, eventId, now, source).Success?
    ensures DeleteLastKick(RegisterKick(db, sid, eventId, now, source).value.0, sid).0 == db
  {
    var (db3, e) := RegisterKick(db, sid, eventId, now, source).value;
    var (db4, removed) := DeleteLastKick(db3, sid);
    UndoTakesNew(db, sid, eventId, now, source);
    RemoveNew(db.events, e);
    RegisterAppends(db, sid, eventId, now, source);
    assert |GetKicksForSession(db3, sid)| - 1 == db.sessions[sid].kickCount;
    RestoreCount(db, db3, db4, sid, e.ordinal);
  }

  /** The kick undone right after a registration is the one registered. */
  lemma UndoTakesNew(db: Db, sid: Id, eventId: Id, now: int, source: KickSource)
    requires Valid(db) && LogConsistent(db, sid) && sid in db.sessions
    requires RegisterKick(db, sid, eventId, now, source).Success?
    ensures var (db3, e) := RegisterKick(db, sid, eventId, now, source).value;
      DeleteLastKick(db3, sid).1 == Some(e)
  {
    var (db3, e) := RegisterKick(db, sid, eventId, now, source).value;
    var kicks := GetKicksForSession(db, sid);
    RegisterAppends(db, sid, eventId, now, source);
    var (db4, removed) := DeleteLastKick(db3, sid);
    assert e in multiset(EventsOf(db3.events, sid));
    assert removed.Some?;
    RegisterPreserves(db, sid, eventId, now, source);
    DeleteDrops(db3, sid);
    var after := kicks + [e];
    assert removed.value in after;
  }

  /** Removing by id an event appended with a fresh id gives back the log
      as it was. */
  lemma RemoveNew(events: seq<KickEvent>, e: KickEvent)
    requires !EventIdTaken(events, e.id)
    ensures RemoveId(events + [e], e.id) == events
  {
    var keep := (x: KickEvent) => x.id != e.id;
    assert forall i :: 0 <= i < |events| ==> keep(events[i]);
    FilterAppend(events, [e], keep);
    FilterAll(events, keep);
    assert Filter([e], keep) == [];
  }

  /** Setting a session's count and then setting it back to the value it
      had leaves the sessions as they were. */
  lemma RestoreCount(db: Db, db3: Db, db4: Db, sid: Id, n: int)
    requires sid in db.sessions
    requires db3.sessions.Keys == db.sessions.Keys && db4.sessions.Keys == db3.sessions.Keys
    requires forall k :: k in db.sessions && k != sid ==> db3.sessions[k] == db.sessions[k]
    requires forall k :: k in db3.sessions && k != sid ==> db4.sessions[k] == db3.sessions[k]
    requires db3.sessions[sid] == db.sessions[sid].(kickCount := n)
    requires db4.sessions[sid] == db3.sessions[sid].(kickCount := db.sessions[sid].kickCount)
    ensures db4.sessions == db.sessions
  {
  }

  /** The operations of a session's event log. */
  datatype LogOp = Append(eventId: Id, at: int, source: KickSource) | Undo

  /** Applies the operations in order to one session's log; a refused
      append writes nothing. */
  function Replay(db: Db, sid: Id, ops: seq<LogOp>): Db
    decreases |ops|
  {
    if |ops| == 0 then db
    else
      var next := match ops[0]
        case Append(eventId, at, source) =>
          (match RegisterKick(db, sid, eventId, at, source)
           case Success((db', _)) => db'
           case Failure(_) => db)
        case Undo => DeleteLastKick(db, sid).0;
      Replay(next, sid, ops[1..])
  }

  /** Any sequence of appends and undos keeps the numbering and the cached
      count of the session. */
  lemma {:induction false} ReplayPreserves(db: Db, sid: Id, ops: seq<LogOp>)
    requires Valid(db) && LogConsistent(db, sid)
    ensures Valid(Replay(db, sid, ops)) && LogConsistent(Replay(db, sid, ops), sid)
    decreases |ops|
  {
    if |ops| > 0 {
      match ops[0] {
        case Append(eventId, at, source) =>
          if RegisterKick(db, sid, eventId, at, source).Success? {
            RegisterPreserves(db, sid, eventId, at, source);
            ReplayPreserves(RegisterKick(db, sid, eventId, at, source).value.0, sid, ops[1..]);
          } else {
            ReplayPreserves(db, sid, ops[1..]);
          }
        case Undo =>
          DeletePreserves(db, sid);
          ReplayPreserves(DeleteLastKick(db, sid).0, sid, ops[1..]);
      }
    }
  }

  /** Starting from a session with no events and a zero count, after any
      appends and undos its kicks carry ordinals exactly 1..n and its cached
      `kickCount` equals `getKickCount`, which is n. */
  lemma FromEmptyLog(db: Db, sid: Id, ops: seq<LogOp>)
    requires Valid(db)
    requires forall i :: 0 <= i < |db.events| ==> db.events[i].sessionId != sid
    requires sid in db.sessions && db.sessions[sid].kickCount == 0
    ensures var db' := Replay(db, sid, ops);
      var kicks := GetKicksForSession(db', sid);
      && (forall i :: 0 <= i < |kicks| ==> kicks[i].ordinal == i + 1)
      && sid in db'.sessions
      && db'.sessions[sid].kickCount == GetKickCount(db', sid) == |kicks|
  {
    NoEventsOf(db.events, sid);
    ReplayPreserves(db, sid, ops);
    ReplayKeepsSession(db, sid, ops);
  }

  /** Appends and undos never remove a session record. */
  lemma {:induction false} ReplayKeepsSession(db: Db, sid: Id, ops: seq<LogOp>)
    ensures Replay(db, sid, ops).sessions.Keys == db.sessions.Keys
    decreases |ops|
  {
    if |ops| > 0 {
      match ops[0] {
        case Append(eventId, at, source) =>
          if RegisterKick(db, sid, eventId, at, source).Success? {
            ReplayKeepsSession(RegisterKick(db, sid, eventId, at, source).value.0, sid, ops[1..]);
          } else {
            ReplayKeepsSession(db, sid, ops[1..]);
          }
        case Undo =>
          ReplayKeepsSession(DeleteLastKick(db, sid).0, sid, ops[1..]);
      }
    }
  }
}
