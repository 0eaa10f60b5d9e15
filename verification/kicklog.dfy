/** The kick event log: appending a kick with the next ordinal, listing a
    session's kicks in ordinal order, undoing the last kick, counting, and the
    intervals between kicks. Each append and each undo writes the event and
    the session's cached `kickCount` in one transaction. */
module KickLog {
  import opened Types
  import opened Sequences
  import opened SessionStore

  function Ordinal(e: KickEvent): int { e.ordinal }

  /** getKicksForSession: exactly the session's events, ascending by ordinal. */
  function GetKicksForSession(db: Db, sid: Id): (r: seq<KickEvent>)
    ensures multiset(r) == multiset(EventsOf(db.events, sid))
    ensures forall i :: 0 <= i < |r| ==> r[i].sessionId == sid
    ensures forall i, j :: 0 <= i < j < |r| ==> r[i].ordinal <= r[j].ordinal
  {
    var own := EventsOf(db.events, sid);
    var r := SortBy(own, Ordinal);
    SortByMembers(own, Ordinal);
    assert forall i, j :: 0 <= i < j < |r| ==> Ordinal(r[i]) <= Ordinal(r[j]);
    forall i | 0 <= i < |r|
      ensures r[i].sessionId == sid
    {
      var j :| 0 <= j < |own| && own[j] == r[i];
    }
    r
  }

  /** getKickCount: the number of events the session has. */
  function GetKickCount(db: Db, sid: Id): (n: nat)
    ensures n == |GetKicksForSession(db, sid)|
  {
    |EventsOf(db.events, sid)|
  }

  /** The left fold `reduce((max, kick) => Math.max(max, kick.ordinal), acc)`. */
  function FoldMax(acc: int, s: seq<KickEvent>): (m: int)
    ensures m >= acc
    ensures forall i :: 0 <= i < |s| ==> s[i].ordinal <= m
    ensures m == acc || exists i :: 0 <= i < |s| && s[i].ordinal == m
    decreases |s|
  {
    if |s| == 0 then acc
    else
      var m := FoldMax(if s[0].ordinal > acc then s[0].ordinal else acc, s[1..]);
      assert forall i :: 1 <= i < |s| ==> s[i] == s[1..][i - 1];
      m
  }

  /** The highest ordinal of the events, 0 when there are none. */
  function MaxOrdinal(s: seq<KickEvent>): int {
    FoldMax(0, s)
  }

  /** Whether some event in the table already has this id. */
  predicate EventIdTaken(events: seq<KickEvent>, id: Id) {
    exists i :: 0 <= i < |events| && events[i].id == id
  }

  /** registerKick: adds an event with ordinal one above the session's
      highest (1 for the first) and, in the same transaction, sets the
      session's `kickCount` to that ordinal. The session is not looked up: an
      unknown id gets the event and no session changes. The store refuses an
      event id it already holds, and then nothing is written. */
  function RegisterKick(db: Db, sid: Id, eventId: Id, now: int, source: KickSource := Tap)
    : (r: Result<(Db, KickEvent)>)
    ensures r.Failure? <==> EventIdTaken(db.events, eventId)
    ensures r.Failure? ==> r.error == ConstraintError(eventId)
    ensures r.Success? ==>
      var (db', e) := r.value;
      var own := EventsOf(db.events, sid);
      && e == KickEvent(eventId, sid, now, e.ordinal, source)
      && (forall i :: 0 <= i < |own| ==> own[i].ordinal < e.ordinal)
      && (e.ordinal == 1 || exists i :: 0 <= i < |own| && own[i].ordinal == e.ordinal - 1)
      && e.ordinal >= 1
      && db'.events == db.events + [e]
      && db'.sessions.Keys == db.sessions.Keys
      && (forall k :: k in db.sessions && k != sid ==> db'.sessions[k] == db.sessions[k])
      && (sid in db.sessions ==> db'.sessions[sid] == db.sessions[sid].(kickCount := e.ordinal))
  {
    if EventIdTaken(db.events, eventId) then Failure(ConstraintError(eventId))
    else
      var maxOrdinal := MaxOrdinal(EventsOf(db.events, sid));
      var e := KickEvent(eventId, sid, now, maxOrdinal + 1, source);
      var db' := UpdateSession(db.(events := db.events + [e]), sid,
                               EmptyPatch.(kickCount := Some(maxOrdinal + 1)));
      Success((db', e))
  }

  /** The events without the one carrying `id`: every other event keeps
      each of its copies. */
  function RemoveId(events: seq<KickEvent>, id: Id): (r: seq<KickEvent>)
    ensures forall i :: 0 <= i < |r| ==> r[i] in events && r[i].id != id
    ensures forall e: KickEvent :: e.id != id ==> multiset(r)[e] == multiset(events)[e]
  {
    var r := Filter(events, (e: KickEvent) => e.id != id);
    assert forall e: KickEvent :: e.id != id ==> multiset(r)[e] == multiset(events)[e] by {
      forall e: KickEvent | e.id != id {
        FilterMultiplicity(events, (e: KickEvent) => e.id != id, e);
      }
    }
    r
  }

  /** deleteLastKick: removes the session's highest-ordinal event and, in the
      same transaction, sets `kickCount` to the number of events left. With
      no events it returns none and writes nothing. */
  function DeleteLastKick(db: Db, sid: Id): (r: (Db, Option<KickEvent>))
    ensures r.1.None? <==> |EventsOf(db.events, sid)| == 0
    ensures r.1.None? ==> r.0 == db
    ensures r.1.Some? ==>
      var last := r.1.value;
      var kicks := GetKicksForSession(db, sid);
      && last in kicks && last.sessionId == sid
      && (forall i :: 0 <= i < |kicks| ==> kicks[i].ordinal <= last.ordinal)
      && r.0.events == RemoveId(db.events, last.id)
      && r.0.sessions.Keys == db.sessions.Keys
      && (forall k :: k in db.sessions && k != sid ==> r.0.sessions[k] == db.sessions[k])
      && (sid in db.sessions ==>
            r.0.sessions[sid] == db.sessions[sid].(kickCount := |kicks| - 1))
  {
    var kicks := GetKicksForSession(db, sid);
    if |kicks| == 0 then (db, None)
    else
      var last := kicks[|kicks| - 1];
      var db' := UpdateSession(db.(events := RemoveId(db.events, last.id)), sid,
                               EmptyPatch.(kickCount := Some(|kicks| - 1)));
      (db', Some(last))
  }

  /** calculateKickIntervals: the gap between each kick and the one before
      it, in milliseconds; none for fewer than two kicks. The gaps add up to
      the time from the first kick to the last. */
  method CalculateKickIntervals(kicks: seq<KickEvent>) returns (r: seq<int>)
    ensures |kicks| < 2 ==> r == []
    ensures |kicks| >= 2 ==> |r| == |kicks| - 1
    ensures forall i :: 0 <= i < |r| ==> r[i] == kicks[i + 1].occurredAt - kicks[i].occurredAt
    ensures |kicks| >= 2 ==> Sum(r) == kicks[|kicks| - 1].occurredAt - kicks[0].occurredAt
  {
    if |kicks| < 2 {
      return [];
    }
    r := [];
    var i := 1;
    while i < |kicks|
      invariant 1 <= i <= |kicks|
      invariant |r| == i - 1
      invariant forall j :: 0 <= j < |r| ==> r[j] == kicks[j + 1].occurredAt - kicks[j].occurredAt
      invariant Sum(r) == kicks[i - 1].occurredAt - kicks[0].occurredAt
    {
      var gap := kicks[i].occurredAt - kicks[i - 1].occurredAt;
      SumAppend(r, gap);
      r := r + [gap];
      i := i + 1;
    }
  }

  function Sum(s: seq<int>): int {
    if |s| == 0 then 0 else s[0] + Sum(s[1..])
  }

  lemma {:induction false} SumAppend(s: seq<int>, x: int)
    ensures Sum(s + [x]) == Sum(s) + x
    decreases |s|
  {
    if |s| == 0 {
      assert s + [x] == [x];
    } else {
      assert (s + [x])[1..] == s[1..] + [x];
      SumAppend(s[1..], x);
    }
  }
}
