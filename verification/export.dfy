/** The CSV exports: the summary file has one line per finished session, the
    detailed file one line per kick of each finished session that has kicks.
    Both start with a byte-order mark and a header line. The locale's date,
    time and minute formatting is a parameter. */
module Export {
  import opened Types
  import opened Sequences
  import opened SessionStore
  import opened KickLog
  import opened LogInvariant
  import opened Decimal
  import opened Csv

  /** The UTF-8 byte-order mark the files start with. */
  const Bom: char := '﻿'

  /** The statuses of a finished session. */
  predicate ExportableStatus(st: Status) {
    st == Complete || st == Timeout || st == EndedEarly
  }

  /** A finished session that was started. */
  predicate Exportable(s: Session) {
    ExportableStatus(s.status) && s.startedAt.Some?
  }

  function StartedAt(s: Session): int {
    s.startedAt.GetOr(0)
  }

  /** The ids of the stored sessions that are exported. */
  function ExportableIds(db: Db): set<Id> {
    set k | k in db.sessions && Exportable(db.sessions[k])
  }

  /** The ids of the sessions of `s` that satisfy `p`. */
  function IdsWhere(s: seq<Session>, p: Session -> bool): set<Id>
    decreases |s|
  {
    if |s| == 0 then {}
    else (if p(s[0]) then {s[0].id} else {}) + IdsWhere(s[1..], p)
  }

  lemma {:induction false} IdsWhereHas(s: seq<Session>, p: Session -> bool, x: Id)
    ensures x in IdsWhere(s, p) <==> exists i :: 0 <= i < |s| && s[i].id == x && p(s[i])
    decreases |s|
  {
    if |s| > 0 {
      var t := s[1..];
      IdsWhereHas(t, p, x);
      if exists i :: 0 <= i < |s| && s[i].id == x && p(s[i]) {
        var i :| 0 <= i < |s| && s[i].id == x && p(s[i]);
        if i > 0 {
          assert t[i - 1] == s[i];
        }
      }
      if exists i :: 0 <= i < |t| && t[i].id == x && p(t[i]) {
        var i :| 0 <= i < |t| && t[i].id == x && p(t[i]);
        assert s[i + 1] == t[i];
      }
    }
  }

  /** With distinct ids, a filter keeps one session per id it keeps. */
  lemma {:induction false} FilterCount(s: seq<Session>, p: Session -> bool)
    requires forall i, j :: 0 <= i < j < |s| ==> s[i].id != s[j].id
    ensures |Filter(s, p)| == |IdsWhere(s, p)|
    decreases |s|
  {
    if |s| > 0 {
      var t := s[1..];
      DistinctTail(s);
      FilterCount(t, p);
      if p(s[0]) {
        FreshHead(s, p);
      }
    }
  }

  lemma DistinctTail(s: seq<Session>)
    requires |s| > 0
    requires forall i, j :: 0 <= i < j < |s| ==> s[i].id != s[j].id
    ensures forall i, j :: 0 <= i < j < |s[1..]| ==> s[1..][i].id != s[1..][j].id
  {
    var t := s[1..];
    assert forall i :: 0 <= i < |t| ==> t[i] == s[i + 1];
  }

  /** With distinct ids, the first session's id is not among the rest's. */
  lemma FreshHead(s: seq<Session>, p: Session -> bool)
    requires |s| > 0
    requires forall i, j :: 0 <= i < j < |s| ==> s[i].id != s[j].id
    ensures s[0].id !in IdsWhere(s[1..], p)
  {
    var t := s[1..];
    IdsWhereHas(t, p, s[0].id);
    assert forall i :: 0 <= i < |t| ==> t[i] == s[i + 1];
  }

  /** What the export writes out: stored, finished and started sessions
      only, every such session, earliest start first, and on a valid store
      each of them once. */
  predicate Selection(db: Db, r: seq<Session>) {
    && (forall i :: 0 <= i < |r| ==> r[i] in db.sessions.Values && Exportable(r[i]))
    && (forall k :: k in db.sessions && Exportable(db.sessions[k]) ==> db.sessions[k] in r)
    && SortedBy(r, StartedAt)
    && (Valid(db) ==> |r| == |ExportableIds(db)|)
  }

  /** getExportableSessions: every finished, started session once, earliest
      start first. */
  method GetExportableSessions(db: Db) returns (r: seq<Session>)
    ensures Selection(db, r)
  {
    var all := ListSessions(db);
    var chosen := Filter(all, Exportable);
    r := SortBy(chosen, StartedAt);
    SelectionMembers(db, all, r);
    if Valid(db) {
      SelectionCount(db, all);
    }
  }

  /** The sorted selection from a listing of every session holds exactly
      the exportable ones. */
  lemma SelectionMembers(db: Db, all: seq<Session>, r: seq<Session>)
    requires forall i :: 0 <= i < |all| ==> all[i] in db.sessions.Values
    requires forall k :: k in db.sessions ==> db.sessions[k] in all
    requires r == SortBy(Filter(all, Exportable), StartedAt)
    ensures forall i :: 0 <= i < |r| ==> r[i] in db.sessions.Values && Exportable(r[i])
    ensures forall k :: k in db.sessions && Exportable(db.sessions[k]) ==> db.sessions[k] in r
  {
    SelectionSound(db, all, r);
    SelectionComplete(db, all, r);
  }

  lemma SelectionSound(db: Db, all: seq<Session>, r: seq<Session>)
    requires forall i :: 0 <= i < |all| ==> all[i] in db.sessions.Values
    requires r == SortBy(Filter(all, Exportable), StartedAt)
    ensures forall i :: 0 <= i < |r| ==> r[i] in db.sessions.Values && Exportable(r[i])
  {
    var chosen := Filter(all, Exportable);
    forall i | 0 <= i < |r|
      ensures r[i] in db.sessions.Values && Exportable(r[i])
    {
      assert r[i] in multiset(chosen);
      ChosenSound(db, all, r[i]);
    }
  }

  lemma ChosenSound(db: Db, all: seq<Session>, x: Session)
    requires forall i :: 0 <= i < |all| ==> all[i] in db.sessions.Values
    requires x in multiset(Filter(all, Exportable))
    ensures x in db.sessions.Values && Exportable(x)
  {
    var chosen := Filter(all, Exportable);
    var j :| 0 <= j < |chosen| && chosen[j] == x;
    var k :| 0 <= k < |all| && all[k] == chosen[j];
  }

  lemma SelectionComplete(db: Db, all: seq<Session>, r: seq<Session>)
    requires forall k :: k in db.sessions ==> db.sessions[k] in all
    requires r == SortBy(Filter(all, Exportable), StartedAt)
    ensures forall k :: k in db.sessions && Exportable(db.sessions[k]) ==> db.sessions[k] in r
  {
    var chosen := Filter(all, Exportable);
    FilterKeeps(all, Exportable);
    forall k | k in db.sessions && Exportable(db.sessions[k])
      ensures db.sessions[k] in r
    {
      var i :| 0 <= i < |all| && all[i] == db.sessions[k];
      assert all[i] in chosen;
      assert all[i] in multiset(r);
    }
  }

  /** With every session listed once, the selection is as long as there
      are exportable sessions. */
  lemma SelectionCount(db: Db, all: seq<Session>)
    requires Valid(db)
    requires forall i :: 0 <= i < |all| ==> all[i] in db.sessions.Values
    requires forall k :: k in db.sessions ==> db.sessions[k] in all
    requires forall i, j :: 0 <= i < j < |all| ==> all[i].id != all[j].id
    ensures |Filter(all, Exportable)| == |ExportableIds(db)|
  {
    FilterCount(all, Exportable);
    forall x | x in ExportableIds(db)
      ensures x in IdsWhere(all, Exportable)
    {
      var i :| 0 <= i < |all| && all[i] == db.sessions[x];
      IdsWhereHas(all, Exportable, x);
    }
    forall x | x in IdsWhere(all, Exportable)
      ensures x in ExportableIds(db)
    {
      IdsWhereHas(all, Exportable, x);
      var i :| 0 <= i < |all| && all[i].id == x && Exportable(all[i]);
      var k :| k in db.sessions && db.sessions[k] == all[i];
    }
    assert IdsWhere(all, Exportable) == ExportableIds(db);
  }

  /** getExportableSessionCount. */
  method GetExportableSessionCount(db: Db) returns (n: nat)
    ensures Valid(db) ==> n == |ExportableIds(db)|
  {
    var sessions := GetExportableSessions(db);
    n := |sessions|;
  }

  /** The locale's formatting: a date, a time of day, and a duration in
      milliseconds as minutes to one decimal. */
  datatype Formats = Formats(date: int -> string, time: int -> string, minutes: int -> string)

  /** `t ? f(t) : ''`. */
  function FormatOr(t: Option<int>, f: int -> string): string {
    match t
    case Some(v) => f(v)
    case None => ""
  }

  const SummaryHeader: seq<string> :=
    ["date", "start_time", "end_time", "duration_minutes", "kick_count", "target_count",
     "status", "strength_rating", "notes", "timezone"]

  const DetailedHeader: seq<string> :=
    ["session_date", "session_start_time", "kick_number", "kick_time", "seconds_since_previous",
     "session_status", "session_kick_count"]

  /** The fields of a session's summary line, before escaping. */
  function SummaryValues(s: Session, fmt: Formats): (r: seq<Option<string>>)
    ensures |r| == |SummaryHeader|
  {
    [Some(FormatOr(s.startedAt, fmt.date)),
     Some(FormatOr(s.startedAt, fmt.time)),
     Some(FormatOr(s.endedAt, fmt.time)),
     Some(FormatOr(s.durationMs, fmt.minutes)),
     Some(IntToString(s.kickCount)),
     Some(IntToString(s.targetCount)),
     Some(StatusName(s.status)),
     (match s.strengthRating case Some(v) => Some(IntToString(v)) case None => None),
     s.notes,
     Some(s.timezone)]
  }

  function SummaryRecords(sessions: seq<Session>, fmt: Formats): (r: seq<seq<Option<string>>>)
    ensures |r| == |sessions|
    ensures forall i :: 0 <= i < |r| ==> r[i] == SummaryValues(sessions[i], fmt)
    decreases |sessions|
  {
    if |sessions| == 0 then []
    else [SummaryValues(sessions[0], fmt)] + SummaryRecords(sessions[1..], fmt)
  }

  /** exportSummaryCSV over the selected sessions. */
  function SummaryCSV(sessions: seq<Session>, fmt: Formats): string {
    [Bom] + Join('\n', [Join(',', SummaryHeader)] + EncodeAll(SummaryRecords(sessions, fmt)))
  }

  /** `Math.round(ms / 1000)`: the nearest whole second, halves rounded up. */
  function RoundSeconds(ms: int): (r: int)
    ensures r * 1000 - 500 <= ms < r * 1000 + 500
  {
    (ms + 500) / 1000
  }

  /** The seconds_since_previous field of the kick at `i`: empty for the
      first kick. */
  function SecondsSincePrevious(kicks: seq<KickEvent>, i: nat): (r: string)
    requires i < |kicks|
    ensures r == "" <==> i == 0
  {
    if i == 0 then ""
    else IntToString(RoundSeconds(kicks[i].occurredAt - kicks[i - 1].occurredAt))
  }

  /** A later kick's field reads back as the gap to the kick before it,
      rounded to the nearest second. */
  lemma GapReadsBack(kicks: seq<KickEvent>, i: nat)
    requires 0 < i < |kicks|
    ensures ParseInt(SecondsSincePrevious(kicks, i)) ==
            Some(RoundSeconds(kicks[i].occurredAt - kicks[i - 1].occurredAt))
  {
    IntRoundTrip(RoundSeconds(kicks[i].occurredAt - kicks[i - 1].occurredAt));
  }

  function KickValues(s: Session, kicks: seq<KickEvent>, i: nat, fmt: Formats): (r: seq<Option<string>>)
    requires i < |kicks|
    ensures |r| == |DetailedHeader|
  {
    [Some(FormatOr(s.startedAt, fmt.date)),
     Some(FormatOr(s.startedAt, fmt.time)),
     Some(IntToString(kicks[i].ordinal)),
     Some(fmt.time(kicks[i].occurredAt)),
     Some(SecondsSincePrevious(kicks, i)),
     Some(StatusName(s.status)),
     Some(IntToString(s.kickCount))]
  }

  /** One line per kick, in the given order. */
  function KickRecords(s: Session, kicks: seq<KickEvent>, fmt: Formats): (r: seq<seq<Option<string>>>)
    ensures |r| == |kicks|
    ensures forall i :: 0 <= i < |r| ==> r[i] == KickValues(s, kicks, i, fmt)
  {
    seq(|kicks|, i requires 0 <= i < |kicks| => KickValues(s, kicks, i, fmt))
  }

  /** The kick lines of one session: none when its cached count is zero. */
  function SessionRecords(s: Session, db: Db, fmt: Formats): seq<seq<Option<string>>> {
    if s.kickCount == 0 then [] else KickRecords(s, GetKicksForSession(db, s.id), fmt)
  }

  function DetailedRecords(sessions: seq<Session>, db: Db, fmt: Formats): (r: seq<seq<Option<string>>>)
    ensures forall i :: 0 <= i < |r| ==> |r[i]| == |DetailedHeader|
    decreases |sessions|
  {
    if |sessions| == 0 then []
    else SessionRecords(sessions[0], db, fmt) + DetailedRecords(sessions[1..], db, fmt)
  }

  /** The number of kick lines: the kicks of every session whose cached
      count is not zero. */
  function KickLines(sessions: seq<Session>, db: Db): nat
    decreases |sessions|
  {
    if |sessions| == 0 then 0
    else (if sessions[0].kickCount == 0 then 0 else GetKickCount(db, sessions[0].id)) +
         KickLines(sessions[1..], db)
  }

  lemma {:induction false} DetailedCount(sessions: seq<Session>, db: Db, fmt: Formats)
    ensures |DetailedRecords(sessions, db, fmt)| == KickLines(sessions, db)
    decreases |sessions|
  {
    if |sessions| > 0 {
      DetailedCount(sessions[1..], db, fmt);
    }
  }

  /** exportDetailedCSV over the selected sessions. */
  function DetailedCSV(sessions: seq<Session>, db: Db, fmt: Formats): string {
    [Bom] + Join('\n', [Join(',', DetailedHeader)] + EncodeAll(DetailedRecords(sessions, db, fmt)))
  }

  // ------------------------------------------------------------ reading

  /** The column names need no quoting. */
  lemma PlainSummaryHeader()
    ensures forall i :: 0 <= i < |SummaryHeader| ==> !NeedsQuoting(SummaryHeader[i])
  {
  }

  lemma PlainDetailedHeader()
    ensures forall i :: 0 <= i < |DetailedHeader| ==> !NeedsQuoting(DetailedHeader[i])
  {
  }

  /** A file of a header and records reads back as the header and every
      record's text. */
  lemma ReadHeaderAndRecords(header: seq<string>, records: seq<seq<Option<string>>>)
    requires |header| > 0
    requires forall i :: 0 <= i < |header| ==> !NeedsQuoting(header[i])
    requires forall i :: 0 <= i < |records| ==> |records[i]| > 0
    ensures ReadCsv(Join('\n', [Join(',', header)] + EncodeAll(records))) ==
            Some([header] + TextRecords(records))
  {
    PlainJoin(header);
    var all := [SomeAll(header)] + records;
    assert EncodeAll(all) == [Join(',', header)] + EncodeAll(records) by {
      assert all[1..] == records;
    }
    ReadEncodedDocument(all);
    assert TextAll(SomeAll(header)) == header;
    assert TextRecords(all) == [header] + TextRecords(records) by {
      assert all[1..] == records;
    }
  }

  /** A reader of the summary file finds the byte-order mark, the header
      and then exactly one record per session, each holding that session's
      fields in order. */
  lemma SummaryReadsBack(sessions: seq<Session>, fmt: Formats)
    ensures var csv := SummaryCSV(sessions, fmt);
      var read := ReadCsv(csv[1..]);
      && csv[0] == Bom
      && read.Some?
      && |read.value| == |sessions| + 1
      && read.value[0] == SummaryHeader
      && forall i :: 0 <= i < |sessions| ==> read.value[i + 1] == TextAll(SummaryValues(sessions[i], fmt))
  {
    var records := SummaryRecords(sessions, fmt);
    SummaryFile(sessions, fmt);
    var texts := TextRecords(records);
    HeaderThenRecords(ReadCsv(SummaryCSV(sessions, fmt)[1..]), SummaryHeader, texts);
  }

  /** The parts of a read that is the header followed by the records. */
  lemma HeaderThenRecords(read: Option<seq<seq<string>>>, header: seq<string>, texts: seq<seq<string>>)
    requires read == Some([header] + texts)
    ensures read.Some? && |read.value| == |texts| + 1 && read.value[0] == header
    ensures forall i :: 0 <= i < |texts| ==> read.value[i + 1] == texts[i]
  {
  }

  lemma SummaryFile(sessions: seq<Session>, fmt: Formats)
    ensures var csv := SummaryCSV(sessions, fmt);
      csv[0] == Bom && ReadCsv(csv[1..]) == Some([SummaryHeader] + TextRecords(SummaryRecords(sessions, fmt)))
  {
    PlainSummaryHeader();
    var records := SummaryRecords(sessions, fmt);
    ReadHeaderAndRecords(SummaryHeader, records);
    var csv := SummaryCSV(sessions, fmt);
    assert csv[1..] == Join('\n', [Join(',', SummaryHeader)] + EncodeAll(records));
  }

  /** A reader of the detailed file finds the byte-order mark, the header
      and then one record per kick of the sessions whose count is not zero. */
  lemma DetailedReadsBack(sessions: seq<Session>, db: Db, fmt: Formats)
    ensures var csv := DetailedCSV(sessions, db, fmt);
      var read := ReadCsv(csv[1..]);
      && csv[0] == Bom
      && read.Some?
      && |read.value| == KickLines(sessions, db) + 1
      && read.value[0] == DetailedHeader
      && read.value[1..] == TextRecords(DetailedRecords(sessions, db, fmt))
  {
    PlainDetailedHeader();
    var records := DetailedRecords(sessions, db, fmt);
    ReadHeaderAndRecords(DetailedHeader, records);
    DetailedCount(sessions, db, fmt);
    var csv := DetailedCSV(sessions, db, fmt);
    assert csv[1..] == Join('\n', [Join(',', DetailedHeader)] + EncodeAll(records));
  }

  /** In a session whose log is numbered 1..n, the kick lines carry the kick
      numbers 1..n in order, and only the first has no seconds since the
      previous kick. */
  lemma KickLinesNumbered(s: Session, db: Db, fmt: Formats)
    requires Gapless(db, s.id)
    ensures var kicks := GetKicksForSession(db, s.id);
      var lines := KickRecords(s, kicks, fmt);
      forall i :: 0 <= i < |lines| ==>
        && lines[i][2] == Some(IntToString(i + 1))
        && (lines[i][4] == Some("") <==> i == 0)
  {
  }

  /** Skipping sessions whose cached count is zero drops no kick: in a
      consistent store such a session has none. */
  lemma SkipDropsNoKicks(db: Db, id: Id)
    requires StoreInvariant(db) && id in db.sessions
    requires db.sessions[id].kickCount == 0
    ensures GetKicksForSession(db, id) == []
  {
    assert LogConsistent(db, id);
  }

  /** exportSummaryCSV: the finished sessions, earliest start first, one
      line each. */
  method ExportSummaryCSV(db: Db, fmt: Formats) returns (csv: string, selected: seq<Session>)
    ensures Selection(db, selected)
    ensures |csv| > 0 && csv[0] == Bom
    ensures ReadCsv(csv[1..]).Some? && ReadCsv(csv[1..]).value[0] == SummaryHeader
    ensures |ReadCsv(csv[1..]).value| == |selected| + 1
    ensures forall i :: 0 <= i < |selected| ==>
      ReadCsv(csv[1..]).value[i + 1] == TextAll(SummaryValues(selected[i], fmt))
  {
    selected := GetExportableSessions(db);
    csv := SummaryCSV(selected, fmt);
    SummaryReadsBack(selected, fmt);
  }

  /** exportDetailedCSV: the kicks of the finished sessions, one line
      each. */
  method ExportDetailedCSV(db: Db, fmt: Formats) returns (csv: string, selected: seq<Session>)
    ensures Selection(db, selected)
    ensures |csv| > 0 && csv[0] == Bom
    ensures ReadCsv(csv[1..]).Some? && ReadCsv(csv[1..]).value[0] == DetailedHeader
    ensures |ReadCsv(csv[1..]).value| == KickLines(selected, db) + 1
    ensures ReadCsv(csv[1..]).value[1..] == TextRecords(DetailedRecords(selected, db, fmt))
  {
    selected := GetExportableSessions(db);
    csv := DetailedCSV(selected, db, fmt);
    DetailedReadsBack(selected, db, fmt);
  }
}
