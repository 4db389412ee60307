/** The relational store: how a fixture record becomes a row (apps/api/persistence/harbor_lantern.py,
    `_insert_revision`), how a row is selected and read back (apps/api/persistence/postgres.py), and
    when that agrees with the in-memory repository loaded from the same records
    (apps/api/temporal/fixtures.py). */
module TemporalSql {
  import opened Basics
  import opened TemporalModel
  import opened TemporalRepository

  /** A record of the interchange fixture. */
  datatype Record = Record(
    id: string,
    assertion: string,
    kind: AssertionClass,
    validStart: Instant,
    validEnd: Option<Instant>,
    recordedStart: Instant,
    recordedEnd: Option<Instant>,
    eventAt: Option<Instant>,
    supersedes: Option<string>,
    handling: string,
    restrictions: set<string>)

  /** Deterministic identifiers: the row id of a revision stands for case, assertion and revision. */
  datatype RowId = RowId(caseId: string, assertion: string, id: string)

  /** The columns of `napp.assertion_revisions` that the queries use. A point row's period is the
      single instant of its event; the record itself travels in the payload. */
  datatype Row = Row(
    id: RowId,
    caseId: string,
    supersedes: Option<RowId>,
    point: bool,
    lower: Instant,
    upper: Option<Instant>,
    recordedAt: Instant,
    payload: Record)

  type Table = set<Row>

  // ----- writing -----

  function Insert(caseId: string, r: Record): Row {
    Row(RowId(caseId, r.assertion, r.id), caseId,
        if r.supersedes.Some? then Some(RowId(caseId, r.assertion, r.supersedes.value)) else None,
        r.eventAt.Some?,
        if r.eventAt.Some? then r.eventAt.value else r.validStart,
        if r.eventAt.Some? then r.eventAt else r.validEnd,
        r.recordedStart, r)
  }

  function TableOf(caseId: string, records: set<Record>): Table {
    set r | r in records :: Insert(caseId, r)
  }

  // ----- the WHERE clauses -----

  ghost predicate Superseded(table: Table, row: Row, knownAt: Instant) {
    exists s :: s in table && s.caseId == row.caseId && s.supersedes == Some(row.id) && s.recordedAt <= knownAt
  }

  /** Recorded by then, and not superseded by then. */
  ghost predicate KnownRow(table: Table, row: Row, caseId: string, knownAt: Instant) {
    row.caseId == caseId && row.recordedAt <= knownAt && !Superseded(table, row, knownAt)
  }

  predicate HoldsAt(row: Row, t: Instant) {
    if row.point then row.lower == t else row.lower <= t && (row.upper.None? || t < row.upper.value)
  }

  /** `&&` on half-open, non-empty ranges, and the two comparisons for a point. */
  predicate HoldsDuring(row: Row, w: Interval) {
    if row.point then w.start <= row.lower && (w.end.None? || row.lower < w.end.value)
    else (row.upper.None? || w.start < row.upper.value) && (w.end.None? || row.lower < w.end.value)
  }

  ghost predicate Selects(table: Table, row: Row, caseId: string, validAt: Instant, knownAt: Instant) {
    row in table && KnownRow(table, row, caseId, knownAt) && HoldsAt(row, validAt)
  }

  ghost predicate SelectsWindow(table: Table, row: Row, caseId: string, w: Interval, knownAt: Instant) {
    row in table && KnownRow(table, row, caseId, knownAt) && HoldsDuring(row, w)
  }

  // ----- reading a row back -----

  /** The row joined with its successor, if there is one. */
  ghost predicate Joined(table: Table, row: Row, recordedEnd: Option<Instant>) {
    if recordedEnd.None? then forall s | s in table :: !(s.caseId == row.caseId && s.supersedes == Some(row.id))
    else exists s ::
      s in table && s.caseId == row.caseId && s.supersedes == Some(row.id) && s.recordedAt == recordedEnd.value
  }

  function FromRow(row: Row, recordedEnd: Option<Instant>): Revision {
    var p := row.payload;
    Revision(p.id, p.assertion, row.caseId, p.kind,
             Interval(p.validStart, if p.validEnd.Some? || row.point then p.validEnd else row.upper),
             Interval(row.recordedAt, recordedEnd), p.eventAt, p.supersedes, p.handling, p.restrictions)
  }

  /** The in-memory revision of the same record. */
  function FromRecord(caseId: string, r: Record): Revision {
    Revision(r.id, r.assertion, caseId, r.kind, Interval(r.validStart, r.validEnd),
             Interval(r.recordedStart, r.recordedEnd), r.eventAt, r.supersedes, r.handling, r.restrictions)
  }

  // ----- linear correction chains -----

  ghost predicate Succeeds(s: Record, r: Record) { s.supersedes == Some(r.id) && s.assertion == r.assertion }

  /** At most one successor each, recorded strictly later, and that is where the record ends. */
  ghost predicate Linear(records: set<Record>) {
    && (forall r, s, t | r in records && s in records && t in records && Succeeds(s, r) && Succeeds(t, r) :: s == t)
    && (forall r, s | r in records && s in records && Succeeds(s, r) ::
       r.recordedStart < s.recordedStart && r.recordedEnd == Some(s.recordedStart))
    && (forall r | r in records && r.recordedEnd.Some? :: exists s :: s in records && Succeeds(s, r))
  }

  ghost predicate RevisionsOk(caseId: string, records: set<Record>) {
    forall r | r in records :: FromRecord(caseId, r).WellFormed()
  }

  lemma RowMember(caseId: string, records: set<Record>, row: Row)
    ensures row in TableOf(caseId, records) <==> row.payload in records && row == Insert(caseId, row.payload)
  {
  }

  lemma SuccessorRow(caseId: string, records: set<Record>, r: Record, s: Row)
    requires s in TableOf(caseId, records)
    ensures s.supersedes == Some(Insert(caseId, r).id) <==> Succeeds(s.payload, r)
    ensures s.caseId == caseId && s.recordedAt == s.payload.recordedStart && s == Insert(caseId, s.payload)
        && s.payload in records
  {
    RowMember(caseId, records, s);
  }

  /** A record is superseded by a moment exactly when its recorded interval has ended by then. */
  lemma SupersededWhenEnded(caseId: string, records: set<Record>, r: Record, knownAt: Instant)
    requires Linear(records) && r in records
    ensures Superseded(TableOf(caseId, records), Insert(caseId, r), knownAt) <==>
        r.recordedEnd.Some? && r.recordedEnd.value <= knownAt
  {
    hide Insert, TableOf;
    var table, row := TableOf(caseId, records), Insert(caseId, r);
    assert row.caseId == caseId by { InsertCase(caseId, r); }
    if Superseded(table, row, knownAt) {
      var s :| s in table && s.caseId == row.caseId && s.supersedes == Some(row.id) && s.recordedAt <= knownAt;
      SuccessorRow(caseId, records, r, s);
    }
    if r.recordedEnd.Some? && r.recordedEnd.value <= knownAt {
      var s :| s in records && Succeeds(s, r);
      Listed(caseId, records, s);
      SuccessorRow(caseId, records, r, Insert(caseId, s));
      InsertPayload(caseId, s);
    }
  }

  lemma Listed(caseId: string, records: set<Record>, r: Record)
    requires r in records
    ensures Insert(caseId, r) in TableOf(caseId, records)
  {
  }

  lemma InsertCase(caseId: string, r: Record)
    ensures Insert(caseId, r).caseId == caseId
  {
  }

  lemma InsertPayload(caseId: string, r: Record)
    ensures Insert(caseId, r).payload == r && Insert(caseId, r).recordedAt == r.recordedStart
  {
  }

  /** Being known to the database is being visible in memory. */
  lemma KnownIsVisible(caseId: string, records: set<Record>, r: Record, knownAt: Instant)
    requires Linear(records) && r in records
    ensures KnownRow(TableOf(caseId, records), Insert(caseId, r), caseId, knownAt) <==>
        FromRecord(caseId, r).VisibleAt(knownAt)
  {
    hide TableOf, Linear, Superseded;
    SupersededWhenEnded(caseId, records, r, knownAt);
  }

  /** Round trip: reading a row with its successor gives the revision that memory holds. */
  lemma RowRoundTrip(caseId: string, records: set<Record>, r: Record)
    requires Linear(records) && r in records
    ensures forall e | Joined(TableOf(caseId, records), Insert(caseId, r), e) ::
        FromRow(Insert(caseId, r), e) == FromRecord(caseId, r)
    ensures Joined(TableOf(caseId, records), Insert(caseId, r), r.recordedEnd)
  {
    var table, row := TableOf(caseId, records), Insert(caseId, r);
    forall e | Joined(table, row, e) ensures FromRow(row, e) == FromRecord(caseId, r) {
      if e.Some? {
        var s :| s in table && s.caseId == row.caseId && s.supersedes == Some(row.id) && s.recordedAt == e.value;
        SuccessorRow(caseId, records, r, s);
      } else if r.recordedEnd.Some? {
        var s :| s in records && Succeeds(s, r);
        Listed(caseId, records, s);
        SuccessorRow(caseId, records, r, Insert(caseId, s));
      }
    }
    JoinedEnd(caseId, records, r);
  }

  lemma JoinedEnd(caseId: string, records: set<Record>, r: Record)
    requires Linear(records) && r in records
    ensures Joined(TableOf(caseId, records), Insert(caseId, r), r.recordedEnd)
  {
    var table, row := TableOf(caseId, records), Insert(caseId, r);
    if r.recordedEnd.Some? {
      var s :| s in records && Succeeds(s, r);
      Listed(caseId, records, s);
      SuccessorRow(caseId, records, r, Insert(caseId, s));
    } else {
      forall s | s in table
        ensures !(s.caseId == row.caseId && s.supersedes == Some(row.id))
      {
        SuccessorRow(caseId, records, r, s);
      }
    }
  }

  // ----- validity -----

  /** The two validity tests agree at every instant exactly when a recorded event belongs to an
      observed event, or is the only instant of its interval anyway. */
  predicate EventOk(r: Record) {
    r.eventAt.Some? && r.kind != ObservedEvent ==>
      r.validStart == r.eventAt.value && r.validEnd == Some(r.eventAt.value + 1)
  }

  lemma ValidityAgrees(caseId: string, r: Record)
    requires FromRecord(caseId, r).WellFormed()
    ensures (forall t :: HoldsAt(Insert(caseId, r), t) <==> FromRecord(caseId, r).AppliesAt(t)) <==> EventOk(r)
    ensures forall t :: HoldsAt(Insert(caseId, r), t) ==> FromRecord(caseId, r).AppliesAt(t)
  {
    var row, rev := Insert(caseId, r), FromRecord(caseId, r);
    if !EventOk(r) {
      var e := r.eventAt.value;
      var t := if r.validStart < e then r.validStart else e + 1;
      assert rev.AppliesAt(t) && !HoldsAt(row, t);
    }
  }

  lemma WindowsAgree(caseId: string, r: Record, w: Interval)
    requires FromRecord(caseId, r).WellFormed() && w.Valid()
    ensures HoldsDuring(Insert(caseId, r), w) <==>
        (FromRecord(caseId, r).AppliesDuring(w) && (r.eventAt.Some? ==> w.Contains(r.eventAt.value)))
  {
  }

  // ----- agreement -----

  ghost predicate Holds(caseId: string, records: set<Record>, s: seq<Revision>) {
    && (forall r | r in records :: FromRecord(caseId, r) in s)
    && (forall v | v in s :: exists r :: r in records && v == FromRecord(caseId, r))
  }

  ghost predicate EventsOk(records: set<Record>) {
    forall r | r in records :: EventOk(r)
  }

  ghost predicate SameAnswers(caseId: string, records: set<Record>, s: seq<Revision>, validAt: Instant,
        knownAt: Instant) {
    var answers := Reconstruct(s, PointQuery(validAt, knownAt, Some(caseId)));
    forall r | r in records ::
      Selects(TableOf(caseId, records), Insert(caseId, r), caseId, validAt, knownAt) <==>
        FromRecord(caseId, r) in answers
  }

  /** The database selects the rows of exactly the revisions that memory returns, at every point
      of valid and known time, if and only if no record breaks the rule on event times. */
  lemma ReconstructionsAgree(caseId: string, records: set<Record>, s: seq<Revision>)
    requires Linear(records) && RevisionsOk(caseId, records) && Holds(caseId, records, s)
    ensures (forall validAt, knownAt :: SameAnswers(caseId, records, s, validAt, knownAt)) <==> EventsOk(records)
  {
    hide Linear, TableOf, Insert, FromRecord, Reconstruct, KnownRow, HoldsAt, EventOk;
    if EventsOk(records) {
      forall validAt, knownAt ensures SameAnswers(caseId, records, s, validAt, knownAt) {
        forall r | r in records
          ensures Selects(TableOf(caseId, records), Insert(caseId, r), caseId, validAt, knownAt)
             <==> FromRecord(caseId, r) in Reconstruct(s, PointQuery(validAt, knownAt, Some(caseId)))
        {
          PointAnswer(caseId, records, s, r, validAt, knownAt);
          ValidityAgrees(caseId, r);
        }
      }
    }
    if forall validAt, knownAt :: SameAnswers(caseId, records, s, validAt, knownAt) {
      forall r | r in records ensures EventOk(r) {
        forall t ensures HoldsAt(Insert(caseId, r), t) <==> FromRecord(caseId, r).AppliesAt(t) {
          assert SameAnswers(caseId, records, s, t, r.recordedStart);
          PointAnswer(caseId, records, s, r, t, r.recordedStart);
          VisibleWhenRecorded(caseId, r);
        }
        ValidityAgrees(caseId, r);
      }
    }
  }

  function DatedAllegation(): Record {
    Record("r1", "a1", Allegation, 0, Some(10), 0, None, Some(5), None, "open", {})
  }

  /** For example: an allegation valid from 0 to 10 about an event at 5 is applicable at 3 in
      memory, and the database does not select it. */
  lemma DatedAllegationExample()
    ensures var records, s := {DatedAllegation()}, [FromRecord("case", DatedAllegation())];
      && Linear(records) && RevisionsOk("case", records) && Holds("case", records, s)
      && Reconstruct(s, PointQuery(3, 0, Some("case"))) == s
      && !Selects(TableOf("case", records), Insert("case", DatedAllegation()), "case", 3, 0)
  {
    var r := DatedAllegation();
    var rev := FromRecord("case", r);
    assert [rev][..0] == [] && rev.VisibleAt(0) && rev.AppliesAt(3);
  }

  lemma VisibleWhenRecorded(caseId: string, r: Record)
    requires FromRecord(caseId, r).WellFormed()
    ensures FromRecord(caseId, r).VisibleAt(r.recordedStart)
  {
  }

  lemma PointAnswer(caseId: string, records: set<Record>, s: seq<Revision>, r: Record, validAt: Instant,
        knownAt: Instant)
    requires Linear(records) && Holds(caseId, records, s) && r in records
    ensures Selects(TableOf(caseId, records), Insert(caseId, r), caseId, validAt, knownAt)
       <==> (FromRecord(caseId, r).VisibleAt(knownAt) && HoldsAt(Insert(caseId, r), validAt))
    ensures FromRecord(caseId, r) in Reconstruct(s, PointQuery(validAt, knownAt, Some(caseId)))
       <==> (FromRecord(caseId, r).VisibleAt(knownAt) && FromRecord(caseId, r).AppliesAt(validAt))
  {
    hide Linear, TableOf, Reconstruct, KnownRow, HoldsAt;
    KnownIsVisible(caseId, records, r, knownAt);
    Listed(caseId, records, r);
    ReconstructExact(s, PointQuery(validAt, knownAt, Some(caseId)), WindowQuery(Interval(0, None), knownAt, None));
    RecordCase(caseId, r);
  }

  lemma RecordCase(caseId: string, r: Record)
    ensures FromRecord(caseId, r).caseId == caseId
  {
  }

  /** For windows the database answers are those of memory, less the revisions whose event lies
      outside the window. */
  lemma WindowContained(caseId: string, records: set<Record>, s: seq<Revision>, w: Interval, knownAt: Instant,
        r: Record)
    requires Linear(records) && RevisionsOk(caseId, records) && Holds(caseId, records, s) && w.Valid() && r in records
    ensures SelectsWindow(TableOf(caseId, records), Insert(caseId, r), caseId, w, knownAt)
       <==> (FromRecord(caseId, r) in ReconstructWindow(s, WindowQuery(w, knownAt, Some(caseId)))
         && (r.eventAt.Some? ==> w.Contains(r.eventAt.value)))
  {
    hide Linear, TableOf, ReconstructWindow, KnownRow, HoldsDuring;
    KnownIsVisible(caseId, records, r, knownAt);
    Listed(caseId, records, r);
    WindowsAgree(caseId, r, w);
    ReconstructExact(s, PointQuery(0, knownAt, None), WindowQuery(w, knownAt, Some(caseId)));
    RecordCase(caseId, r);
  }

  // ----- what is learnt later changes nothing -----

  /** Rows recorded after the moment of knowledge change no answer about that moment. */
  lemma LaterRowsChangeNothing(table: Table, more: Table, caseId: string, validAt: Instant, w: Interval,
        knownAt: Instant, row: Row)
    requires forall x | x in more :: x.recordedAt > knownAt
    ensures Selects(table + more, row, caseId, validAt, knownAt) <==> Selects(table, row, caseId, validAt, knownAt)
    ensures SelectsWindow(table + more, row, caseId, w, knownAt) <==> SelectsWindow(table, row, caseId, w, knownAt)
  {
    assert Superseded(table + more, row, knownAt) <==> Superseded(table, row, knownAt) by {
      if Superseded(table, row, knownAt) {
        var s :| s in table && s.caseId == row.caseId && s.supersedes == Some(row.id) && s.recordedAt <= knownAt;
        assert s in table + more;
      }
    }
  }

  ghost predicate Renews(r: Record, r': Record) { r' == r.(recordedEnd := r'.recordedEnd) }

  /** The records at a later time: the earlier ones, perhaps ended, and some recorded after `t`. */
  ghost predicate Continued(records: set<Record>, records': set<Record>, t: Instant) {
    && (forall r | r in records :: exists r' :: r' in records' && Renews(r, r'))
    && (forall r' | r' in records' :: r'.recordedStart > t || exists r :: r in records && Renews(r, r'))
  }

  lemma SuccessorOf(records: set<Record>, r: Record) returns (s: Record)
    requires Linear(records) && r in records && r.recordedEnd.Some?
    ensures s in records && Succeeds(s, r) && r.recordedEnd == Some(s.recordedStart)
  {
    s :| s in records && Succeeds(s, r);
  }

  lemma EndsAt(records: set<Record>, r: Record, s: Record)
    requires Linear(records) && r in records && s in records && Succeeds(s, r)
    ensures r.recordedEnd == Some(s.recordedStart)
  {
  }

  lemma RenewedAs(records: set<Record>, records': set<Record>, t: Instant, r: Record) returns (r': Record)
    requires Continued(records, records', t) && r in records
    ensures r' in records' && Renews(r, r')
  {
    r' :| r' in records' && Renews(r, r');
  }

  lemma RenewedFrom(records: set<Record>, records': set<Record>, t: Instant, r': Record) returns (r: Record)
    requires Continued(records, records', t) && r' in records' && r'.recordedStart <= t
    ensures r in records && Renews(r, r')
  {
    r :| r in records && Renews(r, r');
  }

  lemma StillVisible(caseId: string, records: set<Record>, records': set<Record>, r: Record, r': Record, t: Instant)
    requires Linear(records) && Linear(records') && Continued(records, records', t)
    requires r in records && r' in records' && Renews(r, r')
    ensures FromRecord(caseId, r').VisibleAt(t) <==> FromRecord(caseId, r).VisibleAt(t)
  {
    hide Linear, Continued;
    if r.recordedEnd.Some? {
      var s := SuccessorOf(records, r);
      var s' := RenewedAs(records, records', t, s);
      EndsAt(records', r', s');
    } else if r'.recordedEnd.Some? {
      var s' := SuccessorOf(records', r');
      if s'.recordedStart <= t {
        var s := RenewedFrom(records, records', t, s');
        EndsAt(records, r, s);
      }
    }
  }

  lemma RenewedAnswers(caseId: string, r: Record, r': Record, q: PointQuery, w: WindowQuery)
    requires Renews(r, r') && w.knownAt == q.knownAt
        && (FromRecord(caseId, r').VisibleAt(q.knownAt) <==> FromRecord(caseId, r).VisibleAt(q.knownAt))
    ensures AnswersPoint(FromRecord(caseId, r'), q) <==> AnswersPoint(FromRecord(caseId, r), q)
    ensures AnswersWindow(FromRecord(caseId, r'), w) <==> AnswersWindow(FromRecord(caseId, r), w)
    ensures AnswersPoint(FromRecord(caseId, r'), q) || AnswersWindow(FromRecord(caseId, r'), w) ==>
        r'.recordedStart <= q.knownAt
  {
  }

  lemma AnswerIsRecorded(caseId: string, r: Record, q: PointQuery, w: WindowQuery)
    ensures AnswersPoint(FromRecord(caseId, r), q) ==> r.recordedStart <= q.knownAt
    ensures AnswersWindow(FromRecord(caseId, r), w) ==> r.recordedStart <= w.knownAt
  {
  }

  ghost predicate Answered(caseId: string, records: set<Record>, q: PointQuery, id: string) {
    exists r :: r in records && r.id == id && AnswersPoint(FromRecord(caseId, r), q)
  }

  ghost predicate AnsweredWindow(caseId: string, records: set<Record>, w: WindowQuery, id: string) {
    exists r :: r in records && r.id == id && AnswersWindow(FromRecord(caseId, r), w)
  }

  /** The same for memory: whatever is recorded after the moment of knowledge, and whichever
      recorded intervals it ends, the revision ids answered about that moment are the same. */
  lemma LaterRecordsChangeNothing(caseId: string, records: set<Record>, records': set<Record>, q: PointQuery,
        w: WindowQuery, id: string)
    requires Linear(records) && Linear(records') && Continued(records, records', q.knownAt) && w.knownAt == q.knownAt
    ensures Answered(caseId, records', q, id) <==> Answered(caseId, records, q, id)
    ensures AnsweredWindow(caseId, records', w, id) <==> AnsweredWindow(caseId, records, w, id)
  {
    hide Linear, Continued, FromRecord, AnswersPoint, AnswersWindow;
    if Answered(caseId, records, q, id) {
      var r :| r in records && r.id == id && AnswersPoint(FromRecord(caseId, r), q);
      var r' := AnswerForward(caseId, records, records', r, q, w);
    }
    if Answered(caseId, records', q, id) {
      var r' :| r' in records' && r'.id == id && AnswersPoint(FromRecord(caseId, r'), q);
      var r := AnswerBack(caseId, records, records', r', q, w);
    }
    if AnsweredWindow(caseId, records, w, id) {
      var r :| r in records && r.id == id && AnswersWindow(FromRecord(caseId, r), w);
      var r' := AnswerForward(caseId, records, records', r, q, w);
    }
    if AnsweredWindow(caseId, records', w, id) {
      var r' :| r' in records' && r'.id == id && AnswersWindow(FromRecord(caseId, r'), w);
      var r := AnswerBack(caseId, records, records', r', q, w);
    }
  }

  lemma AnswerForward(caseId: string, records: set<Record>, records': set<Record>, r: Record, q: PointQuery,
        w: WindowQuery)
    returns (r': Record)
    requires Linear(records) && Linear(records') && Continued(records, records', q.knownAt) && w.knownAt == q.knownAt
        && r in records
    ensures r' in records' && r'.id == r.id
    ensures AnswersPoint(FromRecord(caseId, r), q) ==> AnswersPoint(FromRecord(caseId, r'), q)
    ensures AnswersWindow(FromRecord(caseId, r), w) ==> AnswersWindow(FromRecord(caseId, r'), w)
  {
    hide Linear, Continued, FromRecord, AnswersPoint, AnswersWindow;
    r' := RenewedAs(records, records', q.knownAt, r);
    StillVisible(caseId, records, records', r, r', q.knownAt);
    RenewedAnswers(caseId, r, r', q, w);
  }

  lemma AnswerBack(caseId: string, records: set<Record>, records': set<Record>, r': Record, q: PointQuery,
        w: WindowQuery)
    returns (r: Record)
    requires Linear(records) && Linear(records') && Continued(records, records', q.knownAt) && w.knownAt == q.knownAt
        && r' in records'
    requires AnswersPoint(FromRecord(caseId, r'), q) || AnswersWindow(FromRecord(caseId, r'), w)
    ensures r in records && r'.id == r.id
    ensures AnswersPoint(FromRecord(caseId, r'), q) ==> AnswersPoint(FromRecord(caseId, r), q)
    ensures AnswersWindow(FromRecord(caseId, r'), w) ==> AnswersWindow(FromRecord(caseId, r), w)
  {
    hide Linear, Continued, FromRecord, AnswersPoint, AnswersWindow;
    AnswerIsRecorded(caseId, r', q, w);
    r := RenewedFrom(records, records', q.knownAt, r');
    StillVisible(caseId, records, records', r, r', q.knownAt);
    RenewedAnswers(caseId, r, r', q, w);
  }
}
