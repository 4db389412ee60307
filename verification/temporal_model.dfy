/** Bitemporal records (apps/api/temporal/models.py). Instants are integers; all are aware. */
module TemporalModel {
  import opened Basics

  type Instant = int

  /** A half-open interval; no end means unbounded. */
  datatype Interval = Interval(start: Instant, end: Option<Instant>) {
    predicate Valid() { end.Some? ==> start < end.value }

    predicate Contains(instant: Instant) {
      start <= instant && (end.None? || instant < end.value)
    }

    predicate Overlaps(other: Interval) {
      (end.None? || other.start < end.value) && (other.end.None? || start < other.end.value)
    }
  }

  datatype AssertionClass = SourceReport | Allegation | AnalystJudgment | ObservedEvent | PersistentState

  datatype Revision = Revision(
    id: string,
    assertion: string,
    caseId: string,
    kind: AssertionClass,
    valid: Interval,
    recorded: Interval,
    eventAt: Option<Instant>,
    supersedes: Option<string>,
    handling: string,
    restrictions: set<string>)
  {
    /** What the constructor insists on. */
    predicate WellFormed() {
      && valid.Valid() && recorded.Valid()
      && (eventAt.Some? ==> valid.Contains(eventAt.value))
      && (kind == ObservedEvent ==> eventAt.Some?)
    }

    predicate AppliesAt(validAt: Instant) {
      if !valid.Contains(validAt) then false
      else if kind == ObservedEvent then eventAt == Some(validAt)
      else true
    }

    predicate AppliesDuring(window: Interval) { valid.Overlaps(window) }

    predicate VisibleAt(knownAt: Instant) { recorded.Contains(knownAt) }
  }

  datatype PointQuery = PointQuery(validAt: Instant, knownAt: Instant, caseId: Option<string>)

  datatype WindowQuery = WindowQuery(window: Interval, knownAt: Instant, caseId: Option<string>)

  /** Two intervals overlap exactly when they have an instant in common. */
  lemma OverlapIsCommonInstant(a: Interval, b: Interval)
    requires a.Valid() && b.Valid()
    ensures a.Overlaps(b) <==> exists t :: a.Contains(t) && b.Contains(t)
    ensures a.Overlaps(b) <==> b.Overlaps(a)
  {
    var t := if a.start <= b.start then b.start else a.start;
    if a.Overlaps(b) { assert a.Contains(t) && b.Contains(t); }
  }

  /** What applies at an instant applies during every window around it. */
  lemma PointWithinWindow(r: Revision, validAt: Instant, window: Interval)
    requires r.WellFormed() && window.Valid() && window.Contains(validAt) && r.AppliesAt(validAt)
    ensures r.AppliesDuring(window)
  {
    OverlapIsCommonInstant(r.valid, window);
  }
}
