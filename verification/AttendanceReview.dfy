/**
 One pass of the attendance review over a term
 (apps/api/src/modules/attendance-alerts/attendance-review.service.ts:38-69, 81-128, 149-360).
 The pass is one step: no one else writes while it runs.  Rows and open alerts come as its queries return
 them, the alerts in any order.
 */
module AttendanceReview {
  import opened Options
  import opened Alerts
  import opened RaiseDecision
  import opened AlertSteps
  import D = AttendanceDecision

  type AlertTable = map<AlertId, Alert>

  const EXEMPT_SUBJECT_NOTE :=
    "Môn không cấm thi do điểm danh (tỷ lệ phải đi học = 0) — hệ thống tự đóng khi rà soát sau import điểm danh"

  datatype ReviewRow = ReviewRow(student: StudentId, section: SectionId, absentSessions: Option<int>)

  /** Everything the pass is told: the term, what it reads besides the alerts, and the library's part. */
  datatype Review = Review(
    term: TermCode,
    isExempt: SectionId -> bool,
    actor: Option<StaffId>,
    rows: seq<ReviewRow>,
    newIds: seq<AlertId>,
    now: int,
    texts: Texts,
    reasonFor: ReviewRow -> string,
    notified: (ReviewRow, int) -> nat)

  datatype Result = Result(created: nat, upgraded: nat, kept: nat, notified: nat, closed: nat)

  function Add(a: Result, b: Result): Result {
    Result(a.created + b.created, a.upgraded + b.upgraded, a.kept + b.kept,
           a.notified + b.notified, a.closed + b.closed)
  }

  function SubjectOfRow(row: ReviewRow, term: TermCode): Subject {
    Subject(row.student, Some(row.section), Some(term))
  }

  /** The load filter: two absences at least, in a section that attendance can bar from the exam. */
  predicate IsLoaded(row: ReviewRow, v: Review) {
    row.absentSessions.Some? && row.absentSessions.value >= D.MEDIUM && !v.isExempt(row.section)
  }

  /** One row for each enrolment, and an id for each alert that may be created. */
  ghost predicate IsReview(v: Review, alerts: AlertTable) {
    && |v.newIds| == |v.rows|
    && (forall k :: 0 <= k < |v.rows| ==> IsLoaded(v.rows[k], v) && v.newIds[k] !in alerts)
    && (forall j, k :: 0 <= j < k < |v.rows| ==> v.newIds[j] != v.newIds[k] && AreOtherRows(v.rows[j], v.rows[k]))
  }

  predicate AreOtherRows(a: ReviewRow, b: ReviewRow) {
    a.student != b.student || a.section != b.section
  }

  // ---- Closing the automatic alerts of exempt subjects ----

  predicate IsToClose(a: Alert, v: Review) {
    && a.term == Some(v.term) && a.source == AUTO_ATTENDANCE && IsUnresolved(a)
    && a.section.Some? && v.isExempt(a.section.value)
  }

  function ClosedAlert(a: Alert, v: Review): Alert {
    if IsToClose(a, v) then Resolved(a, Resolution(v.actor, v.now, EXEMPT_SUBJECT_NOTE, None)) else a
  }

  function Closed(alerts: AlertTable, v: Review): AlertTable {
    map i | i in alerts :: ClosedAlert(alerts[i], v)
  }

  function ClosedIds(alerts: AlertTable, v: Review): set<AlertId> {
    set i | i in alerts && IsToClose(alerts[i], v)
  }

  // ---- The highest open alert of each enrolment ----

  predicate IsOpenInTerm(a: Alert, term: TermCode) {
    IsUnresolved(a) && a.term == Some(term)
  }

  /** The open alerts of the term, in whatever order the query returns them. */
  ghost predicate ListsOpen(open: seq<AlertId>, alerts: AlertTable, term: TermCode) {
    && (forall k :: 0 <= k < |open| ==> open[k] in alerts)
    && (forall i :: i in alerts ==> (i in open <==> IsOpenInTerm(alerts[i], term)))
  }

  datatype Place = Place(student: StudentId, section: Option<SectionId>)

  function PlaceOf(a: Alert): Place {
    Place(a.student, a.section)
  }

  ghost predicate IsHighestAt(i: AlertId, place: Place, seen: seq<AlertId>, alerts: AlertTable)
    requires forall k :: 0 <= k < |seen| ==> seen[k] in alerts
  {
    && i in seen && PlaceOf(alerts[i]) == place
    && forall k :: 0 <= k < |seen| && PlaceOf(alerts[seen[k]]) == place ==> alerts[seen[k]].level <= alerts[i].level
  }

  ghost predicate IsHighestMap(byPlace: map<Place, AlertId>, seen: seq<AlertId>, alerts: AlertTable)
    requires forall k :: 0 <= k < |seen| ==> seen[k] in alerts
  {
    && (forall p :: p in byPlace ==> IsHighestAt(byPlace[p], p, seen, alerts))
    && (forall k :: 0 <= k < |seen| ==> PlaceOf(alerts[seen[k]]) in byPlace)
  }

  method HighestByKey(open: seq<AlertId>, alerts: AlertTable) returns (byPlace: map<Place, AlertId>)
    requires forall k :: 0 <= k < |open| ==> open[k] in alerts
    ensures IsHighestMap(byPlace, open, alerts)
  {
    byPlace := map[];
    for k := 0 to |open|
      invariant IsHighestMap(byPlace, open[..k], alerts)
    {
      HighestStep(byPlace, open[..k], open[k], alerts);
      assert open[..k + 1] == open[..k] + [open[k]];
      var place := PlaceOf(alerts[open[k]]);
      if !(place in byPlace && alerts[byPlace[place]].level >= alerts[open[k]].level) {
        byPlace := byPlace[place := open[k]];
      }
    }
    assert open[..|open|] == open;
  }

  lemma HighestStep(byPlace: map<Place, AlertId>, seen: seq<AlertId>, next: AlertId, alerts: AlertTable)
    requires (forall k :: 0 <= k < |seen| ==> seen[k] in alerts) && next in alerts
    requires IsHighestMap(byPlace, seen, alerts)
    ensures forall k :: 0 <= k < |seen + [next]| ==> (seen + [next])[k] in alerts
    ensures var place := PlaceOf(alerts[next]);
            var isKept := place in byPlace && byPlace[place] in alerts
                          && alerts[byPlace[place]].level >= alerts[next].level;
            var byPlace' := if isKept then byPlace else byPlace[place := next];
            IsHighestMap(byPlace', seen + [next], alerts)
    ensures PlaceOf(alerts[next]) in byPlace ==> byPlace[PlaceOf(alerts[next])] in alerts
  {
    var place := PlaceOf(alerts[next]);
    var longer := seen + [next];
    forall k | 0 <= k < |longer|
      ensures longer[k] in alerts
    {
      assert k < |seen| ==> longer[k] == seen[k];
    }
    if place in byPlace {
      assert IsHighestAt(byPlace[place], place, seen, alerts);
    }
    var byPlace' := if place in byPlace && alerts[byPlace[place]].level >= alerts[next].level
                    then byPlace else byPlace[place := next];
    forall p | p in byPlace'
      ensures IsHighestAt(byPlace'[p], p, longer, alerts)
    {
      if p in byPlace {
        assert IsHighestAt(byPlace[p], p, seen, alerts);
        assert byPlace[p] in longer;
      }
      assert longer[|seen|] == next;
    }
    forall k | 0 <= k < |longer|
      ensures PlaceOf(alerts[longer[k]]) in byPlace'
    {
      assert k < |seen| ==> PlaceOf(alerts[seen[k]]) in byPlace;
    }
  }

  // ---- One row ----

  function NextReason(row: ReviewRow, existing: Alert, v: Review): string {
    if existing.source == AUTO_ATTENDANCE then v.reasonFor(row)
    else MergedReason(existing.reason, v.reasonFor(row), v.now, v.texts)
  }

  function Deciding(existing: Option<Alert>): Option<D.OpenAttendanceAlert> {
    if existing.None? then None
    else Some(D.OpenAttendanceAlert(existing.value.level, existing.value.absentSessions))
  }

  /** What the row makes of the alert that is open for it. */
  function Reviewed(row: ReviewRow, existing: Alert, v: Review): Alert {
    match D.DecideAction(row.absentSessions, Deciding(Some(existing)))
    case Upgrade(level) =>
      Reopened(existing, level, NextReason(row, existing, v)).(absentSessions := row.absentSessions)
    case Refresh(_) =>
      existing.(absentSessions := row.absentSessions, reason := NextReason(row, existing, v))
    case _ => existing
  }

  /** The alert that the row creates where none is open. */
  function AutoAlert(row: ReviewRow, level: int, v: Review): Alert {
    NewAlert(SubjectOfRow(row, v.term), level, v.reasonFor(row), None, AUTO_ATTENDANCE, row.absentSessions, v.now)
  }

  /** The index on open automatic alerts refuses a second one for the same subject. */
  predicate IsTaken(alerts: AlertTable, subject: Subject) {
    exists i :: i in alerts && IsOpenFor(alerts[i], subject) && alerts[i].source == AUTO_ATTENDANCE
  }

  function LevelOfRow(row: ReviewRow): int {
    if row.absentSessions.Some? && row.absentSessions.value >= D.HIGH then 3 else 2
  }

  /** The table after one row; a creation that the index refuses changes nothing. */
  function AfterRow(
    alerts: AlertTable, row: ReviewRow, existing: Option<AlertId>, newId: AlertId, v: Review): AlertTable
    requires existing.Some? ==> existing.value in alerts
  {
    if existing.Some? then alerts[existing.value := Reviewed(row, alerts[existing.value], v)]
    else if IsTaken(alerts, SubjectOfRow(row, v.term)) then alerts
    else alerts[newId := AutoAlert(row, LevelOfRow(row), v)]
  }

  predicate IsUpgrade(row: ReviewRow, existing: Alert) {
    D.DecideAction(row.absentSessions, Deciding(Some(existing))).Upgrade?
  }

  /** One row counts as exactly one of created, upgraded and kept; nobody is told of a kept alert. */
  function ResultOfRow(alerts: AlertTable, row: ReviewRow, existing: Option<AlertId>, v: Review): Result
    requires existing.Some? ==> existing.value in alerts
  {
    if existing.Some? then
      if IsUpgrade(row, alerts[existing.value]) then Result(0, 1, 0, v.notified(row, 3), 0) else Result(0, 0, 1, 0, 0)
    else if IsTaken(alerts, SubjectOfRow(row, v.term)) then Result(0, 0, 1, 0, 0)
    else Result(1, 0, 0, v.notified(row, LevelOfRow(row)), 0)
  }

  method ReviewTheRow(alerts: AlertTable, row: ReviewRow, existing: Option<AlertId>, newId: AlertId, v: Review)
    returns (alerts': AlertTable, result: Result)
    requires existing.Some? ==> existing.value in alerts
    requires IsLoaded(row, v)
    ensures alerts' == AfterRow(alerts, row, existing, newId, v)
    ensures result == ResultOfRow(alerts, row, existing, v)
  {
    alerts' := alerts;
    var deciding := Deciding(if existing.Some? then Some(alerts[existing.value]) else None);
    var action := D.DecideAction(row.absentSessions, deciding);
    match action {
      case Skip =>
        assert false;
      case Unchanged =>
        result := Result(0, 0, 1, 0, 0);
      case Refresh(_) =>
        var a := alerts[existing.value];
        alerts' := alerts[existing.value := a.(absentSessions := row.absentSessions, reason := NextReason(row, a, v))];
        result := Result(0, 0, 1, 0, 0);
      case Create(level) =>
        if IsTaken(alerts, SubjectOfRow(row, v.term)) {
          result := Result(0, 0, 1, 0, 0);
        } else {
          alerts' := alerts[newId := AutoAlert(row, level, v)];
          result := Result(1, 0, 0, v.notified(row, level), 0);
        }
      case Upgrade(level) =>
        var a := alerts[existing.value];
        alerts' := alerts[existing.value :=
                            Reopened(a, level, NextReason(row, a, v)).(absentSessions := row.absentSessions)];
        result := Result(0, 1, 0, v.notified(row, level), 0);
    }
  }
}
