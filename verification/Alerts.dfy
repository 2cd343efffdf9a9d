/**
 Alerts and the care logs that answer them (apps/api/prisma/schema.prisma:460-491, 508-544), and what every
 step of their life is to keep.
 */
module Alerts {
  import opened Options

  type StudentId = nat
  type SectionId = nat
  type StaffId = nat
  type AlertId = nat
  type LogId = nat
  type TermCode = string

  datatype AlertStatus = OPEN | ACKNOWLEDGED | RESOLVED

  datatype AlertSource = MANUAL | AUTO_ATTENDANCE

  datatype AlertOutcome = PASSED | EXAM_BANNED | FAILED

  /** Who closed an alert, when, with which note and outcome; the review closes without an outcome. */
  datatype Resolution = Resolution(resolver: Option<StaffId>, at: int, note: string, outcome: Option<AlertOutcome>)

  datatype Alert = Alert(
    student: StudentId, section: Option<SectionId>, term: Option<TermCode>, raisedBy: Option<StaffId>,
    level: int, reason: string, status: AlertStatus, source: AlertSource,
    absentSessions: Option<int>, ownerCaredAt: Option<int>, createdAt: int, resolution: Option<Resolution>)

  datatype CareLog = CareLog(student: StudentId, staff: StaffId, alert: Option<AlertId>, section: Option<SectionId>)

  /** The tables that the steps read and write. */
  datatype Board = Board(alerts: map<AlertId, Alert>, logs: map<LogId, CareLog>)

  /** What an open alert stands for. */
  datatype Subject = Subject(student: StudentId, section: Option<SectionId>, term: Option<TermCode>)

  function SubjectOf(a: Alert): Subject {
    Subject(a.student, a.section, a.term)
  }

  predicate IsUnresolved(a: Alert) {
    a.status != RESOLVED
  }

  /** Who teaches a section; fixed while the steps run. */
  type Lecturers = SectionId -> Option<StaffId>

  predicate IsOwner(a: Alert, staff: StaffId, lecturers: Lecturers) {
    a.section.Some? && lecturers(a.section.value) == Some(staff)
  }

  // ---- What every step keeps ----

  ghost predicate HasOneOpenPerSubject(alerts: map<AlertId, Alert>) {
    forall i, j :: i in alerts && j in alerts && i != j ==> AreApart(alerts[i], alerts[j])
  }

  predicate AreApart(a: Alert, b: Alert) {
    IsUnresolved(a) && IsUnresolved(b) ==> SubjectOf(a) != SubjectOf(b)
  }

  /** One of the four levels, and a resolution exactly when it is resolved. */
  predicate IsSoundAlert(a: Alert) {
    1 <= a.level <= 4 && (a.status == RESOLVED <==> a.resolution.Some?)
  }

  ghost predicate AreSoundAlerts(alerts: map<AlertId, Alert>) {
    forall i :: i in alerts ==> IsSoundAlert(alerts[i])
  }

  /** The lecturer's care is on record. */
  ghost predicate IsBacked(b: Board, i: AlertId, lecturers: Lecturers)
    requires i in b.alerts
  {
    b.alerts[i].ownerCaredAt.Some? ==> exists l :: l in b.logs && Backs(b, l, i, lecturers)
  }

  predicate Backs(b: Board, l: LogId, i: AlertId, lecturers: Lecturers)
    requires l in b.logs && i in b.alerts
  {
    b.logs[l].alert == Some(i) && IsOwner(b.alerts[i], b.logs[l].staff, lecturers)
  }

  ghost predicate IsCareBacked(b: Board, lecturers: Lecturers) {
    forall i :: i in b.alerts ==> IsBacked(b, i, lecturers)
  }

  /** Every alert is sound by itself, and every mark of care has its log. */
  ghost predicate IsSound(b: Board, lecturers: Lecturers) {
    AreSoundAlerts(b.alerts) && IsCareBacked(b, lecturers)
  }

  ghost predicate Invariant(b: Board, lecturers: Lecturers) {
    HasOneOpenPerSubject(b.alerts) && IsSound(b, lecturers)
  }

  /** How an alert may change while it exists: its level never falls, and resolved it stays as it was resolved. */
  predicate MovesOn(a: Alert, a': Alert) {
    && SubjectOf(a') == SubjectOf(a)
    && a'.level >= a.level
    && (a.status == RESOLVED ==> a'.status == RESOLVED && a'.level == a.level && a'.resolution == a.resolution)
  }

  ghost predicate MoveOn(alerts: map<AlertId, Alert>, alerts': map<AlertId, Alert>) {
    forall i :: i in alerts && i in alerts' ==> MovesOn(alerts[i], alerts'[i])
  }

  /** The step leaves a sound board, only moves alerts on, and adds no second open alert of a subject. */
  ghost predicate Keeps(b: Board, after: Board, lecturers: Lecturers) {
    && IsSound(after, lecturers) && MoveOn(b.alerts, after.alerts)
    && (HasOneOpenPerSubject(b.alerts) ==> HasOneOpenPerSubject(after.alerts))
  }
}
