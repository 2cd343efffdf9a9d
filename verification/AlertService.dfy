/**
 The services as they read and write the tables
 (apps/api/src/modules/alerts/alerts.service.ts:205-311, 411-470, 588-690,
 apps/api/src/modules/care-logs/care-logs.service.ts:102-152, 208-323,
 apps/api/src/modules/student-analyses/student-analyses.service.ts:638-709,
 packages/shared-types/src/alerts.ts:78-133, packages/shared-types/src/roles.ts:33-46).
 A refused request changes nothing; an accepted one makes the step that `AlertSteps` describes.
 */
module AlertService {
  import opened Options
  import opened Alerts
  import opened RaiseDecision
  import opened AlertSteps
  import opened AttendanceReview
  import opened AttendancePass
  import opened AttendanceOutcome
  import opened AlertRuns

  datatype Role = ADMIN | HEAD_OF_DEPT | LECTURER | TRAINING_OFFICER | SA_OFFICER | SA_HEAD

  datatype User = User(id: StaffId, roles: set<Role>)

  datatype RaiseRequest = RaiseRequest(student: StudentId, section: Option<SectionId>, level: int, reason: string)

  datatype Reply = Done | BadRequest | Forbidden | NotFound | Conflict

  // ---- The tables beside alerts and care logs ----

  type EvaluationId = nat
  type MessageId = nat
  type NotificationId = nat
  type VersionId = nat

  datatype AnalysisStatus = QUEUED | GENERATING | DRAFT | FAILED | SUPERSEDED | SEND_QUEUED | SENT

  datatype AnalysisVersion = AnalysisVersion(
    student: StudentId, term: TermCode, status: AnalysisStatus, alert: Option<AlertId>)

  datatype Notification = Notification(alert: Option<AlertId>, message: Option<MessageId>)

  datatype Records = Records(
    evaluations: map<EvaluationId, StudentId>,
    messages: map<MessageId, StudentId>,
    readMarks: set<(StudentId, StaffId)>,
    notifications: map<NotificationId, Notification>,
    versions: map<VersionId, AnalysisVersion>)

  predicate IsLinked(alert: Option<AlertId>, ids: set<AlertId>) {
    alert.Some? && alert.value in ids
  }

  function WithoutStudents(rows: map<nat, StudentId>, students: set<StudentId>): map<nat, StudentId> {
    map k | k in rows && rows[k] !in students :: rows[k]
  }

  /** Notifications go with their alert or with their message. */
  function NotificationsLeft(
    r: Records, ids: set<AlertId>, students: set<StudentId>): map<NotificationId, Notification>
  {
    map n | n in r.notifications && !IsLinked(r.notifications[n].alert, ids)
            && !(r.notifications[n].message.Some? && r.notifications[n].message.value in r.messages
                 && r.messages[r.notifications[n].message.value] in students)
      :: r.notifications[n]
  }

  /** Versions of analyses stay, and lose the link to a deleted alert. */
  function VersionsLeft(r: Records, ids: set<AlertId>): map<VersionId, AnalysisVersion> {
    map v | v in r.versions ::
      if IsLinked(r.versions[v].alert, ids) then r.versions[v].(alert := None) else r.versions[v]
  }

  /** What is left when alerts are deleted with everything that was written about their students. */
  function RecordsWithout(r: Records, ids: set<AlertId>, students: set<StudentId>): Records {
    Records(WithoutStudents(r.evaluations, students), WithoutStudents(r.messages, students),
            (set m | m in r.readMarks && m.0 !in students),
            NotificationsLeft(r, ids, students), VersionsLeft(r, ids))
  }

  /** How many rows of each kind a deletion takes away, and how many versions it unlinks. */
  datatype Deletion = Deletion(
    careLogs: int, evaluations: int, messages: int, notifications: int, versionsUnlinked: int)

  const NOTHING_DELETED := Deletion(0, 0, 0, 0, 0)

  function LinkedNotifications(r: Records, ids: set<AlertId>): set<NotificationId> {
    set n | n in r.notifications && IsLinked(r.notifications[n].alert, ids)
  }

  function LinkedVersions(r: Records, ids: set<AlertId>): set<VersionId> {
    set v | v in r.versions && IsLinked(r.versions[v].alert, ids)
  }

  /** What was there and is not any more is counted. */
  ghost predicate Counts(d: Deletion, logs: nat, logs': nat, r: Records, r': Records, ids: set<AlertId>) {
    && d.careLogs == logs - logs'
    && d.evaluations == |r.evaluations| - |r'.evaluations| && d.messages == |r.messages| - |r'.messages|
    && d.notifications == |LinkedNotifications(r, ids)| && d.versionsUnlinked == |LinkedVersions(r, ids)|
  }

  /** Some of the alerts is about the student. */
  ghost predicate IsAbout(alerts: map<AlertId, Alert>, ids: set<AlertId>, student: StudentId) {
    exists i :: i in ids && i in alerts && alerts[i].student == student
  }

  /**
   What a deletion leaves: the other alerts, the care logs that answer none of the deleted, and what was written
   about other students.  A notification goes with its alert, and with its message when that goes.
   */
  lemma DeletionLeaves(b: Board, r: Records, ids: set<AlertId>)
    requires ids <= b.alerts.Keys
    ensures var left, kept := WithoutAlerts(b, ids), RecordsWithout(r, ids, set i | i in ids :: b.alerts[i].student);
            && (forall i :: i in left.alerts <==> i in b.alerts && i !in ids)
            && (forall i :: i in left.alerts ==> left.alerts[i] == b.alerts[i])
            && (forall l :: l in left.logs <==> l in b.logs && forall i :: i in ids ==> b.logs[l].alert != Some(i))
            && (forall l :: l in left.logs ==> left.logs[l] == b.logs[l])
            && (forall e :: e in kept.evaluations <==> e in r.evaluations && !IsAbout(b.alerts, ids, r.evaluations[e]))
            && (forall m :: m in kept.messages <==> m in r.messages && !IsAbout(b.alerts, ids, r.messages[m]))
            && (forall m :: m in kept.readMarks <==> m in r.readMarks && !IsAbout(b.alerts, ids, m.0))
            && (forall n :: n in kept.notifications <==>
                  n in r.notifications && StaysWith(b.alerts, r, r.notifications[n], ids))
            && kept.versions.Keys == r.versions.Keys
            && (forall v :: v in r.versions ==> kept.versions[v] == Unlinked(r.versions[v], ids))
  {
    var students := set i | i in ids :: b.alerts[i].student;
    forall student
      ensures student in students <==> IsAbout(b.alerts, ids, student)
    {
      if student in students {
        var i :| i in ids && b.alerts[i].student == student;
      }
    }
  }

  ghost predicate StaysWith(alerts: map<AlertId, Alert>, r: Records, n: Notification, ids: set<AlertId>) {
    && (n.alert.Some? ==> n.alert.value !in ids)
    && (n.message.Some? && n.message.value in r.messages ==> !IsAbout(alerts, ids, r.messages[n.message.value]))
  }

  function Unlinked(version: AnalysisVersion, ids: set<AlertId>): AnalysisVersion {
    if version.alert.Some? && version.alert.value in ids then
      AnalysisVersion(version.student, version.term, version.status, None)
    else version
  }

  // ---- Who may do what ----

  const MIN_CRITICAL_REASON_LENGTH: nat := 40

  function MinVisibleAlertLevel(roles: set<Role>): int {
    if roles != {} && roles <= {SA_OFFICER, SA_HEAD} then 3 else 1
  }

  predicate CanAcknowledge(user: User, raisedBy: Option<StaffId>) {
    || user.roles * {ADMIN, HEAD_OF_DEPT, TRAINING_OFFICER, SA_HEAD} != {}
    || (LECTURER in user.roles && raisedBy != Some(user.id))
  }

  /** The section's lecturer closes an alert; where there is none, whoever raised it. */
  predicate CanClose(user: User, lecturer: Option<StaffId>, raisedBy: Option<StaffId>) {
    || user.roles * {ADMIN, HEAD_OF_DEPT} != {}
    || (LECTURER in user.roles && (if lecturer.Some? then lecturer else raisedBy) == Some(user.id))
  }

  lemma HasRoleOf(held: set<Role>, asked: set<Role>)
    ensures held * asked != {} <==> exists role :: role in asked && role in held
  {
    if role :| role in asked && role in held {
      assert role in held * asked;
    }
  }

  lemma WhoAcknowledges(user: User, raisedBy: Option<StaffId>)
    ensures CanAcknowledge(user, raisedBy)
       <==> || ADMIN in user.roles || HEAD_OF_DEPT in user.roles || TRAINING_OFFICER in user.roles
            || SA_HEAD in user.roles || (LECTURER in user.roles && raisedBy != Some(user.id))
  {
    HasRoleOf(user.roles, {ADMIN, HEAD_OF_DEPT, TRAINING_OFFICER, SA_HEAD});
  }

  lemma WhoCloses(user: User, lecturer: Option<StaffId>, raisedBy: Option<StaffId>)
    ensures CanClose(user, lecturer, raisedBy)
       <==> || ADMIN in user.roles || HEAD_OF_DEPT in user.roles
            || (LECTURER in user.roles && lecturer == Some(user.id))
            || (LECTURER in user.roles && lecturer.None? && raisedBy == Some(user.id))
  {
    HasRoleOf(user.roles, {ADMIN, HEAD_OF_DEPT});
  }

  class AlertDesk {
    var alerts: map<AlertId, Alert>
    var logs: map<LogId, CareLog>
    var records: Records
    const lecturers: Lecturers
    const termOf: SectionId -> TermCode
    const texts: Texts
    const inScope: (User, StudentId) -> bool
    const isEnrolled: (StudentId, SectionId) -> bool

    function Tables(): Board
      reads this
    {
      Board(alerts, logs)
    }

    /** Two open alerts for one subject are possible: a sent analysis does not look for one. */
    ghost predicate Valid()
      reads this
    {
      IsSound(Tables(), lecturers)
    }

    function LecturerOf(a: Alert): Option<StaffId> {
      if a.section.Some? then lecturers(a.section.value) else None
    }

    constructor (
      lecturers: Lecturers, termOf: SectionId -> TermCode, texts: Texts, inScope: (User, StudentId) -> bool,
      isEnrolled: (StudentId, SectionId) -> bool, records: Records)
      ensures Valid() && HasOneOpenPerSubject(alerts) && Tables() == Board(map[], map[])
    {
      EmptyBoardKeeps(lecturers);
      alerts, logs := map[], map[];
      this.lecturers, this.termOf, this.texts := lecturers, termOf, texts;
      this.inScope, this.isEnrolled := inScope, isEnrolled;
      this.records := records;
    }

    /** The alert is about the student in the section, in the term of the section. */
    function SubjectOfRequest(request: RaiseRequest): Subject {
      var term := if request.section.Some? then Some(termOf(request.section.value)) else None;
      Subject(request.student, request.section, term)
    }

    /** Without a term no level is computed. */
    function SystemLevel(request: RaiseRequest, computedLevel: int): int {
      if request.section.Some? && termOf(request.section.value) != "" then computedLevel else 1
    }

    /** The raise that a request of the user comes to. */
    function RaiseOf(
      user: User, request: RaiseRequest, computedLevel: int, found: Option<AlertId>, newId: AlertId, now: int): Raise
    {
      AlertSteps.Raise(SubjectOfRequest(request), request.level, SystemLevel(request, computedLevel), request.reason,
                       user.id, found, newId, now)
    }

    lemma FoundIsThere(r: Raise)
      requires Valid() && IsFirstOpen(alerts, r.subject, r.found)
      ensures r.found.Some? ==> r.found.value in alerts && IsSoundAlert(alerts[r.found.value])
    {}

    /**
     `computedLevel` is the level of the risk score, `found` the open alert that the query returns.  A critical
     request takes forty characters of reason, and student affairs alone request levels 3 and 4 only.  An alert
     that is made names the user as the one who raised it; an open one keeps whoever did.
     */
    method Raise(
      user: User, request: RaiseRequest, computedLevel: int, found: Option<AlertId>, newId: AlertId, now: int)
      returns (reply: Reply, decision: Option<RaiseDecision>)
      requires Valid() && IsFirstOpen(alerts, SubjectOfRequest(request), found) && newId !in alerts
      modifies this`alerts
      ensures Valid() && MoveOn(old(alerts), alerts)
      ensures HasOneOpenPerSubject(old(alerts)) ==> HasOneOpenPerSubject(alerts)
      ensures reply == Done <==>
                && inScope(user, request.student)
                && (request.section.Some? ==> isEnrolled(request.student, request.section.value))
                && request.level >= (if user.roles != {} && user.roles <= {SA_OFFICER, SA_HEAD} then 3 else 1)
                && (request.level == 4 ==> |texts.trim(request.reason)| >= 40)
      ensures reply == Done ==>
                var r := RaiseOf(user, request, computedLevel, found, newId, now);
                decision == Some(DecisionOf(old(alerts), r)) && alerts == Raised(old(alerts), r, texts)
      ensures reply == Done ==>
                var id := if found.Some? then found.value else newId;
                id in alerts && alerts == old(alerts)[id := alerts[id]]
      ensures reply == Done && found.None? ==>
                IsMadeFor(alerts[newId], SubjectOfRequest(request), request.level, SystemLevel(request, computedLevel),
                          request.reason, user.id, now, texts)
      ensures reply == Done && found.Some? ==>
                IsRaisedFrom(old(alerts)[found.value], alerts[found.value], request.level,
                             SystemLevel(request, computedLevel), request.reason, now, texts)
      ensures reply != Done ==> alerts == old(alerts) && decision == None
    {
      hide IsSound, HasOneOpenPerSubject, MoveOn, IsFirstOpen, MergedReason, IsOpenFor, IsMadeFor, IsRaisedFrom;
      ghost var r := RaiseOf(user, request, computedLevel, found, newId, now);
      FoundIsThere(r);
      RaisingKeeps(Tables(), r, texts, lecturers);
      RaisingSays(alerts, r, texts);
      MovesNowhere(alerts);
      decision := None;
      if request.level == 4 && |texts.trim(request.reason)| < MIN_CRITICAL_REASON_LENGTH {
        return BadRequest, None;
      }
      if request.level < MinVisibleAlertLevel(user.roles) {
        return BadRequest, None;
      }
      if !inScope(user, request.student) {
        return NotFound, None;
      }
      if request.section.Some? && !isEnrolled(request.student, request.section.value) {
        return BadRequest, None;
      }
      var term := if request.section.Some? then Some(termOf(request.section.value)) else None;
      var systemLevel := if term.Some? && term.value != "" then computedLevel else 1;
      var open := if found.Some? then Some(OpenAlert(found.value, alerts[found.value].level)) else None;
      var chosen := DecideRaise(request.level, systemLevel, open);
      match chosen {
        case Create(level, bySystem) =>
          var reason := if bySystem then request.reason + "\n\n" + texts.note(request.level, level) else request.reason;
          alerts := alerts[newId := Alert(request.student, request.section, term, Some(user.id), level, reason, OPEN,
                                          MANUAL, None, None, now, None)];
        case Escalate(id, _, level, bySystem) =>
          var addition := if bySystem then request.reason + "\n" + texts.note(request.level, level) else request.reason;
          var reason := MergedReason(alerts[id].reason, addition, now, texts);
          alerts := alerts[id := alerts[id].(level := level, reason := reason, status := OPEN, ownerCaredAt := None)];
        case Merge(id, _) =>
          alerts := alerts[id := alerts[id].(reason := MergedReason(alerts[id].reason, request.reason, now, texts))];
      }
      return Done, Some(chosen);
    }

    method Acknowledge(user: User, id: AlertId) returns (reply: Reply)
      requires Valid()
      modifies this`alerts
      ensures Valid() && MoveOn(old(alerts), alerts)
      ensures HasOneOpenPerSubject(old(alerts)) ==> HasOneOpenPerSubject(alerts)
      ensures reply == Done <==>
                && id in old(alerts) && inScope(user, old(alerts)[id].student) && old(alerts)[id].status == OPEN
                && (|| ADMIN in user.roles || HEAD_OF_DEPT in user.roles || TRAINING_OFFICER in user.roles
                    || SA_HEAD in user.roles
                    || (LECTURER in user.roles && old(alerts)[id].raisedBy != Some(user.id)))
      ensures alerts == if reply == Done then
                          old(alerts)[id := old(alerts)[id].(status := ACKNOWLEDGED)]
                        else old(alerts)
    {
      hide IsSound, HasOneOpenPerSubject, MoveOn;
      MovesNowhere(alerts);
      if id !in alerts {
        return NotFound;
      }
      if !inScope(user, alerts[id].student) {
        return Forbidden;
      }
      if alerts[id].status != OPEN {
        return BadRequest;
      }
      WhoAcknowledges(user, alerts[id].raisedBy);
      if !CanAcknowledge(user, alerts[id].raisedBy) {
        return Forbidden;
      }
      AcknowledgingKeeps(Tables(), id, lecturers);
      alerts := alerts[id := alerts[id].(status := ACKNOWLEDGED)];
      return Done;
    }

    method Resolve(user: User, id: AlertId, note: string, outcome: AlertOutcome, now: int) returns (reply: Reply)
      requires Valid()
      modifies this`alerts
      ensures Valid() && MoveOn(old(alerts), alerts)
      ensures HasOneOpenPerSubject(old(alerts)) ==> HasOneOpenPerSubject(alerts)
      ensures reply == Done <==>
                && id in old(alerts) && inScope(user, old(alerts)[id].student) && old(alerts)[id].status != RESOLVED
                && (|| ADMIN in user.roles || HEAD_OF_DEPT in user.roles
                    || (LECTURER in user.roles && IsOwner(old(alerts)[id], user.id, lecturers))
                    || (LECTURER in user.roles && old(alerts)[id].raisedBy == Some(user.id)
                        && (old(alerts)[id].section.Some? ==> lecturers(old(alerts)[id].section.value).None?)))
      ensures reply != Done ==> alerts == old(alerts)
      ensures reply == Done ==>
                alerts == old(alerts)[id := old(alerts)[id].(status := RESOLVED,
                  resolution := Some(Resolution(Some(user.id), now, note, Some(outcome))))]
    {
      hide IsSound, HasOneOpenPerSubject, MoveOn;
      MovesNowhere(alerts);
      if id !in alerts {
        return NotFound;
      }
      if !inScope(user, alerts[id].student) {
        return Forbidden;
      }
      if alerts[id].status == RESOLVED {
        return BadRequest;
      }
      WhoCloses(user, LecturerOf(alerts[id]), alerts[id].raisedBy);
      if !CanClose(user, LecturerOf(alerts[id]), alerts[id].raisedBy) {
        return Forbidden;
      }
      var resolution := Resolution(Some(user.id), now, note, Some(outcome));
      ResolvingKeeps(Tables(), id, resolution, lecturers);
      alerts := alerts[id := alerts[id].(status := RESOLVED, resolution := Some(resolution))];
      return Done;
    }

    /** The care answers an alert that still waits for that of its section's own lecturer. */
    predicate IsFirstOwnerCare(a: Alert, staff: StaffId) {
      a.ownerCaredAt.None? && a.section.Some? && lecturers(a.section.value) == Some(staff)
    }

    method CreateCareLog(
      user: User, student: StudentId, alert: Option<AlertId>, section: Option<SectionId>, newId: LogId, now: int)
      returns (reply: Reply, ownerCared: bool)
      requires Valid() && newId !in logs
      modifies this`alerts, this`logs
      ensures Valid() && MoveOn(old(alerts), alerts)
      ensures HasOneOpenPerSubject(old(alerts)) ==> HasOneOpenPerSubject(alerts)
      ensures reply == Done <==>
                && inScope(user, student)
                && (alert.Some? ==> alert.value in old(alerts) && old(alerts)[alert.value].student == student)
                && (section.Some? ==> isEnrolled(student, section.value))
      ensures reply != Done ==> Tables() == old(Tables()) && !ownerCared
      ensures reply == Done ==>
                logs == old(logs)[newId := CareLog(student, user.id, alert,
                  if section.None? && alert.Some? then old(alerts)[alert.value].section else section)]
      ensures ownerCared <==> reply == Done && alert.Some? && IsFirstOwnerCare(old(alerts)[alert.value], user.id)
      ensures reply == Done && !ownerCared ==> alerts == old(alerts)
      ensures ownerCared ==>
                alerts == old(alerts)[alert.value := old(alerts)[alert.value].(
                  ownerCaredAt := Some(now),
                  status := if old(alerts)[alert.value].status == RESOLVED then RESOLVED else ACKNOWLEDGED)]
    {
      hide IsSound, HasOneOpenPerSubject, MoveOn;
      MovesNowhere(alerts);
      if !inScope(user, student) {
        return NotFound, false;
      }
      if alert.Some? && alert.value !in alerts {
        return NotFound, false;
      }
      if alert.Some? && alerts[alert.value].student != student {
        return BadRequest, false;
      }
      if section.Some? && !isEnrolled(student, section.value) {
        return BadRequest, false;
      }
      var ofAlert := if alert.Some? then alerts[alert.value].section else None;
      var log := CareLog(student, user.id, alert, if section.Some? then section else ofAlert);
      LoggingKeeps(Tables(), log, newId, lecturers, now);
      logs := logs[newId := log];
      ownerCared := false;
      if alert.Some? {
        ownerCared := MarkOwnerCared(alert.value, user.id, now);
      }
      return Done, ownerCared;
    }

    method MarkOwnerCared(id: AlertId, staff: StaffId, now: int) returns (marked: bool)
      requires id in alerts
      modifies this`alerts
      ensures alerts == old(alerts)[id := OwnerCared(old(alerts)[id], staff, lecturers, now)]
      ensures marked <==> IsFirstOwnerCare(old(alerts)[id], staff)
    {
      var a := alerts[id];
      var isOwner := LecturerOf(a) == Some(staff);
      if !isOwner || a.ownerCaredAt.Some? {
        return false;
      }
      var status := if a.status == OPEN then ACKNOWLEDGED else a.status;
      alerts := alerts[id := a.(ownerCaredAt := Some(now), status := status)];
      return true;
    }

    /** The log is the section's lecturer's own about a cared-for alert, and there is no other of theirs about it. */
    ghost predicate IsLastOwnerCare(b: Board, id: LogId) {
      && id in b.logs && b.logs[id].alert.Some? && b.logs[id].alert.value in b.alerts
      && b.alerts[b.logs[id].alert.value].ownerCaredAt.Some?
      && IsOwner(b.alerts[b.logs[id].alert.value], b.logs[id].staff, lecturers)
      && forall l :: l in b.logs && l != id ==> !IsLogOf(b.logs[l], b.logs[id].alert.value, b.logs[id].staff)
    }

    lemma LastOwnerCareIs(b: Board, id: LogId)
      requires id in b.logs
      ensures var log := b.logs[id];
              IsLastOwnerCare(b, id) <==>
              && log.alert.Some? && log.alert.value in b.alerts && b.alerts[log.alert.value].ownerCaredAt.Some?
              && IsOwner(b.alerts[log.alert.value], log.staff, lecturers)
              && !HasLogOf(b.logs - {id}, log.alert.value, log.staff)
    {
      var log, rest := b.logs[id], b.logs - {id};
      if log.alert.Some? && HasLogOf(rest, log.alert.value, log.staff) {
        var l :| l in rest && IsLogOf(rest[l], log.alert.value, log.staff);
        assert l in b.logs && l != id && IsLogOf(b.logs[l], log.alert.value, log.staff);
      }
      if log.alert.Some? && !HasLogOf(rest, log.alert.value, log.staff) {
        assert forall l :: l in b.logs && l != id ==> l in rest && !IsLogOf(rest[l], log.alert.value, log.staff);
      }
    }

    method RemoveCareLog(user: User, id: LogId) returns (reply: Reply)
      requires Valid()
      modifies this`alerts, this`logs
      ensures Valid() && MoveOn(old(alerts), alerts)
      ensures HasOneOpenPerSubject(old(alerts)) ==> HasOneOpenPerSubject(alerts)
      ensures reply == Done <==> id in old(logs) && inScope(user, old(logs)[id].student)
      ensures reply != Done ==> Tables() == old(Tables())
      ensures reply == Done ==> logs == old(logs) - {id}
      ensures reply == Done ==>
                if IsLastOwnerCare(old(Tables()), id) then
                  var a := old(logs)[id].alert.value;
                  alerts == old(alerts)[a := old(alerts)[a].(ownerCaredAt := None)]
                else alerts == old(alerts)
    {
      hide IsSound, HasOneOpenPerSubject, MoveOn;
      MovesNowhere(alerts);
      if id !in logs || !inScope(user, logs[id].student) {
        return NotFound;
      }
      RemovingKeeps(Tables(), id, lecturers);
      LastOwnerCareIs(Tables(), id);
      var log := logs[id];
      logs := logs - {id};
      ResetOwnerCaredIfLast(log);
      return Done;
    }

    method ResetOwnerCaredIfLast(log: CareLog)
      modifies this`alerts
      ensures alerts == if log.alert.Some? && log.alert.value in old(alerts)
                           && old(alerts)[log.alert.value].ownerCaredAt.Some?
                           && IsOwner(old(alerts)[log.alert.value], log.staff, lecturers)
                           && !HasLogOf(logs, log.alert.value, log.staff)
                        then old(alerts)[log.alert.value := old(alerts)[log.alert.value].(ownerCaredAt := None)]
                        else old(alerts)
    {
      if log.alert.None? || log.alert.value !in alerts || alerts[log.alert.value].ownerCaredAt.None? {
        return;
      }
      if LecturerOf(alerts[log.alert.value]) != Some(log.staff) {
        return;
      }
      var remaining := set l | l in logs && IsLogOf(logs[l], log.alert.value, log.staff);
      if |remaining| > 0 {
        assert HasLogOf(logs, log.alert.value, log.staff) by {
          var l :| l in remaining;
        }
        return;
      }
      assert forall l :: l in logs && IsLogOf(logs[l], log.alert.value, log.staff) ==> l in remaining;
      alerts := alerts[log.alert.value := alerts[log.alert.value].(ownerCaredAt := None)];
    }

    /** The students of the alerts. */
    function StudentsOf(ids: set<AlertId>): set<StudentId>
      reads this`alerts
      requires ids <= alerts.Keys
    {
      set i | i in ids :: alerts[i].student
    }

    /**
     With the alerts go their care logs, and everything that was ever written about their students:
     evaluations, messages and read marks.  Notifications go with what they are about, analyses are unlinked.
     What goes is counted.
     */
    method DeleteBatch(ids: set<AlertId>) returns (summary: Deletion)
      requires ids <= alerts.Keys
      modifies this
      ensures Tables() == WithoutAlerts(old(Tables()), ids)
      ensures records == RecordsWithout(old(records), ids, old(StudentsOf(ids)))
      ensures Counts(summary, |old(logs)|, |logs|, old(records), records, ids)
    {
      hide WithoutStudents, NotificationsLeft, VersionsLeft, StudentsOf, LinkedNotifications, LinkedVersions;
      var students := StudentsOf(ids);
      var notifications, versions := |LinkedNotifications(records, ids)|, |LinkedVersions(records, ids)|;
      var keptLogs := map l | l in logs && !(logs[l].alert.Some? && logs[l].alert.value in ids) :: logs[l];
      var kept := RecordsWithout(records, ids, students);
      summary := Deletion(|logs| - |keptLogs|, |records.evaluations| - |kept.evaluations|,
                          |records.messages| - |kept.messages|, notifications, versions);
      logs, records, alerts := keptLogs, kept, alerts - ids;
    }

    /** All of the alerts, or none. */
    method RemoveMany(user: User, ids: set<AlertId>) returns (reply: Reply, summary: Deletion)
      requires Valid()
      modifies this
      ensures Valid() && MoveOn(old(alerts), alerts)
      ensures HasOneOpenPerSubject(old(alerts)) ==> HasOneOpenPerSubject(alerts)
      ensures reply == Done <==> forall i :: i in ids ==> i in old(alerts) && inScope(user, old(alerts)[i].student)
      ensures Tables() == if reply == Done then WithoutAlerts(old(Tables()), ids) else old(Tables())
      ensures records == if reply == Done then RecordsWithout(old(records), ids, old(StudentsOf(ids))) else old(records)
      ensures if reply == Done then Counts(summary, |old(logs)|, |logs|, old(records), records, ids)
              else summary == NOTHING_DELETED
    {
      hide IsSound, HasOneOpenPerSubject, MoveOn, WithoutAlerts, RecordsWithout, Counts, StudentsOf;
      MovesNowhere(alerts);
      if !(ids <= alerts.Keys) {
        return NotFound, NOTHING_DELETED;
      }
      if exists i :: i in ids && !inScope(user, alerts[i].student) {
        return Forbidden, NOTHING_DELETED;
      }
      DeletingKeeps(Tables(), ids, lecturers);
      summary := DeleteBatch(ids);
      return Done, summary;
    }

    /** The subject of the alert that sending a version makes. */
    function SubjectOfVersion(version: VersionId, section: Option<SectionId>): Subject
      reads this`records
      requires version in records.versions
    {
      Subject(records.versions[version].student, section, Some(records.versions[version].term))
    }

    /**
     Sends an analysis: an alert is made for it whatever is open, and the transaction is rolled back if the
     version is not a draft any more.  `isFresh` says whether the data it was made from still stand, `section`
     is the one that the lecturers' evaluations name.
     */
    method CommitSend(
      version: VersionId, sender: StaffId, level: int, reason: string, isFresh: bool, recipients: seq<StaffId>,
      section: Option<SectionId>, newId: AlertId, now: int)
      returns (reply: Reply)
      requires Valid() && version in records.versions && 1 <= level <= 4 && newId !in alerts
      modifies this`alerts, this`records
      ensures Valid() && MoveOn(old(alerts), alerts)
      ensures reply == Done <==> isFresh && recipients != [] && old(records).versions[version].status == DRAFT
      ensures reply != Done ==> reply == Conflict && alerts == old(alerts) && records == old(records)
      ensures reply == Done ==>
                var row := old(records).versions[version];
                && alerts == old(alerts)[newId := Alert(row.student, section, Some(row.term), Some(sender), level,
                                                        reason, OPEN, MANUAL, None, None, now, None)]
                && records == old(records).(versions := old(records).versions[version :=
                     old(records).versions[version].(status := SEND_QUEUED, alert := Some(newId))])
      ensures HasOneOpenPerSubject(old(alerts)) ==>
                (HasOneOpenPerSubject(alerts) <==>
                 (reply == Done ==> IsFirstOpen(old(alerts), old(SubjectOfVersion(version, section)), None)))
    {
      hide IsSound, HasOneOpenPerSubject, MoveOn, IsFirstOpen;
      MovesNowhere(alerts);
      if !isFresh {
        return Conflict;
      }
      if recipients == [] {
        return Conflict;
      }
      var row, before := records.versions[version], alerts;
      CommittingKeepsIff(Tables(), SubjectOfVersion(version, section), level, reason, sender, newId, now, lecturers);
      alerts := alerts[newId := Alert(row.student, section, Some(row.term), Some(sender), level, reason, OPEN, MANUAL,
                                      None, None, now, None)];
      if row.status != DRAFT {
        alerts := before;
        return Conflict;
      }
      records := records.(versions := records.versions[version := row.(status := SEND_QUEUED, alert := Some(newId))]);
      return Done;
    }

    method Review(v: Review, open: seq<AlertId>) returns (result: Result, ghost byPlace: Highest)
      requires Valid() && IsReview(v, alerts) && ListsOpen(open, Closed(alerts, v), v.term)
      modifies this`alerts
      ensures Valid() && MoveOn(old(alerts), alerts)
      ensures HasOneOpenPerSubject(old(alerts)) ==> HasOneOpenPerSubject(alerts)
      ensures IsHighest(byPlace, old(alerts), v) && AreIn(byPlace, Closed(old(alerts), v))
      ensures alerts == AfterRows(Closed(old(alerts), v), byPlace, v, |v.rows|)
      ensures result.created + result.upgraded + result.kept == |v.rows| && result.closed == |ClosedIds(old(alerts), v)|
      ensures result.created == |alerts| - |old(alerts)| && result.upgraded == |Risen(old(alerts), alerts)|
    {
      var found;
      ghost var before := alerts;
      alerts, result, found := ReviewTerm(alerts, v, open);
      byPlace := found;
      RowsAreCounted(Closed(before, v), found, v, |v.rows|);
      PassIsCounted(before, found, v);
      RowsKeep(Board(before, logs), found, v, |v.rows|, lecturers);
    }
  }
}
