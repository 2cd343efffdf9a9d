/**
 The steps that people take on alerts and care logs
 (apps/api/src/modules/alerts/alerts.service.ts:256-311, 411-470, 607-639,
 apps/api/src/modules/care-logs/care-logs.service.ts:102-138, 208-254, 306-323,
 apps/api/src/modules/student-analyses/student-analyses.service.ts:681-691), and that they keep what is to be kept.
 Row ids and times are parameters; so is the row that a query with an order returns first.
 */
module AlertSteps {
  import opened Options
  import opened Alerts
  import opened RaiseDecision

  // ---- Raising ----

  predicate IsOpenFor(a: Alert, subject: Subject) {
    IsUnresolved(a) && SubjectOf(a) == subject
  }

  /** The open alert of the subject that the query returns: the highest, then the latest; none if there is none. */
  ghost predicate IsFirstOpen(alerts: map<AlertId, Alert>, subject: Subject, found: Option<AlertId>) {
    && (found.None? ==> forall i :: i in alerts ==> !IsOpenFor(alerts[i], subject))
    && (found.Some? ==>
          && found.value in alerts && IsOpenFor(alerts[found.value], subject)
          && forall i :: i in alerts && IsOpenFor(alerts[i], subject) ==> ComesNoLater(alerts[found.value], alerts[i]))
  }

  predicate ComesNoLater(a: Alert, b: Alert) {
    a.level > b.level || (a.level == b.level && a.createdAt >= b.createdAt)
  }

  datatype Raise = Raise(
    subject: Subject, requestedLevel: int, systemLevel: int, reason: string, raisedBy: StaffId,
    found: Option<AlertId>, newId: AlertId, now: int)

  function DecisionOf(alerts: map<AlertId, Alert>, r: Raise): RaiseDecision
    requires r.found.Some? ==> r.found.value in alerts
  {
    DecideRaise(r.requestedLevel, r.systemLevel,
                if r.found.Some? then Some(OpenAlert(r.found.value, alerts[r.found.value].level)) else None)
  }

  function NewAlert(
    subject: Subject, level: int, reason: string, raisedBy: Option<StaffId>, source: AlertSource,
    absentSessions: Option<int>, now: int): Alert
  {
    Alert(subject.student, subject.section, subject.term, raisedBy, level, reason, OPEN, source, absentSessions, None,
          now, None)
  }

  /** Reopened at a higher level; whoever teaches the section has to care again. */
  function Reopened(a: Alert, level: int, reason: string): Alert {
    a.(level := level, reason := reason, status := OPEN, ownerCaredAt := None)
  }

  function Raised(alerts: map<AlertId, Alert>, r: Raise, texts: Texts): map<AlertId, Alert>
    requires r.found.Some? ==> r.found.value in alerts
  {
    match DecisionOf(alerts, r)
    case Create(level, bySystem) =>
      var reason := if bySystem then r.reason + "\n\n" + texts.note(r.requestedLevel, level) else r.reason;
      alerts[r.newId := NewAlert(r.subject, level, reason, Some(r.raisedBy), MANUAL, None, r.now)]
    case Escalate(id, _, level, bySystem) =>
      var addition := if bySystem then r.reason + "\n" + texts.note(r.requestedLevel, level) else r.reason;
      var reason := MergedReason(alerts[r.found.value].reason, addition, r.now, texts);
      alerts[r.found.value := Reopened(alerts[r.found.value], level, reason)]
    case Merge(id, _) =>
      alerts[r.found.value :=
               alerts[r.found.value].(reason := MergedReason(alerts[r.found.value].reason, r.reason, r.now, texts))]
  }

  /** A sent analysis raises an alert without looking for an open one. */
  function Committed(alerts: map<AlertId, Alert>, subject: Subject, level: int, reason: string, sender: StaffId,
                     newId: AlertId, now: int): map<AlertId, Alert>
  {
    alerts[newId := NewAlert(subject, level, reason, Some(sender), MANUAL, None, now)]
  }

  // ---- Resolving ----

  function Resolved(a: Alert, resolution: Resolution): Alert {
    a.(status := RESOLVED, resolution := Some(resolution))
  }

  // ---- Care logs ----

  /** The first care of the section's own lecturer is marked, and acknowledges an open alert. */
  function OwnerCared(a: Alert, staff: StaffId, lecturers: Lecturers, now: int): Alert {
    if !IsOwner(a, staff, lecturers) || a.ownerCaredAt.Some? then a
    else a.(ownerCaredAt := Some(now), status := if a.status == OPEN then ACKNOWLEDGED else a.status)
  }

  function Logged(b: Board, log: CareLog, newId: LogId, lecturers: Lecturers, now: int): Board
    requires log.alert.Some? ==> log.alert.value in b.alerts
  {
    var logs := b.logs[newId := log];
    if log.alert.None? then Board(b.alerts, logs)
    else Board(b.alerts[log.alert.value := OwnerCared(b.alerts[log.alert.value], log.staff, lecturers, now)], logs)
  }

  ghost predicate HasLogOf(logs: map<LogId, CareLog>, alert: AlertId, staff: StaffId) {
    exists l :: l in logs && IsLogOf(logs[l], alert, staff)
  }

  predicate IsLogOf(log: CareLog, alert: AlertId, staff: StaffId) {
    log.alert == Some(alert) && log.staff == staff
  }

  /** The mark goes with the last care log of the lecturer for this alert. */
  ghost function Removed(b: Board, id: LogId, lecturers: Lecturers): Board
    requires id in b.logs
  {
    var log, logs := b.logs[id], b.logs - {id};
    if log.alert.Some? && log.alert.value in b.alerts && b.alerts[log.alert.value].ownerCaredAt.Some? &&
       IsOwner(b.alerts[log.alert.value], log.staff, lecturers) && !HasLogOf(logs, log.alert.value, log.staff)
    then Board(b.alerts[log.alert.value := b.alerts[log.alert.value].(ownerCaredAt := None)], logs)
    else Board(b.alerts, logs)
  }

  // ---- Deletion ----

  function WithoutAlerts(b: Board, ids: set<AlertId>): Board {
    Board(b.alerts - ids,
          map l | l in b.logs && !(b.logs[l].alert.Some? && b.logs[l].alert.value in ids) :: b.logs[l])
  }

  // ---- What each step keeps ----

  /** The change of one alert that the steps below make. */
  lemma ChangeKeeps(b: Board, i: AlertId, a: Alert, lecturers: Lecturers)
    requires IsSound(b, lecturers) && i in b.alerts
    requires MovesOn(b.alerts[i], a) && IsSoundAlert(a) && (IsUnresolved(a) ==> IsUnresolved(b.alerts[i]))
    requires a.ownerCaredAt.Some? ==> b.alerts[i].ownerCaredAt.Some?
    ensures Keeps(b, Board(b.alerts[i := a], b.logs), lecturers)
  {
    var after := Board(b.alerts[i := a], b.logs);
    forall j, k | HasOneOpenPerSubject(b.alerts) && j in after.alerts && k in after.alerts && j != k
      ensures AreApart(after.alerts[j], after.alerts[k])
    {
      assert AreApart(b.alerts[j], b.alerts[k]);
    }
    forall j | j in after.alerts
      ensures IsSoundAlert(after.alerts[j])
    {
      assert IsSoundAlert(b.alerts[j]);
    }
    forall j | j in after.alerts
      ensures IsBacked(after, j, lecturers)
    {
      BackingKept(b, after, j, lecturers);
    }
  }

  lemma BackingKept(b: Board, after: Board, i: AlertId, lecturers: Lecturers)
    requires i in b.alerts && i in after.alerts && IsBacked(b, i, lecturers)
    requires after.alerts[i].section == b.alerts[i].section
    requires after.alerts[i].ownerCaredAt.Some? ==> b.alerts[i].ownerCaredAt.Some?
    requires forall l :: l in b.logs && b.logs[l].alert == Some(i) ==> l in after.logs && after.logs[l] == b.logs[l]
    ensures IsBacked(after, i, lecturers)
  {
    if after.alerts[i].ownerCaredAt.Some? {
      var l :| l in b.logs && Backs(b, l, i, lecturers);
      assert Backs(after, l, i, lecturers);
    }
  }

  /** A new open alert leaves one open alert for each subject exactly when its own subject had none. */
  lemma CreationKeepsIff(b: Board, newId: AlertId, a: Alert, lecturers: Lecturers)
    requires IsSound(b, lecturers) && newId !in b.alerts
    requires a.status == OPEN && a.ownerCaredAt.None? && IsSoundAlert(a)
    ensures IsSound(Board(b.alerts[newId := a], b.logs), lecturers) && MoveOn(b.alerts, b.alerts[newId := a])
    ensures HasOneOpenPerSubject(b.alerts[newId := a])
       <==> HasOneOpenPerSubject(b.alerts) && IsFirstOpen(b.alerts, SubjectOf(a), None)
  {
    var after := Board(b.alerts[newId := a], b.logs);
    CreationIsAloneIff(b.alerts, newId, a);
    forall j | j in after.alerts
      ensures IsSoundAlert(after.alerts[j])
    {
      assert j != newId ==> IsSoundAlert(b.alerts[j]);
    }
    forall j | j in after.alerts
      ensures IsBacked(after, j, lecturers)
    {
      if j != newId {
        BackingKept(b, after, j, lecturers);
      }
    }
  }

  lemma CreationIsAloneIff(alerts: map<AlertId, Alert>, newId: AlertId, a: Alert)
    requires newId !in alerts && a.status == OPEN
    ensures HasOneOpenPerSubject(alerts[newId := a])
       <==> HasOneOpenPerSubject(alerts) && IsFirstOpen(alerts, SubjectOf(a), None)
  {
    var after := alerts[newId := a];
    if HasOneOpenPerSubject(after) {
      forall j, k | j in alerts && k in alerts && j != k
        ensures AreApart(alerts[j], alerts[k])
      {
        assert AreApart(after[j], after[k]);
      }
      forall i | i in alerts
        ensures !IsOpenFor(alerts[i], SubjectOf(a))
      {
        assert AreApart(after[i], after[newId]);
      }
    } else {
      var j, k :| j in after && k in after && j != k && !AreApart(after[j], after[k]);
      assert j != newId && k != newId ==> !AreApart(alerts[j], alerts[k]);
      assert j == newId ==> IsOpenFor(alerts[k], SubjectOf(a));
      assert k == newId ==> IsOpenFor(alerts[j], SubjectOf(a));
    }
  }

  lemma RaisingKeeps(b: Board, r: Raise, texts: Texts, lecturers: Lecturers)
    requires IsSound(b, lecturers) && IsFirstOpen(b.alerts, r.subject, r.found) && r.newId !in b.alerts
    ensures Keeps(b, Board(Raised(b.alerts, r, texts), b.logs), lecturers)
  {
    hide IsSound, HasOneOpenPerSubject, MoveOn, MergedReason;
    var alerts := Raised(b.alerts, r, texts);
    if r.found.None? {
      CreationKeepsIff(b, r.newId, alerts[r.newId], lecturers);
    } else {
      AlertIsSound(b, r.found.value, lecturers);
      ChangeKeeps(b, r.found.value, alerts[r.found.value], lecturers);
    }
  }

  /** The alert that stands after a raise: the open one that was found, or the new one. */
  function RaisedId(r: Raise): AlertId {
    if r.found.Some? then r.found.value else r.newId
  }

  /**
   After a raise one alert stands open for the subject and no other alert has changed.  Its level is the
   highest of those asked for, computed and had, by it or by any other open alert of the subject; only a
   higher level reopens it and asks the lecturer to care again; and what was said before is still said.
   */
  lemma RaisingStands(alerts: map<AlertId, Alert>, r: Raise, texts: Texts)
    requires IsFirstOpen(alerts, r.subject, r.found) && r.newId !in alerts
    ensures var after, id := Raised(alerts, r, texts), RaisedId(r);
            && id in after && after == alerts[id := after[id]] && IsOpenFor(after[id], r.subject)
            && after[id].level == Max(Max(ClampLevel(r.requestedLevel), ClampLevel(r.systemLevel)),
                                      if r.found.Some? then alerts[id].level else 1)
            && (forall i :: i in alerts && IsOpenFor(alerts[i], r.subject) ==> alerts[i].level <= after[id].level)
            && (r.found.None? ==> r.reason <= after[id].reason && after[id].ownerCaredAt.None?)
            && (r.found.Some? ==>
                  && alerts[id].reason <= after[id].reason
                  && (if after[id].level > alerts[id].level then
                        after[id].status == OPEN && after[id].ownerCaredAt.None?
                      else after[id].status == alerts[id].status && after[id].ownerCaredAt == alerts[id].ownerCaredAt))
  {
    hide Contains;
  }

  // ---- What a raise says, in the words of the request ----

  /** The least level of 1 to 4 that is not below what is asked for, computed and had; a had one may be higher. */
  predicate IsLevelFor(level: int, had: int, asked: int, computed: int) {
    && level >= had && (level >= asked || level >= 4) && (level >= computed || level >= 4)
    && (level == had || (level <= 4 && (level == asked || level == computed)) ||
        (level == 4 && (asked > 4 || computed > 4)))
  }

  /** The computed level, brought to 1 to 4 as the asked one is, is the higher of the two. */
  predicate IsComputedHigher(asked: int, computed: int) {
    computed > asked && computed > 1 && asked < 4
  }

  /** `said` is in the reason afterwards: it was before, or it follows with the date of the update. */
  ghost predicate Says(before: string, after: string, said: string, at: int, texts: Texts) {
    && Contains(after, said)
    && (after == before ||
        (!Contains(before, said) && after == before + "\n\n[Cập nhật " + texts.date(at) + "] " + said))
  }

  /** A new alert gives the reason, with a note on its own paragraph when the computed level is the higher one. */
  predicate IsMadeFor(a: Alert, subject: Subject, asked: int, computed: int, reason: string, raiser: StaffId, now: int,
                      texts: Texts)
  {
    && IsLevelFor(a.level, 1, asked, computed)
    && a.reason == (if IsComputedHigher(asked, computed) then reason + "\n\n" + texts.note(asked, a.level) else reason)
    && a.student == subject.student && a.section == subject.section && a.term == subject.term
    && a.raisedBy == Some(raiser) && a.createdAt == now && a.status == OPEN && a.source == MANUAL
    && a.absentSessions == None && a.ownerCaredAt == None && a.resolution == None
  }

  /**
   An open alert takes the reason in, with the note on a line of its own when the level rises to a computed one
   above the one asked for.  Only a higher level opens it again and asks the lecturer to care again.
   */
  ghost predicate IsRaisedFrom(before: Alert, a: Alert, asked: int, computed: int, reason: string, now: int,
                               texts: Texts)
  {
    && IsLevelFor(a.level, before.level, asked, computed)
    && (if a.level > before.level then
          && a == before.(level := a.level, reason := a.reason, status := OPEN, ownerCaredAt := None)
          && (if IsComputedHigher(asked, computed) then
                Says(before.reason, a.reason, texts.trim(reason + "\n" + texts.note(asked, a.level)), now, texts)
              else Says(before.reason, a.reason, texts.trim(reason), now, texts))
        else
          a == before.(reason := a.reason) && Says(before.reason, a.reason, texts.trim(reason), now, texts))
  }

  lemma MergedReasonSays(current: string, addition: string, at: int, texts: Texts)
    ensures Says(current, MergedReason(current, addition, at, texts), texts.trim(addition), at, texts)
  {
    MergingTwiceIsMergingOnce(current, addition, at, at, texts);
    NothingIsContained(current);
  }

  lemma NothingIsContained(text: string)
    ensures Contains(text, "")
  {
    assert text[0..][..0] == "";
  }

  /** Nothing of a raise is lost: the alert that stands says what the request says. */
  lemma RaisingSays(alerts: map<AlertId, Alert>, r: Raise, texts: Texts)
    requires r.found.Some? ==> r.found.value in alerts && alerts[r.found.value].level >= 1
    ensures RaisedId(r) in Raised(alerts, r, texts)
    ensures r.found.None? ==>
              IsMadeFor(Raised(alerts, r, texts)[r.newId], r.subject, r.requestedLevel, r.systemLevel, r.reason,
                        r.raisedBy, r.now, texts)
    ensures r.found.Some? ==>
              IsRaisedFrom(alerts[r.found.value], Raised(alerts, r, texts)[r.found.value], r.requestedLevel,
                           r.systemLevel, r.reason, r.now, texts)
  {
    hide MergedReason, Says;
    if r.found.Some? {
      var before, level := alerts[r.found.value].reason, DecisionOf(alerts, r).level;
      MergedReasonSays(before, r.reason, r.now, texts);
      MergedReasonSays(before, r.reason + "\n" + texts.note(r.requestedLevel, level), r.now, texts);
    }
  }

  lemma AlertIsSound(b: Board, i: AlertId, lecturers: Lecturers)
    requires IsSound(b, lecturers) && i in b.alerts
    ensures IsSoundAlert(b.alerts[i])
  {}

  /** Sending an analysis keeps one open alert for each subject exactly when the subject has none. */
  lemma CommittingKeepsIff(b: Board, subject: Subject, level: int, reason: string, sender: StaffId, newId: AlertId,
                           now: int, lecturers: Lecturers)
    requires IsSound(b, lecturers) && newId !in b.alerts && 1 <= level <= 4
    ensures var after := Committed(b.alerts, subject, level, reason, sender, newId, now);
            && IsSound(Board(after, b.logs), lecturers) && MoveOn(b.alerts, after)
            && (HasOneOpenPerSubject(after) <==> HasOneOpenPerSubject(b.alerts) && IsFirstOpen(b.alerts, subject, None))
  {
    hide IsSound, HasOneOpenPerSubject, MoveOn, IsFirstOpen;
    CreationKeepsIff(b, newId, NewAlert(subject, level, reason, Some(sender), MANUAL, None, now), lecturers);
  }

  lemma AcknowledgingKeeps(b: Board, i: AlertId, lecturers: Lecturers)
    requires IsSound(b, lecturers) && i in b.alerts && b.alerts[i].status == OPEN
    ensures Keeps(b, Board(b.alerts[i := b.alerts[i].(status := ACKNOWLEDGED)], b.logs), lecturers)
  {
    AlertIsSound(b, i, lecturers);
    hide IsSound, Keeps;
    ChangeKeeps(b, i, b.alerts[i].(status := ACKNOWLEDGED), lecturers);
  }

  lemma ResolvingKeeps(b: Board, i: AlertId, resolution: Resolution, lecturers: Lecturers)
    requires IsSound(b, lecturers) && i in b.alerts && IsUnresolved(b.alerts[i])
    ensures Keeps(b, Board(b.alerts[i := Resolved(b.alerts[i], resolution)], b.logs), lecturers)
  {
    AlertIsSound(b, i, lecturers);
    hide IsSound, Keeps;
    ChangeKeeps(b, i, Resolved(b.alerts[i], resolution), lecturers);
  }

  lemma LoggingKeeps(b: Board, log: CareLog, newId: LogId, lecturers: Lecturers, now: int)
    requires IsSound(b, lecturers) && newId !in b.logs
    requires log.alert.Some? ==> log.alert.value in b.alerts
    ensures Keeps(b, Logged(b, log, newId, lecturers, now), lecturers)
  {
    hide OwnerCared, Backs, IsBacked;
    var after := Logged(b, log, newId, lecturers, now);
    if log.alert.Some? {
      OwnerCaredMovesOn(b.alerts[log.alert.value], log.staff, lecturers, now);
    }
    forall j, k | HasOneOpenPerSubject(b.alerts) && j in after.alerts && k in after.alerts && j != k
      ensures AreApart(after.alerts[j], after.alerts[k])
    {
      assert AreApart(b.alerts[j], b.alerts[k]);
    }
    forall j | j in after.alerts
      ensures IsSoundAlert(after.alerts[j])
    {
      assert IsSoundAlert(b.alerts[j]);
    }
    forall j | j in after.alerts
      ensures IsBacked(after, j, lecturers)
    {
      LoggingBacked(b, log, newId, j, lecturers, now);
    }
  }

  lemma OwnerCaredMovesOn(a: Alert, staff: StaffId, lecturers: Lecturers, now: int)
    ensures var a' := OwnerCared(a, staff, lecturers, now);
            MovesOn(a, a') && (IsSoundAlert(a) ==> IsSoundAlert(a')) && (IsUnresolved(a') <==> IsUnresolved(a))
  {}

  lemma LoggingBacked(b: Board, log: CareLog, newId: LogId, j: AlertId, lecturers: Lecturers, now: int)
    requires newId !in b.logs && (log.alert.Some? ==> log.alert.value in b.alerts)
    requires j in b.alerts && IsBacked(b, j, lecturers)
    ensures IsBacked(Logged(b, log, newId, lecturers, now), j, lecturers)
  {
    var after := Logged(b, log, newId, lecturers, now);
    if after.alerts[j] != b.alerts[j] {
      assert Backs(after, newId, j, lecturers);
    } else {
      BackingKept(b, after, j, lecturers);
    }
  }

  lemma RemovingKeeps(b: Board, id: LogId, lecturers: Lecturers)
    requires IsSound(b, lecturers) && id in b.logs
    ensures Keeps(b, Removed(b, id, lecturers), lecturers)
  {
    var after := Removed(b, id, lecturers);
    forall j, k | HasOneOpenPerSubject(b.alerts) && j in after.alerts && k in after.alerts && j != k
      ensures AreApart(after.alerts[j], after.alerts[k])
    {
      assert AreApart(b.alerts[j], b.alerts[k]);
    }
    forall j | j in after.alerts
      ensures IsSoundAlert(after.alerts[j])
    {
      assert IsSoundAlert(b.alerts[j]);
    }
    forall j | j in after.alerts
      ensures IsBacked(after, j, lecturers)
    {
      RemovalBacked(b, id, j, lecturers);
    }
  }

  lemma RemovalBacked(b: Board, id: LogId, j: AlertId, lecturers: Lecturers)
    requires id in b.logs && j in b.alerts && IsBacked(b, j, lecturers)
    ensures IsBacked(Removed(b, id, lecturers), j, lecturers)
  {
    var after := Removed(b, id, lecturers);
    if after.alerts[j].ownerCaredAt.Some? {
      var l :| l in b.logs && Backs(b, l, j, lecturers);
      if l == id {
        var other :| other in after.logs && IsLogOf(after.logs[other], j, b.logs[id].staff);
        assert Backs(after, other, j, lecturers);
      } else {
        assert Backs(after, l, j, lecturers);
      }
    }
  }

  lemma DeletingKeeps(b: Board, ids: set<AlertId>, lecturers: Lecturers)
    requires IsSound(b, lecturers)
    ensures Keeps(b, WithoutAlerts(b, ids), lecturers)
  {
    var after := WithoutAlerts(b, ids);
    forall j, k | HasOneOpenPerSubject(b.alerts) && j in after.alerts && k in after.alerts && j != k
      ensures AreApart(after.alerts[j], after.alerts[k])
    {
      assert AreApart(b.alerts[j], b.alerts[k]);
    }
    forall j | j in after.alerts
      ensures IsSoundAlert(after.alerts[j])
    {
      assert IsSoundAlert(b.alerts[j]);
    }
    forall j | j in after.alerts
      ensures IsBacked(after, j, lecturers)
    {
      BackingKept(b, after, j, lecturers);
    }
  }
}
