/**
 What one pass of the attendance review leaves, alert by alert and row by row
 (apps/api/src/modules/attendance-alerts/attendance-review.service.ts:149-177, 198-216, 260-339,
 attendance-review.decision.ts:23-39, packages/shared-types/src/alerts.ts:34-46), in the numbers of absences.
 */
module AttendanceOutcome {
  import opened Options
  import opened Alerts
  import opened RaiseDecision
  import opened AlertSteps
  import opened AttendanceReview
  import opened AttendancePass

  // ---- What the pass is to do ----

  /** An open automatic alert of the term about a section that attendance does not bar from the exam. */
  predicate IsExemptAutomatic(a: Alert, v: Review) {
    && a.source == AUTO_ATTENDANCE && a.status != RESOLVED && a.term == Some(v.term)
    && a.section.Some? && v.isExempt(a.section.value)
  }

  predicate IsClosedFrom(a: Alert, a': Alert, v: Review) {
    && a' == a.(status := RESOLVED, resolution := a'.resolution)
    && a'.resolution.Some? && a'.resolution.value.resolver == v.actor && a'.resolution.value.at == v.now
    && a'.resolution.value.outcome == None && a'.resolution.value.note == EXEMPT_SUBJECT_NOTE
  }

  /** Three absences call for level 3, two for level 2. */
  function CalledFor(row: ReviewRow): int {
    if row.absentSessions.Some? && row.absentSessions.value >= 3 then 3 else 2
  }

  predicate HasMoreAbsences(row: ReviewRow, a: Alert) {
    row.absentSessions.Some? && (a.absentSessions.None? || row.absentSessions.value > a.absentSessions.value)
  }

  /** An automatic alert takes the row's reason; one that a person raised keeps its own and adds the row's. */
  ghost predicate SaysAbsences(a: Alert, a': Alert, row: ReviewRow, v: Review) {
    if a.source == AUTO_ATTENDANCE then a'.reason == v.reasonFor(row)
    else a.reason <= a'.reason && Says(a.reason, a'.reason, v.texts.trim(v.reasonFor(row)), v.now, v.texts)
  }

  /**
   Below the level that the absences call for it goes to level 3, opens again and asks for care again; with more
   absences than on record it is brought up to date; otherwise it stays as it is.
   */
  ghost predicate IsReviewedFrom(a: Alert, a': Alert, row: ReviewRow, v: Review) {
    if a.level < CalledFor(row) then
      && a' == a.(level := 3, absentSessions := row.absentSessions, reason := a'.reason, status := OPEN,
                  ownerCaredAt := None)
      && SaysAbsences(a, a', row, v)
    else if HasMoreAbsences(row, a) then
      a' == a.(absentSessions := row.absentSessions, reason := a'.reason) && SaysAbsences(a, a', row, v)
    else a' == a
  }

  predicate IsMadeFrom(a: Alert, row: ReviewRow, v: Review) {
    && a.student == row.student && a.section == Some(row.section) && a.term == Some(v.term)
    && a.level == CalledFor(row) && a.absentSessions == row.absentSessions && a.reason == v.reasonFor(row)
    && a.status == OPEN && a.source == AUTO_ATTENDANCE && a.raisedBy == None && a.createdAt == v.now
    && a.ownerCaredAt == None && a.resolution == None
  }

  // ---- One alert, one row ----

  lemma ReviewedIs(row: ReviewRow, a: Alert, v: Review)
    requires IsLoaded(row, v)
    ensures IsReviewedFrom(a, Reviewed(row, a, v), row, v)
  {
    hide MergedReason, Says;
    MergedReasonSays(a.reason, v.reasonFor(row), v.now, v.texts);
    MergingTwiceIsMergingOnce(a.reason, v.reasonFor(row), v.now, v.now, v.texts);
  }

  lemma AutoAlertIs(row: ReviewRow, v: Review)
    ensures IsMadeFrom(AutoAlert(row, LevelOfRow(row), v), row, v)
  {}

  lemma ClosedIs(a: Alert, v: Review)
    ensures if IsExemptAutomatic(a, v) then IsClosedFrom(a, ClosedAlert(a, v), v) else ClosedAlert(a, v) == a
  {}

  // ---- Each row writes one alert, and no two rows the same ----

  /** What the row makes of its answer. */
  function AnswerAfter(closed: AlertTable, byPlace: Highest, v: Review, m: nat): Alert
    requires m < |v.rows| == |v.newIds| && AreIn(byPlace, closed)
  {
    var existing := ExistingOf(byPlace, v.rows[m]);
    if existing.Some? then Reviewed(v.rows[m], closed[existing.value], v)
    else AutoAlert(v.rows[m], LevelOfRow(v.rows[m]), v)
  }

  ghost predicate Answers(byPlace: Highest, v: Review, k: nat, i: AlertId)
    requires k <= |v.rows| == |v.newIds|
  {
    exists m :: 0 <= m < k && AnswerOf(byPlace, v, m) == i
  }

  /** After the first rows their answers are written, and nothing else is. */
  ghost predicate IsWritten(closed: AlertTable, now: AlertTable, byPlace: Highest, v: Review, k: nat)
    requires k <= |v.rows| == |v.newIds| && AreIn(byPlace, closed)
  {
    && (forall i :: i in closed ==> i in now)
    && (forall i :: i in now && !Answers(byPlace, v, k, i) ==> i in closed && now[i] == closed[i])
    && (forall m :: 0 <= m < k ==> IsWrittenAt(closed, now, byPlace, v, m))
  }

  ghost predicate IsWrittenAt(closed: AlertTable, now: AlertTable, byPlace: Highest, v: Review, m: nat)
    requires m < |v.rows| == |v.newIds| && AreIn(byPlace, closed)
  {
    AnswerOf(byPlace, v, m) in now && now[AnswerOf(byPlace, v, m)] == AnswerAfter(closed, byPlace, v, m)
  }

  lemma AnswersDiffer(now: AlertTable, byPlace: Highest, v: Review, m: nat, k: nat, alerts: AlertTable)
    requires IsReview(v, alerts) && m < k < |v.rows|
    requires IsAnswered(now, byPlace, v, m) && IsPending(now, byPlace, v, k)
    ensures AnswerOf(byPlace, v, m) != AnswerOf(byPlace, v, k)
  {
    SubjectsDiffer(v, alerts, m, k);
  }

  lemma AnswersSnoc(byPlace: Highest, v: Review, k: nat, i: AlertId)
    requires k < |v.rows| == |v.newIds|
    ensures Answers(byPlace, v, k + 1, i) <==> Answers(byPlace, v, k, i) || AnswerOf(byPlace, v, k) == i
  {
    hide AnswerOf;
    if Answers(byPlace, v, k + 1, i) && AnswerOf(byPlace, v, k) != i {
      var m :| 0 <= m < k + 1 && AnswerOf(byPlace, v, m) == i;
      assert m < k;
    }
  }

  lemma NotYetAnswered(closed: AlertTable, now: AlertTable, byPlace: Highest, v: Review, k: nat, alerts: AlertTable)
    requires IsReview(v, alerts) && k < |v.rows| && AreIn(byPlace, closed)
    requires IsWritten(closed, now, byPlace, v, k) && IsHalfway(now, byPlace, v, k)
    ensures !Answers(byPlace, v, k, AnswerOf(byPlace, v, k))
    ensures ExistingOf(byPlace, v.rows[k]).Some? ==>
              var i := ExistingOf(byPlace, v.rows[k]).value; i in now && now[i] == closed[i]
  {
    hide IsPending, IsAnswered, IsWrittenAt, AnswerOf;
    assert IsPending(now, byPlace, v, k);
    forall m | 0 <= m < k
      ensures AnswerOf(byPlace, v, m) != AnswerOf(byPlace, v, k)
    {
      assert IsAnswered(now, byPlace, v, m);
      AnswersDiffer(now, byPlace, v, m, k, alerts);
    }
    AnswerIsExisting(byPlace, v, k);
  }

  lemma AnswerIsExisting(byPlace: Highest, v: Review, k: nat)
    requires k < |v.rows| == |v.newIds|
    ensures AnswerOf(byPlace, v, k)
         == if ExistingOf(byPlace, v.rows[k]).Some? then ExistingOf(byPlace, v.rows[k]).value else v.newIds[k]
  {}

  /** A pending row writes its answer as if no row had come before it. */
  lemma RowWritesAnswer(closed: AlertTable, now: AlertTable, byPlace: Highest, v: Review, k: nat, alerts: AlertTable)
    requires IsReview(v, alerts) && k < |v.rows| && AreIn(byPlace, closed)
    requires IsWritten(closed, now, byPlace, v, k) && IsHalfway(now, byPlace, v, k)
    ensures ExistingOf(byPlace, v.rows[k]).Some? ==> ExistingOf(byPlace, v.rows[k]).value in now
    ensures AfterRow(now, v.rows[k], ExistingOf(byPlace, v.rows[k]), v.newIds[k], v)
         == now[AnswerOf(byPlace, v, k) := AnswerAfter(closed, byPlace, v, k)]
  {
    hide IsWritten, IsPending, Reviewed, AutoAlert, IsTaken;
    NotYetAnswered(closed, now, byPlace, v, k, alerts);
    assert IsPending(now, byPlace, v, k);
    RowWrites(now, byPlace, v, k, alerts);
  }

  lemma WrittenSnoc(closed: AlertTable, now: AlertTable, byPlace: Highest, v: Review, k: nat, alerts: AlertTable)
    requires IsReview(v, alerts) && k < |v.rows| && AreIn(byPlace, closed)
    requires IsWritten(closed, now, byPlace, v, k) && !Answers(byPlace, v, k, AnswerOf(byPlace, v, k))
    ensures IsWritten(closed, now[AnswerOf(byPlace, v, k) := AnswerAfter(closed, byPlace, v, k)], byPlace, v, k + 1)
  {
    hide AnswerOf, AnswerAfter;
    var i, after := AnswerOf(byPlace, v, k), now[AnswerOf(byPlace, v, k) := AnswerAfter(closed, byPlace, v, k)];
    forall j | j in after && !Answers(byPlace, v, k + 1, j)
      ensures j in closed && after[j] == closed[j]
    {
      AnswersSnoc(byPlace, v, k, j);
    }
    forall m | 0 <= m < k + 1
      ensures IsWrittenAt(closed, after, byPlace, v, m)
    {
      if m < k {
        assert IsWrittenAt(closed, now, byPlace, v, m) && AnswerOf(byPlace, v, m) != i;
      }
    }
  }

  lemma NothingWritten(closed: AlertTable, byPlace: Highest, v: Review)
    requires |v.rows| == |v.newIds| && AreIn(byPlace, closed)
    ensures IsWritten(closed, AfterRows(closed, byPlace, v, 0), byPlace, v, 0)
  {}

  lemma {:induction false} RowsWrite(alerts: AlertTable, byPlace: Highest, v: Review, k: nat)
    requires IsReview(v, alerts) && k <= |v.rows|
    requires AreIn(byPlace, Closed(alerts, v)) && IsHighest(byPlace, alerts, v)
    ensures IsWritten(Closed(alerts, v), AfterRows(Closed(alerts, v), byPlace, v, k), byPlace, v, k)
  {
    hide IsHighest, Closed, AfterRow, IsHalfway, AnswerAfter, IsLoaded, AreOtherRows, IsWritten, AnswerOf, AreIn;
    if k == 0 {
      NothingWritten(Closed(alerts, v), byPlace, v);
    } else {
      var closed := Closed(alerts, v);
      var now := AfterRows(closed, byPlace, v, k - 1);
      RowsWrite(alerts, byPlace, v, k - 1);
      PassIsHalfway(alerts, byPlace, v, k - 1);
      NotYetAnswered(closed, now, byPlace, v, k - 1, alerts);
      RowWritesAnswer(closed, now, byPlace, v, k - 1, alerts);
      WrittenSnoc(closed, now, byPlace, v, k - 1, alerts);
    }
  }

  // ---- What a pass leaves of each row ----

  /** An open alert of the row's subject: `i` is one, and no other is higher. */
  ghost predicate IsHighestOpen(alerts: AlertTable, i: AlertId, subject: Subject) {
    && i in alerts && IsOpenFor(alerts[i], subject)
    && forall j :: j in alerts && IsOpenFor(alerts[j], subject) ==> alerts[j].level <= alerts[i].level
  }

  /** The section of a row is not exempt, so no alert of its subject is closed. */
  lemma ClosingSpares(alerts: AlertTable, v: Review, i: AlertId, row: ReviewRow)
    requires IsLoaded(row, v)
    ensures i in Closed(alerts, v) && IsOpenFor(Closed(alerts, v)[i], SubjectOfRow(row, v.term))
       <==> i in alerts && IsOpenFor(alerts[i], SubjectOfRow(row, v.term))
    ensures i in alerts && IsOpenFor(alerts[i], SubjectOfRow(row, v.term)) ==> Closed(alerts, v)[i] == alerts[i]
  {}

  lemma PlaceIsHighest(alerts: AlertTable, byPlace: Highest, v: Review, m: nat)
    requires IsReview(v, alerts) && m < |v.rows| && IsHighest(byPlace, alerts, v)
    ensures var existing := ExistingOf(byPlace, v.rows[m]);
            if existing.Some? then IsHighestOpen(Closed(alerts, v), existing.value, SubjectOfRow(v.rows[m], v.term))
            else forall i :: i in Closed(alerts, v) ==>
                   !IsOpenFor(Closed(alerts, v)[i], SubjectOfRow(v.rows[m], v.term))
  {
    hide ClosedAlert;
    var now := Closed(alerts, v);
    var open :| ListsOpen(open, now, v.term) && IsHighestMap(byPlace, open, now);
    var row := v.rows[m];
    var place := Place(row.student, Some(row.section));
    if place in byPlace {
      assert IsHighestAt(byPlace[place], place, open, now);
      forall j | j in now && IsOpenFor(now[j], SubjectOfRow(row, v.term))
        ensures now[j].level <= now[byPlace[place]].level
      {
        var k :| 0 <= k < |open| && open[k] == j;
        assert PlaceOf(now[open[k]]) == place;
      }
    } else {
      AllPendingAtFirst(alerts, byPlace, v);
      assert IsPending(now, byPlace, v, m);
    }
  }

  /** What was found for a row is the highest open alert of its subject, untouched by the closing. */
  lemma FoundForRow(alerts: AlertTable, byPlace: Highest, v: Review, m: nat)
    requires IsReview(v, alerts) && m < |v.rows| && IsHighest(byPlace, alerts, v)
    ensures var subject, existing := SubjectOfRow(v.rows[m], v.term), ExistingOf(byPlace, v.rows[m]);
            if existing.Some? then
              && IsHighestOpen(alerts, existing.value, subject)
              && Closed(alerts, v)[existing.value] == alerts[existing.value]
            else forall i :: i in alerts ==> !IsOpenFor(alerts[i], subject)
  {
    hide IsHighest, Closed, IsOpenFor, SubjectOfRow, ExistingOf, AreOtherRows;
    PlaceIsHighest(alerts, byPlace, v, m);
    forall i
      ensures i in Closed(alerts, v) && IsOpenFor(Closed(alerts, v)[i], SubjectOfRow(v.rows[m], v.term))
         <==> i in alerts && IsOpenFor(alerts[i], SubjectOfRow(v.rows[m], v.term))
      ensures i in alerts && IsOpenFor(alerts[i], SubjectOfRow(v.rows[m], v.term)) ==> Closed(alerts, v)[i] == alerts[i]
    {
      ClosingSpares(alerts, v, i, v.rows[m]);
    }
  }

  /**
   Every row has two absences at least.  Its subject's highest open alert is reviewed for it; where there is no open
   alert, one is made.
   */
  lemma RowIsAnswered(alerts: AlertTable, byPlace: Highest, v: Review, m: nat)
    requires IsReview(v, alerts) && m < |v.rows|
    requires AreIn(byPlace, Closed(alerts, v)) && IsHighest(byPlace, alerts, v)
    ensures v.rows[m].absentSessions.Some? && v.rows[m].absentSessions.value >= 2 && !v.isExempt(v.rows[m].section)
    ensures var after := AfterRows(Closed(alerts, v), byPlace, v, |v.rows|);
            var row, i := v.rows[m], AnswerOf(byPlace, v, m);
            var subject := Subject(row.student, Some(row.section), Some(v.term));
            && i in after
            && (if exists j :: j in alerts && IsOpenFor(alerts[j], subject) then
                  IsHighestOpen(alerts, i, subject) && IsReviewedFrom(alerts[i], after[i], row, v)
                else i == v.newIds[m] && i !in alerts && IsMadeFrom(after[i], row, v))
  {
    hide IsHighest, Closed, AfterRows, IsReviewedFrom, IsMadeFrom, Reviewed, AutoAlert, AreOtherRows, IsOpenFor;
    var closed, row := Closed(alerts, v), v.rows[m];
    RowsWrite(alerts, byPlace, v, |v.rows|);
    assert IsWrittenAt(closed, AfterRows(closed, byPlace, v, |v.rows|), byPlace, v, m);
    FoundForRow(alerts, byPlace, v, m);
    var existing := ExistingOf(byPlace, row);
    if existing.Some? {
      ReviewedIs(row, closed[existing.value], v);
    } else {
      AutoAlertIs(row, v);
    }
  }

  // ---- What a pass leaves of each alert ----

  lemma NoRowForExempt(alerts: AlertTable, byPlace: Highest, v: Review, i: AlertId)
    requires IsReview(v, alerts) && i in alerts && IsHighest(byPlace, alerts, v) && AreIn(byPlace, Closed(alerts, v))
    ensures Answers(byPlace, v, |v.rows|, i) ==>
              exists m :: 0 <= m < |v.rows| && AnswerOf(byPlace, v, m) == i
                          && IsOpenFor(alerts[i], SubjectOfRow(v.rows[m], v.term)) && !IsExemptAutomatic(alerts[i], v)
  {
    hide IsHighest, Closed, AreOtherRows;
    if Answers(byPlace, v, |v.rows|, i) {
      var m :| 0 <= m < |v.rows| && AnswerOf(byPlace, v, m) == i;
      FoundForRow(alerts, byPlace, v, m);
      assert v.newIds[m] !in alerts && IsLoaded(v.rows[m], v);
      assert AnswerOf(byPlace, v, m) == i && IsOpenFor(alerts[i], SubjectOfRow(v.rows[m], v.term));
    }
  }

  /**
   Exactly the open automatic alerts of exempt sections are closed, with nothing else changed.  Any other alert
   changes only for a row of its own subject, and then as the row's absences call for.
   */
  lemma AlertAfterPass(alerts: AlertTable, byPlace: Highest, v: Review, i: AlertId)
    requires IsReview(v, alerts) && i in alerts
    requires AreIn(byPlace, Closed(alerts, v)) && IsHighest(byPlace, alerts, v)
    ensures var after := AfterRows(Closed(alerts, v), byPlace, v, |v.rows|);
            && i in after
            && (if IsExemptAutomatic(alerts[i], v) then IsClosedFrom(alerts[i], after[i], v)
                else
                  || after[i] == alerts[i]
                  || exists m :: 0 <= m < |v.rows| && IsOpenFor(alerts[i], SubjectOfRow(v.rows[m], v.term))
                                 && IsReviewedFrom(alerts[i], after[i], v.rows[m], v))
  {
    hide IsHighest, AfterRows, IsReviewedFrom, IsClosedFrom, IsExemptAutomatic, ClosedAlert, AreOtherRows, IsOpenFor,
      AnswerOf, Answers, IsMadeFrom;
    var closed := Closed(alerts, v);
    RowsWrite(alerts, byPlace, v, |v.rows|);
    ClosedIs(alerts[i], v);
    NoRowForExempt(alerts, byPlace, v, i);
    if Answers(byPlace, v, |v.rows|, i) {
      var m :| 0 <= m < |v.rows| && AnswerOf(byPlace, v, m) == i
               && IsOpenFor(alerts[i], SubjectOfRow(v.rows[m], v.term)) && !IsExemptAutomatic(alerts[i], v);
      RowIsAnswered(alerts, byPlace, v, m);
    }
  }

  /** An alert that a person raised is not closed by a pass, keeps its source, and its reason is still there. */
  lemma ManualAlertIsKept(alerts: AlertTable, byPlace: Highest, v: Review, i: AlertId)
    requires IsReview(v, alerts) && i in alerts && alerts[i].source == MANUAL
    requires AreIn(byPlace, Closed(alerts, v)) && IsHighest(byPlace, alerts, v)
    ensures var after := AfterRows(Closed(alerts, v), byPlace, v, |v.rows|);
            && i in after && after[i].source == MANUAL && alerts[i].reason <= after[i].reason
            && (after[i].status == RESOLVED <==> alerts[i].status == RESOLVED)
            && after[i].resolution == alerts[i].resolution && after[i].raisedBy == alerts[i].raisedBy
            && after[i].createdAt == alerts[i].createdAt
  {
    hide IsHighest, AfterRows, Closed, AreOtherRows, Says;
    AlertAfterPass(alerts, byPlace, v, i);
  }

  /** What is new after the pass was made for a row whose subject had no open alert. */
  lemma NewAlertAfterPass(alerts: AlertTable, byPlace: Highest, v: Review, i: AlertId)
    requires IsReview(v, alerts) && AreIn(byPlace, Closed(alerts, v)) && IsHighest(byPlace, alerts, v)
    requires i in AfterRows(Closed(alerts, v), byPlace, v, |v.rows|) && i !in alerts
    ensures exists m :: 0 <= m < |v.rows| && i == v.newIds[m]
                        && IsMadeFrom(AfterRows(Closed(alerts, v), byPlace, v, |v.rows|)[i], v.rows[m], v)
  {
    hide IsHighest, AfterRows, IsReviewedFrom, IsMadeFrom, AreOtherRows, IsOpenFor, AnswerOf;
    RowsWrite(alerts, byPlace, v, |v.rows|);
    var m :| 0 <= m < |v.rows| && AnswerOf(byPlace, v, m) == i;
    RowIsAnswered(alerts, byPlace, v, m);
  }

  // ---- What a pass counts ----

  function Risen(alerts: AlertTable, after: AlertTable): set<AlertId> {
    set i | i in alerts && i in after && after[i].level > alerts[i].level
  }

  predicate IsNews(alerts: AlertTable, after: AlertTable, i: AlertId)
    requires i in after
  {
    i !in alerts || after[i].level > alerts[i].level
  }

  /** The people told: those of each row whose alert is new or rose, for the level it has now. */
  function Told(alerts: AlertTable, after: AlertTable, byPlace: Highest, v: Review, k: nat): nat
    requires k <= |v.rows| == |v.newIds|
    requires forall m :: 0 <= m < k ==> AnswerOf(byPlace, v, m) in after
  {
    if k == 0 then 0
    else
      var i := AnswerOf(byPlace, v, k - 1);
      Told(alerts, after, byPlace, v, k - 1)
      + if IsNews(alerts, after, i) then v.notified(v.rows[k - 1], after[i].level) else 0
  }

  /** A row counts by what it writes. */
  lemma RowCounts(closed: AlertTable, now: AlertTable, byPlace: Highest, v: Review, k: nat, alerts: AlertTable)
    requires IsReview(v, alerts) && k < |v.rows| && AreIn(byPlace, closed)
    requires IsWritten(closed, now, byPlace, v, k) && IsHalfway(now, byPlace, v, k)
    ensures ExistingOf(byPlace, v.rows[k]).Some? ==> ExistingOf(byPlace, v.rows[k]).value in now
    ensures var r := ResultOfRow(now, v.rows[k], ExistingOf(byPlace, v.rows[k]), v);
            var i, answer := AnswerOf(byPlace, v, k), AnswerAfter(closed, byPlace, v, k);
            && (r.created == 1 <==> i !in now) && (r.upgraded == 1 <==> i in now && answer.level > now[i].level)
            && r.created <= 1 && r.upgraded <= 1
            && r.notified == if i !in now || answer.level > now[i].level then v.notified(v.rows[k], answer.level) else 0
  {
    hide IsWritten, IsPending, IsTaken, NextReason;
    NotYetAnswered(closed, now, byPlace, v, k, alerts);
    assert IsPending(now, byPlace, v, k) && IsLoaded(v.rows[k], v);
    RowWrites(now, byPlace, v, k, alerts);
    PendingIdIsNew(now, byPlace, v, k);
  }

  lemma PendingIdIsNew(now: AlertTable, byPlace: Highest, v: Review, k: nat)
    requires k < |v.rows| == |v.newIds| && IsPending(now, byPlace, v, k)
    ensures v.newIds[k] !in now
  {}

  lemma NotYetRaised(closed: AlertTable, now: AlertTable, byPlace: Highest, v: Review, k: nat)
    requires k < |v.rows| == |v.newIds| && AreIn(byPlace, closed)
    requires IsWritten(closed, now, byPlace, v, k) && !Answers(byPlace, v, k, AnswerOf(byPlace, v, k))
    ensures var i := AnswerOf(byPlace, v, k); i in now <==> i in closed
    ensures var i := AnswerOf(byPlace, v, k); i in now ==> now[i] == closed[i]
  {}

  lemma RaisedSnoc(closed: AlertTable, now: AlertTable, i: AlertId, a: Alert)
    requires forall j :: j in closed ==> j in now
    requires i in now ==> i in closed && now[i] == closed[i]
    requires i in closed ==> i in now
    ensures |now[i := a]| == |now| + if i in now then 0 else 1
    ensures |Risen(closed, now[i := a])| == |Risen(closed, now)| + if i in now && a.level > now[i].level then 1 else 0
  {
    assert now[i := a].Keys == now.Keys + {i};
    if i in now && a.level > now[i].level {
      assert Risen(closed, now[i := a]) == Risen(closed, now) + {i};
    } else {
      assert Risen(closed, now[i := a]) == Risen(closed, now);
    }
  }

  lemma ToldAtAnswer(closed: AlertTable, after: AlertTable, byPlace: Highest, v: Review, k: nat)
    requires k < |v.rows| == |v.newIds| && AreIn(byPlace, closed)
    requires IsWritten(closed, after, byPlace, v, |v.rows|)
    ensures AnswerOf(byPlace, v, k) in after
    ensures after[AnswerOf(byPlace, v, k)] == AnswerAfter(closed, byPlace, v, k)
  {
    hide AnswerOf, AnswerAfter, Answers;
    assert IsWrittenAt(closed, after, byPlace, v, k);
  }

  /** The counts of the first rows, `after` being the table at the end. */
  ghost predicate AreCounted(
    closed: AlertTable, now: AlertTable, after: AlertTable, r: Result, byPlace: Highest, v: Review, k: nat)
    requires k <= |v.rows| == |v.newIds|
    requires forall m :: 0 <= m < k ==> AnswerOf(byPlace, v, m) in after
  {
    && r.created == |now| - |closed| && r.upgraded == |Risen(closed, now)|
    && r.notified == Told(closed, after, byPlace, v, k)
  }

  lemma {:induction false} RowsCount(alerts: AlertTable, byPlace: Highest, v: Review, after: AlertTable, k: nat)
    requires IsReview(v, alerts) && k <= |v.rows|
    requires AreIn(byPlace, Closed(alerts, v)) && IsHighest(byPlace, alerts, v)
    requires IsWritten(Closed(alerts, v), after, byPlace, v, |v.rows|)
    ensures forall m :: 0 <= m < |v.rows| ==> AnswerOf(byPlace, v, m) in after
    ensures AreCounted(Closed(alerts, v), AfterRows(Closed(alerts, v), byPlace, v, k), after,
                       ResultOfRows(Closed(alerts, v), byPlace, v, k), byPlace, v, k)
  {
    hide IsHighest, Closed, AfterRow, IsHalfway, AnswerAfter, IsLoaded, AreOtherRows, AnswerOf, AreIn, ResultOfRow,
      Risen, Answers, IsWritten, AfterRows, ResultOfRows, AreCounted, ExistingOf;
    var closed := Closed(alerts, v);
    forall m | 0 <= m < |v.rows|
      ensures AnswerOf(byPlace, v, m) in after
    {
      ToldAtAnswer(closed, after, byPlace, v, m);
    }
    if k == 0 {
      NothingCounted(closed, after, byPlace, v);
    } else {
      var now := AfterRows(closed, byPlace, v, k - 1);
      RowsCount(alerts, byPlace, v, after, k - 1);
      RowsWrite(alerts, byPlace, v, k - 1);
      PassIsHalfway(alerts, byPlace, v, k - 1);
      RowCounted(alerts, closed, now, after, byPlace, v, k - 1);
      CountedSnoc(closed, after, byPlace, v, k - 1);
    }
  }

  lemma CountedSnoc(closed: AlertTable, after: AlertTable, byPlace: Highest, v: Review, k: nat)
    requires k < |v.rows| == |v.newIds| && AreIn(byPlace, closed)
    requires forall m :: 0 <= m < |v.rows| ==> AnswerOf(byPlace, v, m) in after
    requires AreCounted(closed, AfterRows(closed, byPlace, v, k), after, ResultOfRows(closed, byPlace, v, k),
                        byPlace, v, k)
    requires var now, row := AfterRows(closed, byPlace, v, k), v.rows[k];
             var next := AfterRow(now, row, ExistingOf(byPlace, row), v.newIds[k], v);
             var r, i := ResultOfRow(now, row, ExistingOf(byPlace, row), v), AnswerOf(byPlace, v, k);
             && |next| == |now| + r.created && |Risen(closed, next)| == |Risen(closed, now)| + r.upgraded
             && r.notified == if IsNews(closed, after, i) then v.notified(row, after[i].level) else 0
    ensures AreCounted(closed, AfterRows(closed, byPlace, v, k + 1), after, ResultOfRows(closed, byPlace, v, k + 1),
                       byPlace, v, k + 1)
  {
    hide AfterRow, ResultOfRow, Risen, AnswerOf, ExistingOf;
  }

  lemma NothingCounted(closed: AlertTable, after: AlertTable, byPlace: Highest, v: Review)
    requires |v.rows| == |v.newIds| && AreIn(byPlace, closed)
    ensures AreCounted(closed, AfterRows(closed, byPlace, v, 0), after, ResultOfRows(closed, byPlace, v, 0),
                       byPlace, v, 0)
  {
    assert Risen(closed, closed) == {};
  }

  lemma RowCounted(alerts: AlertTable, closed: AlertTable, now: AlertTable, after: AlertTable, byPlace: Highest,
                   v: Review, k: nat)
    requires IsReview(v, alerts) && k < |v.rows| && AreIn(byPlace, closed)
    requires IsWritten(closed, now, byPlace, v, k) && IsHalfway(now, byPlace, v, k)
    requires IsWritten(closed, after, byPlace, v, |v.rows|)
    ensures ExistingOf(byPlace, v.rows[k]).Some? ==> ExistingOf(byPlace, v.rows[k]).value in now
    ensures AnswerOf(byPlace, v, k) in after
    ensures var next := AfterRow(now, v.rows[k], ExistingOf(byPlace, v.rows[k]), v.newIds[k], v);
            var r, i := ResultOfRow(now, v.rows[k], ExistingOf(byPlace, v.rows[k]), v), AnswerOf(byPlace, v, k);
            && |next| == |now| + r.created && |Risen(closed, next)| == |Risen(closed, now)| + r.upgraded
            && r.notified == if IsNews(closed, after, i) then v.notified(v.rows[k], after[i].level) else 0
  {
    hide AfterRow, IsHalfway, AnswerAfter, IsLoaded, AreOtherRows, AnswerOf, AreIn, ResultOfRow, Risen, Answers,
      IsWritten;
    NotYetAnswered(closed, now, byPlace, v, k, alerts);
    RowCounts(closed, now, byPlace, v, k, alerts);
    RowWritesAnswer(closed, now, byPlace, v, k, alerts);
    NotYetRaised(closed, now, byPlace, v, k);
    WrittenKeepsAll(closed, now, byPlace, v, k);
    RaisedSnoc(closed, now, AnswerOf(byPlace, v, k), AnswerAfter(closed, byPlace, v, k));
    ToldAtAnswer(closed, after, byPlace, v, k);
  }

  lemma WrittenKeepsAll(closed: AlertTable, now: AlertTable, byPlace: Highest, v: Review, k: nat)
    requires k <= |v.rows| == |v.newIds| && AreIn(byPlace, closed) && IsWritten(closed, now, byPlace, v, k)
    ensures forall i :: i in closed ==> i in now
  {}

  /**
   Created are as many as there are alerts more than before, upgraded as many as have a higher level, closed as
   many as there were open automatic alerts of exempt sections; told are the people of new and of risen alerts.
   */
  lemma PassIsCounted(alerts: AlertTable, byPlace: Highest, v: Review)
    requires IsReview(v, alerts)
    requires AreIn(byPlace, Closed(alerts, v)) && IsHighest(byPlace, alerts, v)
    ensures forall m :: 0 <= m < |v.rows| ==>
              AnswerOf(byPlace, v, m) in AfterRows(Closed(alerts, v), byPlace, v, |v.rows|)
    ensures var after := AfterRows(Closed(alerts, v), byPlace, v, |v.rows|);
            var r := ResultOfRows(Closed(alerts, v), byPlace, v, |v.rows|);
            && r.created == |after| - |alerts|
            && r.upgraded == |Risen(alerts, after)|
            && r.notified == Told(alerts, after, byPlace, v, |v.rows|)
    ensures forall i :: i in ClosedIds(alerts, v) <==> i in alerts && IsExemptAutomatic(alerts[i], v)
  {
    hide IsHighest, AfterRows, IsHalfway, AnswerAfter, IsLoaded, AreOtherRows, AnswerOf, AreIn, ResultOfRows,
      Answers, IsWritten;
    var closed := Closed(alerts, v);
    var after := AfterRows(closed, byPlace, v, |v.rows|);
    RowsWrite(alerts, byPlace, v, |v.rows|);
    RowsCount(alerts, byPlace, v, after, |v.rows|);
    assert closed.Keys == alerts.Keys;
    assert Risen(closed, after) == Risen(alerts, after);
    ToldFromClosed(alerts, v, after, byPlace, |v.rows|);
  }

  lemma {:induction false} ToldFromClosed(alerts: AlertTable, v: Review, after: AlertTable, byPlace: Highest, k: nat)
    requires k <= |v.rows| == |v.newIds|
    requires forall m :: 0 <= m < k ==> AnswerOf(byPlace, v, m) in after
    ensures Told(Closed(alerts, v), after, byPlace, v, k) == Told(alerts, after, byPlace, v, k)
  {
    hide AnswerOf;
    if k > 0 {
      ToldFromClosed(alerts, v, after, byPlace, k - 1);
    }
  }
}
