/**
 The whole pass (apps/api/src/modules/attendance-alerts/attendance-review.service.ts:149-177): what it
 counts, what it keeps, and that a second one finds nothing to do.
 */
module AttendancePass {
  import opened Options
  import opened Alerts
  import opened AlertSteps
  import opened AttendanceReview
  import D = AttendanceDecision

  type Highest = map<Place, AlertId>

  function ExistingOf(byPlace: Highest, row: ReviewRow): Option<AlertId> {
    var place := Place(row.student, Some(row.section));
    if place in byPlace then Some(byPlace[place]) else None
  }

  predicate AreIn(byPlace: Highest, alerts: AlertTable) {
    forall p :: p in byPlace ==> byPlace[p] in alerts
  }

  /** The table after the first `k` rows. */
  function AfterRows(alerts: AlertTable, byPlace: Highest, v: Review, k: nat): (after: AlertTable)
    requires k <= |v.rows| == |v.newIds| && AreIn(byPlace, alerts)
    ensures forall i :: i in alerts ==> i in after
  {
    if k == 0 then alerts
    else
      var row := v.rows[k - 1];
      AfterRow(AfterRows(alerts, byPlace, v, k - 1), row, ExistingOf(byPlace, row), v.newIds[k - 1], v)
  }

  function ResultOfRows(alerts: AlertTable, byPlace: Highest, v: Review, k: nat): Result
    requires k <= |v.rows| == |v.newIds| && AreIn(byPlace, alerts)
  {
    if k == 0 then Result(0, 0, 0, 0, 0)
    else
      var before, row := AfterRows(alerts, byPlace, v, k - 1), v.rows[k - 1];
      Add(ResultOfRows(alerts, byPlace, v, k - 1), ResultOfRow(before, row, ExistingOf(byPlace, row), v))
  }

  /** The highest open alerts are those of the table after closing. */
  ghost predicate IsHighest(byPlace: Highest, alerts: AlertTable, v: Review) {
    exists open :: ListsOpen(open, Closed(alerts, v), v.term) && IsHighestMap(byPlace, open, Closed(alerts, v))
  }

  lemma HighestAreIn(byPlace: Highest, open: seq<AlertId>, alerts: AlertTable)
    requires (forall k :: 0 <= k < |open| ==> open[k] in alerts) && IsHighestMap(byPlace, open, alerts)
    ensures AreIn(byPlace, alerts)
  {
    forall p | p in byPlace
      ensures byPlace[p] in alerts
    {
      assert IsHighestAt(byPlace[p], p, open, alerts);
    }
  }

  lemma AddJoins(a: Result, b: Result, c: Result)
    ensures Add(Add(a, b), c) == Add(a, Add(b, c)) && Add(a, Result(0, 0, 0, 0, 0)) == a
  {}

  method ReviewRows(closed: AlertTable, byPlace: Highest, v: Review, first: Result)
    returns (alerts: AlertTable, result: Result)
    requires |v.rows| == |v.newIds| && AreIn(byPlace, closed)
    requires forall k :: 0 <= k < |v.rows| ==> IsLoaded(v.rows[k], v)
    ensures alerts == AfterRows(closed, byPlace, v, |v.rows|)
    ensures result == Add(first, ResultOfRows(closed, byPlace, v, |v.rows|))
  {
    hide AfterRow, ResultOfRow, IsLoaded, Add;
    alerts, result := closed, first;
    AddJoins(first, first, first);
    for k := 0 to |v.rows|
      invariant alerts == AfterRows(closed, byPlace, v, k)
      invariant result == Add(first, ResultOfRows(closed, byPlace, v, k))
    {
      var row := v.rows[k];
      var part;
      alerts, part := ReviewTheRow(alerts, row, ExistingOf(byPlace, row), v.newIds[k], v);
      AddJoins(first, ResultOfRows(closed, byPlace, v, k), part);
      result := Add(result, part);
    }
  }

  method ReviewTerm(alerts: AlertTable, v: Review, open: seq<AlertId>)
    returns (alerts': AlertTable, result: Result, byPlace: Highest)
    requires IsReview(v, alerts) && ListsOpen(open, Closed(alerts, v), v.term)
    ensures IsHighest(byPlace, alerts, v) && AreIn(byPlace, Closed(alerts, v))
    ensures alerts' == AfterRows(Closed(alerts, v), byPlace, v, |v.rows|)
    ensures result == Add(Result(0, 0, 0, 0, |ClosedIds(alerts, v)|),
                          ResultOfRows(Closed(alerts, v), byPlace, v, |v.rows|))
  {
    hide IsHighestMap, Closed, ClosedIds, AfterRows, ResultOfRows, AreIn, Add, IsLoaded;
    var closed := Closed(alerts, v);
    byPlace := HighestByKey(open, closed);
    HighestAreIn(byPlace, open, closed);
    alerts', result := ReviewRows(closed, byPlace, v, Result(0, 0, 0, 0, |ClosedIds(alerts, v)|));
  }

  lemma RowIsCounted(alerts: AlertTable, row: ReviewRow, existing: Option<AlertId>, v: Review)
    requires existing.Some? ==> existing.value in alerts
    ensures var r := ResultOfRow(alerts, row, existing, v); r.created + r.upgraded + r.kept == 1 && r.closed == 0
  {}

  /** Every row is created, upgraded or kept. */
  lemma {:induction false} RowsAreCounted(alerts: AlertTable, byPlace: Highest, v: Review, k: nat)
    requires k <= |v.rows| == |v.newIds| && AreIn(byPlace, alerts)
    ensures var r := ResultOfRows(alerts, byPlace, v, k); r.created + r.upgraded + r.kept == k && r.closed == 0
  {
    hide ResultOfRow, AfterRows;
    if k > 0 {
      RowsAreCounted(alerts, byPlace, v, k - 1);
      RowIsCounted(AfterRows(alerts, byPlace, v, k - 1), v.rows[k - 1], ExistingOf(byPlace, v.rows[k - 1]), v);
    }
  }

  // ---- What the first rows leave for the later ones ----

  /** The alert that answers for a row once it has been reviewed. */
  function AnswerOf(byPlace: Highest, v: Review, m: nat): AlertId
    requires m < |v.rows| == |v.newIds|
  {
    var existing := ExistingOf(byPlace, v.rows[m]);
    if existing.Some? then existing.value else v.newIds[m]
  }

  /** Row `m` has not been looked at: what the query found for it is as it was. */
  ghost predicate IsPending(now: AlertTable, byPlace: Highest, v: Review, m: nat)
    requires m < |v.rows| == |v.newIds|
  {
    && v.newIds[m] !in now
    && match ExistingOf(byPlace, v.rows[m])
       case Some(i) => i in now && IsOpenFor(now[i], SubjectOfRow(v.rows[m], v.term))
       case None => forall i :: i in now ==> !IsOpenFor(now[i], SubjectOfRow(v.rows[m], v.term))
  }

  ghost predicate ArePending(now: AlertTable, byPlace: Highest, v: Review, k: nat)
    requires |v.rows| == |v.newIds|
  {
    forall m :: k <= m < |v.rows| ==> IsPending(now, byPlace, v, m)
  }

  /** Row `m` has an open alert that deciding again would leave alone. */
  ghost predicate IsAnswered(now: AlertTable, byPlace: Highest, v: Review, m: nat)
    requires m < |v.rows| == |v.newIds|
  {
    var i := AnswerOf(byPlace, v, m);
    && i in now && IsOpenFor(now[i], SubjectOfRow(v.rows[m], v.term))
    && D.DecideAction(v.rows[m].absentSessions, Deciding(Some(now[i]))) == D.Unchanged
  }

  ghost predicate AreAnswered(now: AlertTable, byPlace: Highest, v: Review, k: nat)
    requires k <= |v.rows| == |v.newIds|
  {
    forall m :: 0 <= m < k ==> IsAnswered(now, byPlace, v, m)
  }

  /** The closing leaves the open alerts of the term as the query then finds them. */
  lemma AllPendingAtFirst(alerts: AlertTable, byPlace: Highest, v: Review)
    requires IsReview(v, alerts) && IsHighest(byPlace, alerts, v)
    ensures ArePending(Closed(alerts, v), byPlace, v, 0)
  {
    var now := Closed(alerts, v);
    var open :| ListsOpen(open, now, v.term) && IsHighestMap(byPlace, open, now);
    forall m | 0 <= m < |v.rows|
      ensures IsPending(now, byPlace, v, m)
    {
      RowAtFirst(now, open, byPlace, v, m);
    }
  }

  lemma OpenHasPlace(now: AlertTable, open: seq<AlertId>, byPlace: Highest, i: AlertId)
    requires forall k :: 0 <= k < |open| ==> open[k] in now
    requires i in open && IsHighestMap(byPlace, open, now)
    ensures PlaceOf(now[i]) in byPlace
  {
    var k :| 0 <= k < |open| && open[k] == i;
    assert PlaceOf(now[open[k]]) in byPlace;
  }

  lemma RowAtFirst(now: AlertTable, open: seq<AlertId>, byPlace: Highest, v: Review, m: nat)
    requires m < |v.rows| == |v.newIds| && v.newIds[m] !in now
    requires ListsOpen(open, now, v.term) && IsHighestMap(byPlace, open, now)
    ensures IsPending(now, byPlace, v, m)
  {
    var row := v.rows[m];
    var place := Place(row.student, Some(row.section));
    if place in byPlace {
      assert IsHighestAt(byPlace[place], place, open, now);
    } else {
      forall i | i in now
        ensures !IsOpenFor(now[i], SubjectOfRow(row, v.term))
      {
        if IsOpenFor(now[i], SubjectOfRow(row, v.term)) {
          OpenHasPlace(now, open, byPlace, i);
        }
      }
    }
  }

  // ---- One row in the middle of the pass ----

  lemma ReviewedMovesOn(row: ReviewRow, a: Alert, v: Review)
    requires IsUnresolved(a) && IsLoaded(row, v)
    ensures var a' := Reviewed(row, a, v);
            && MovesOn(a, a') && IsUnresolved(a') && (a'.ownerCaredAt.Some? ==> a.ownerCaredAt.Some?)
            && (a'.level == a.level || a'.level == 3) && a'.source == a.source && a'.resolution == a.resolution
            && D.DecideAction(row.absentSessions, Deciding(Some(a'))) == D.Unchanged
  {
    hide NextReason;
  }

  /** The absences are on record; only an upgrade reopens the alert and asks the lecturer to care again. */
  lemma ReviewedRecords(row: ReviewRow, a: Alert, v: Review)
    requires IsUnresolved(a) && IsLoaded(row, v)
    ensures var a' := Reviewed(row, a, v);
            && a'.absentSessions.Some? && a'.absentSessions.value >= row.absentSessions.value
            && (if IsUpgrade(row, a) then
                  a'.level == 3 && a'.status == OPEN && a'.ownerCaredAt.None? && a'.absentSessions == row.absentSessions
                else
                  a'.level == a.level && a'.status == a.status && a'.ownerCaredAt == a.ownerCaredAt)
            && (a'.absentSessions != a.absentSessions && a.source == AUTO_ATTENDANCE ==> a'.reason == v.reasonFor(row))
            && (a'.absentSessions == a.absentSessions && !IsUpgrade(row, a) ==> a' == a)
  {}

  lemma AutoAlertIsAnswered(row: ReviewRow, v: Review)
    requires IsLoaded(row, v)
    ensures var a := AutoAlert(row, LevelOfRow(row), v);
            && IsOpenFor(a, SubjectOfRow(row, v.term)) && 2 <= a.level <= 3
            && D.DecideAction(row.absentSessions, Deciding(Some(a))) == D.Unchanged
  {}

  lemma SubjectsDiffer(v: Review, alerts: AlertTable, j: nat, k: nat)
    requires IsReview(v, alerts) && j < |v.rows| && k < |v.rows| && j != k
    ensures SubjectOfRow(v.rows[j], v.term) != SubjectOfRow(v.rows[k], v.term) && v.newIds[j] != v.newIds[k]
  {
    assert AreOtherRows(v.rows[if j < k then j else k], v.rows[if j < k then k else j]);
  }

  /** A pending row changes the table at its answer only, and there to an open alert of its own subject. */
  lemma RowWrites(now: AlertTable, byPlace: Highest, v: Review, k: nat, alerts: AlertTable)
    requires IsReview(v, alerts) && k < |v.rows| && IsPending(now, byPlace, v, k)
    ensures ExistingOf(byPlace, v.rows[k]).Some? ==> ExistingOf(byPlace, v.rows[k]).value in now
    ensures var after := AfterRow(now, v.rows[k], ExistingOf(byPlace, v.rows[k]), v.newIds[k], v);
            var i := AnswerOf(byPlace, v, k);
            i in after && after == now[i := after[i]] && IsAnswered(after, byPlace, v, k)
    ensures ExistingOf(byPlace, v.rows[k]).None? ==> !IsTaken(now, SubjectOfRow(v.rows[k], v.term))
  {
    hide Reviewed, AutoAlert;
    var row := v.rows[k];
    if ExistingOf(byPlace, row).Some? {
      ReviewedMovesOn(row, now[ExistingOf(byPlace, row).value], v);
    } else {
      AutoAlertIsAnswered(row, v);
    }
  }

  lemma PendingStays(
    now: AlertTable, after: AlertTable, byPlace: Highest, v: Review, k: nat, m: nat, alerts: AlertTable)
    requires IsReview(v, alerts) && k < m < |v.rows|
    requires IsPending(now, byPlace, v, k) && IsPending(now, byPlace, v, m)
    requires var i := AnswerOf(byPlace, v, k);
             i in after && after == now[i := after[i]] && IsOpenFor(after[i], SubjectOfRow(v.rows[k], v.term))
    ensures IsPending(after, byPlace, v, m)
  {
    SubjectsDiffer(v, alerts, k, m);
  }

  lemma AnsweredStays(
    now: AlertTable, after: AlertTable, byPlace: Highest, v: Review, k: nat, m: nat, alerts: AlertTable)
    requires IsReview(v, alerts) && m < k < |v.rows|
    requires IsPending(now, byPlace, v, k) && IsAnswered(now, byPlace, v, m)
    requires var i := AnswerOf(byPlace, v, k); i in after && after == now[i := after[i]]
    ensures IsAnswered(after, byPlace, v, m)
  {
    SubjectsDiffer(v, alerts, k, m);
    assert AnswerOf(byPlace, v, m) != AnswerOf(byPlace, v, k);
  }

  ghost predicate IsHalfway(now: AlertTable, byPlace: Highest, v: Review, k: nat)
    requires k <= |v.rows| == |v.newIds|
  {
    ArePending(now, byPlace, v, k) && AreAnswered(now, byPlace, v, k)
  }

  lemma RowAdvances(now: AlertTable, byPlace: Highest, v: Review, k: nat, alerts: AlertTable)
    requires IsReview(v, alerts) && k < |v.rows| && IsHalfway(now, byPlace, v, k)
    requires ExistingOf(byPlace, v.rows[k]).Some? ==> ExistingOf(byPlace, v.rows[k]).value in now
    ensures IsHalfway(AfterRow(now, v.rows[k], ExistingOf(byPlace, v.rows[k]), v.newIds[k], v), byPlace, v, k + 1)
  {
    var after := AfterRow(now, v.rows[k], ExistingOf(byPlace, v.rows[k]), v.newIds[k], v);
    RowWrites(now, byPlace, v, k, alerts);
    hide AfterRow, IsPending;
    forall m | k + 1 <= m < |v.rows|
      ensures IsPending(after, byPlace, v, m)
    {
      PendingStays(now, after, byPlace, v, k, m, alerts);
    }
    forall m | 0 <= m < k + 1
      ensures IsAnswered(after, byPlace, v, m)
    {
      if m < k {
        AnsweredStays(now, after, byPlace, v, k, m, alerts);
      }
    }
  }

  lemma {:induction false} PassIsHalfway(alerts: AlertTable, byPlace: Highest, v: Review, k: nat)
    requires IsReview(v, alerts) && k <= |v.rows| && AreIn(byPlace, Closed(alerts, v))
    requires IsHighest(byPlace, alerts, v)
    ensures IsHalfway(AfterRows(Closed(alerts, v), byPlace, v, k), byPlace, v, k)
  {
    hide IsHalfway, AfterRow, IsHighest, Closed, IsLoaded, AreOtherRows;
    if k == 0 {
      AllPendingAtFirst(alerts, byPlace, v);
      NothingAnswered(Closed(alerts, v), byPlace, v);
    } else {
      PassIsHalfway(alerts, byPlace, v, k - 1);
      RowAdvances(AfterRows(Closed(alerts, v), byPlace, v, k - 1), byPlace, v, k - 1, alerts);
    }
  }

  lemma NothingAnswered(now: AlertTable, byPlace: Highest, v: Review)
    requires |v.rows| == |v.newIds| && ArePending(now, byPlace, v, 0)
    ensures IsHalfway(now, byPlace, v, 0)
  {}

  // ---- What the pass keeps ----

  lemma ClosedMoves(a: Alert, v: Review)
    ensures var a' := ClosedAlert(a, v);
            MovesOn(a, a') && (IsUnresolved(a') ==> IsUnresolved(a)) && a'.ownerCaredAt == a.ownerCaredAt
            && !IsToClose(a', v) && a'.level == a.level && (IsSoundAlert(a) ==> IsSoundAlert(a'))
  {}

  lemma ClosingKeeps(b: Board, v: Review, lecturers: Lecturers)
    requires IsSound(b, lecturers)
    ensures Keeps(b, Board(Closed(b.alerts, v), b.logs), lecturers)
  {
    hide ClosedAlert;
    var after := Board(Closed(b.alerts, v), b.logs);
    forall i | i in b.alerts
      ensures MovesOn(b.alerts[i], after.alerts[i]) && IsSoundAlert(after.alerts[i]) && IsBacked(after, i, lecturers)
    {
      ClosedMoves(b.alerts[i], v);
      assert IsSoundAlert(b.alerts[i]);
      BackingKept(b, after, i, lecturers);
    }
    forall i, j | HasOneOpenPerSubject(b.alerts) && i in after.alerts && j in after.alerts && i != j
      ensures AreApart(after.alerts[i], after.alerts[j])
    {
      ClosedMoves(b.alerts[i], v);
      ClosedMoves(b.alerts[j], v);
      assert AreApart(b.alerts[i], b.alerts[j]);
    }
  }

  lemma RowKeeps(b: Board, row: ReviewRow, existing: Option<AlertId>, newId: AlertId, v: Review, lecturers: Lecturers)
    requires IsSound(b, lecturers) && IsLoaded(row, v) && newId !in b.alerts
    requires existing.Some? ==> existing.value in b.alerts && IsUnresolved(b.alerts[existing.value])
    requires existing.None? ==> forall i :: i in b.alerts ==> !IsOpenFor(b.alerts[i], SubjectOfRow(row, v.term))
    ensures Keeps(b, Board(AfterRow(b.alerts, row, existing, newId, v), b.logs), lecturers)
  {
    hide IsSound, HasOneOpenPerSubject, Reviewed, MoveOn, D.DecideAction;
    if existing.Some? {
      ReviewedMovesOn(row, b.alerts[existing.value], v);
      AlertIsSound(b, existing.value, lecturers);
      ChangeKeeps(b, existing.value, Reviewed(row, b.alerts[existing.value], v), lecturers);
    } else {
      CreationKeepsIff(b, newId, AutoAlert(row, LevelOfRow(row), v), lecturers);
    }
  }

  lemma MovesOnThrough(a: AlertTable, b: AlertTable, c: AlertTable)
    requires MoveOn(a, b) && MoveOn(b, c) && (forall i :: i in a && i in c ==> i in b)
    ensures MoveOn(a, c)
  {}

  lemma MovesNowhere(a: AlertTable)
    ensures MoveOn(a, a)
  {}

  lemma {:induction false} RowsKeep(b: Board, byPlace: Highest, v: Review, k: nat, lecturers: Lecturers)
    requires IsSound(b, lecturers) && IsReview(v, b.alerts) && k <= |v.rows|
    requires AreIn(byPlace, Closed(b.alerts, v)) && IsHighest(byPlace, b.alerts, v)
    ensures Keeps(b, Board(AfterRows(Closed(b.alerts, v), byPlace, v, k), b.logs), lecturers)
  {
    hide IsSound, HasOneOpenPerSubject, MoveOn, AfterRow, IsHighest, IsLoaded, AreOtherRows;
    ClosingKeeps(b, v, lecturers);
    if k > 0 {
      var before := AfterRows(Closed(b.alerts, v), byPlace, v, k - 1);
      RowsKeep(b, byPlace, v, k - 1, lecturers);
      PassIsHalfway(b.alerts, byPlace, v, k - 1);
      assert IsPending(before, byPlace, v, k - 1);
      RowKeeps(Board(before, b.logs), v.rows[k - 1], ExistingOf(byPlace, v.rows[k - 1]), v.newIds[k - 1], v, lecturers);
      MovesOnThrough(b.alerts, before, AfterRows(Closed(b.alerts, v), byPlace, v, k));
    }
  }

  // ---- A second pass ----

  /** Two passes over the same rows, in the same term, with the same exempt subjects. */
  ghost predicate IsRepeat(v: Review, again: Review) {
    again.term == v.term && again.isExempt == v.isExempt && again.rows == v.rows
  }

  ghost predicate HasNoneToClose(alerts: AlertTable, v: Review) {
    forall i :: i in alerts ==> !IsToClose(alerts[i], v)
  }

  lemma {:induction false} NoneLeftToClose(alerts: AlertTable, byPlace: Highest, v: Review, k: nat)
    requires IsReview(v, alerts) && k <= |v.rows|
    requires AreIn(byPlace, Closed(alerts, v)) && IsHighest(byPlace, alerts, v)
    ensures HasNoneToClose(AfterRows(Closed(alerts, v), byPlace, v, k), v)
  {
    hide AfterRow, IsHighest, IsToClose, AreOtherRows;
    if k == 0 {
      forall i | i in Closed(alerts, v)
        ensures !IsToClose(Closed(alerts, v)[i], v)
      {
        ClosedMoves(alerts[i], v);
      }
    } else {
      var before := AfterRows(Closed(alerts, v), byPlace, v, k - 1);
      NoneLeftToClose(alerts, byPlace, v, k - 1);
      PassIsHalfway(alerts, byPlace, v, k - 1);
      assert IsPending(before, byPlace, v, k - 1);
      RowLeavesNoneToClose(before, byPlace, v, k - 1, alerts);
    }
  }

  lemma RowLeavesNoneToClose(now: AlertTable, byPlace: Highest, v: Review, k: nat, alerts: AlertTable)
    requires IsReview(v, alerts) && k < |v.rows| && IsPending(now, byPlace, v, k) && HasNoneToClose(now, v)
    ensures ExistingOf(byPlace, v.rows[k]).Some? ==> ExistingOf(byPlace, v.rows[k]).value in now
    ensures HasNoneToClose(AfterRow(now, v.rows[k], ExistingOf(byPlace, v.rows[k]), v.newIds[k], v), v)
  {
    hide AfterRow, IsPending, IsAnswered, IsToClose, IsLoaded, AreOtherRows;
    RowWrites(now, byPlace, v, k, alerts);
    AnswerStaysOpen(AfterRow(now, v.rows[k], ExistingOf(byPlace, v.rows[k]), v.newIds[k], v), byPlace, v, k);
  }

  /** The section of a loaded row is not exempt, so its alert is not closed. */
  lemma AnswerStaysOpen(now: AlertTable, byPlace: Highest, v: Review, m: nat)
    requires m < |v.rows| == |v.newIds| && IsLoaded(v.rows[m], v) && IsAnswered(now, byPlace, v, m)
    ensures !IsToClose(now[AnswerOf(byPlace, v, m)], v)
  {}

  lemma NothingToClose(alerts: AlertTable, v: Review, again: Review)
    requires IsRepeat(v, again) && HasNoneToClose(alerts, v)
    ensures Closed(alerts, again) == alerts && ClosedIds(alerts, again) == {}
  {
    forall i | i in alerts
      ensures !IsToClose(alerts[i], again)
    {
      assert !IsToClose(alerts[i], v);
    }
  }

  /** With one open alert for a subject, the query of the second pass finds the one that answered. */
  lemma FoundAgain(now: AlertTable, byPlace: Highest, v: Review, again: Review, byPlace2: Highest, m: nat)
    requires |v.rows| == |v.newIds| && m < |v.rows| && IsRepeat(v, again) && IsAnswered(now, byPlace, v, m)
    requires HasOneOpenPerSubject(now) && Closed(now, again) == now && IsHighest(byPlace2, now, again)
    ensures ExistingOf(byPlace2, again.rows[m]) == Some(AnswerOf(byPlace, v, m))
  {
    var i := AnswerOf(byPlace, v, m);
    var open :| ListsOpen(open, now, again.term) && IsHighestMap(byPlace2, open, now);
    assert i in open;
    OpenHasPlace(now, open, byPlace2, i);
    var place := PlaceOf(now[i]);
    assert IsHighestAt(byPlace2[place], place, open, now);
    assert AreApart(now[byPlace2[place]], now[i]) || byPlace2[place] == i;
  }

  lemma AnsweredRowIsKept(now: AlertTable, byPlace: Highest, v: Review, again: Review, m: nat, newId: AlertId)
    requires |v.rows| == |v.newIds| && m < |v.rows| && IsRepeat(v, again) && IsAnswered(now, byPlace, v, m)
    ensures AfterRow(now, again.rows[m], Some(AnswerOf(byPlace, v, m)), newId, again) == now
    ensures ResultOfRow(now, again.rows[m], Some(AnswerOf(byPlace, v, m)), again) == Result(0, 0, 1, 0, 0)
  {}

  lemma {:induction false} NothingToDo(
    now: AlertTable, byPlace: Highest, v: Review, again: Review, byPlace2: Highest, k: nat)
    requires k <= |v.rows| == |v.newIds| == |again.newIds| && IsRepeat(v, again)
    requires AreAnswered(now, byPlace, v, |v.rows|) && HasOneOpenPerSubject(now) && Closed(now, again) == now
    requires IsHighest(byPlace2, now, again) && AreIn(byPlace2, now)
    ensures AfterRows(now, byPlace2, again, k) == now
    ensures ResultOfRows(now, byPlace2, again, k) == Result(0, 0, k, 0, 0)
  {
    hide HasOneOpenPerSubject, IsHighest, Closed, AreIn, AfterRow, ResultOfRow, IsAnswered;
    if k > 0 {
      NothingToDo(now, byPlace, v, again, byPlace2, k - 1);
      assert IsAnswered(now, byPlace, v, k - 1);
      FoundAgain(now, byPlace, v, again, byPlace2, k - 1);
      AnsweredRowIsKept(now, byPlace, v, again, k - 1, again.newIds[k - 1]);
    }
  }

  /**
   A second pass over the same rows, with no other step between, creates, upgrades, closes and tells nothing
   and leaves the table as it is, whatever order the queries return the open alerts in.
   */
  lemma ReviewingAgainChangesNothing(
    b: Board, v: Review, byPlace: Highest, again: Review, byPlace2: Highest, lecturers: Lecturers)
    requires Invariant(b, lecturers) && IsReview(v, b.alerts) && IsRepeat(v, again)
    requires AreIn(byPlace, Closed(b.alerts, v)) && IsHighest(byPlace, b.alerts, v)
    requires var now := AfterRows(Closed(b.alerts, v), byPlace, v, |v.rows|);
             IsReview(again, now) && AreIn(byPlace2, Closed(now, again)) && IsHighest(byPlace2, now, again)
    ensures var now := AfterRows(Closed(b.alerts, v), byPlace, v, |v.rows|);
            && AfterRows(Closed(now, again), byPlace2, again, |again.rows|) == now && ClosedIds(now, again) == {}
            && ResultOfRows(Closed(now, again), byPlace2, again, |again.rows|) == Result(0, 0, |v.rows|, 0, 0)
  {
    hide IsHighest, AreIn, Closed, AreOtherRows, IsLoaded, AfterRows, ResultOfRows, ClosedIds;
    var now := AfterRows(Closed(b.alerts, v), byPlace, v, |v.rows|);
    RowsKeep(b, byPlace, v, |v.rows|, lecturers);
    PassIsHalfway(b.alerts, byPlace, v, |v.rows|);
    NoneLeftToClose(b.alerts, byPlace, v, |v.rows|);
    NothingToClose(now, v, again);
    NothingToDo(now, byPlace, v, again, byPlace2, |v.rows|);
  }

  // ---- A second pass where a subject has several open alerts ----

  /** Nothing but the absences and the reason may differ. */
  predicate SameStanding(a: Alert, a': Alert) {
    a' == a.(absentSessions := a'.absentSessions, reason := a'.reason)
  }

  ghost predicate KeepStanding(alerts: AlertTable, after: AlertTable) {
    after.Keys == alerts.Keys && forall i :: i in alerts ==> SameStanding(alerts[i], after[i])
  }

  /** The query of the second pass finds an open alert that is not below the one that answered. */
  lemma FoundIsNoLower(now: AlertTable, byPlace: Highest, v: Review, again: Review, byPlace2: Highest, m: nat)
    requires |v.rows| == |v.newIds| && m < |v.rows| && IsRepeat(v, again) && IsAnswered(now, byPlace, v, m)
    requires Closed(now, again) == now && IsHighest(byPlace2, now, again)
    ensures var e := ExistingOf(byPlace2, again.rows[m]);
            && e.Some? && e.value in now && IsUnresolved(now[e.value])
            && now[e.value].level >= now[AnswerOf(byPlace, v, m)].level
  {
    var i := AnswerOf(byPlace, v, m);
    var open :| ListsOpen(open, now, again.term) && IsHighestMap(byPlace2, open, now);
    assert i in open;
    OpenHasPlace(now, open, byPlace2, i);
    var place := PlaceOf(now[i]);
    assert IsHighestAt(byPlace2[place], place, open, now);
    var k :| 0 <= k < |open| && open[k] == i;
    assert now[open[k]].level <= now[byPlace2[place]].level;
  }

  /** An alert at the level of its absences is at most refreshed. */
  lemma RowKeepsStanding(alerts: AlertTable, row: ReviewRow, i: AlertId, newId: AlertId, v: Review, answer: Alert)
    requires i in alerts && alerts[i].level >= answer.level
    requires D.DecideAction(row.absentSessions, Deciding(Some(answer))) == D.Unchanged
    ensures KeepStanding(alerts, AfterRow(alerts, row, Some(i), newId, v))
    ensures ResultOfRow(alerts, row, Some(i), v) == Result(0, 0, 1, 0, 0)
  {
    hide NextReason;
  }

  lemma StandingThrough(a: AlertTable, b: AlertTable, c: AlertTable)
    requires KeepStanding(a, b) && KeepStanding(b, c)
    ensures KeepStanding(a, c)
  {
    forall i | i in a
      ensures SameStanding(a[i], c[i])
    {
      assert SameStanding(a[i], b[i]) && SameStanding(b[i], c[i]);
    }
  }

  lemma StandingOfItself(a: AlertTable)
    ensures KeepStanding(a, a)
  {}

  lemma {:induction false} NobodyIsTold(
    now: AlertTable, byPlace: Highest, v: Review, again: Review, byPlace2: Highest, k: nat)
    requires k <= |v.rows| == |v.newIds| == |again.newIds| && IsRepeat(v, again)
    requires AreAnswered(now, byPlace, v, |v.rows|) && Closed(now, again) == now
    requires IsHighest(byPlace2, now, again) && AreIn(byPlace2, now)
    ensures KeepStanding(now, AfterRows(now, byPlace2, again, k))
    ensures ResultOfRows(now, byPlace2, again, k) == Result(0, 0, k, 0, 0)
  {
    hide IsHighest, Closed, AfterRow, ResultOfRow, KeepStanding;
    if k == 0 {
      StandingOfItself(now);
    } else {
      var before := AfterRows(now, byPlace2, again, k - 1);
      NobodyIsTold(now, byPlace, v, again, byPlace2, k - 1);
      assert IsAnswered(now, byPlace, v, k - 1);
      FoundIsNoLower(now, byPlace, v, again, byPlace2, k - 1);
      var i := ExistingOf(byPlace2, again.rows[k - 1]).value;
      StandsAt(now, before, i);
      RowKeepsStanding(before, again.rows[k - 1], i, again.newIds[k - 1], again, now[AnswerOf(byPlace, v, k - 1)]);
      StandingThrough(now, before, AfterRows(now, byPlace2, again, k));
    }
  }

  lemma StandsAt(now: AlertTable, after: AlertTable, i: AlertId)
    requires KeepStanding(now, after) && i in now
    ensures i in after && after[i].level == now[i].level
  {
    assert SameStanding(now[i], after[i]);
  }

  /**
   On every board, also where a subject has several open alerts: a second pass over the same rows creates,
   upgrades, closes and tells nothing, and changes at most the absences and the reason of an alert.
   */
  lemma ReviewingAgainTellsNobody(
    alerts: AlertTable, v: Review, byPlace: Highest, again: Review, byPlace2: Highest)
    requires IsReview(v, alerts) && IsRepeat(v, again)
    requires AreIn(byPlace, Closed(alerts, v)) && IsHighest(byPlace, alerts, v)
    requires var now := AfterRows(Closed(alerts, v), byPlace, v, |v.rows|);
             IsReview(again, now) && AreIn(byPlace2, Closed(now, again)) && IsHighest(byPlace2, now, again)
    ensures var now := AfterRows(Closed(alerts, v), byPlace, v, |v.rows|);
            && KeepStanding(now, AfterRows(Closed(now, again), byPlace2, again, |again.rows|))
            && ClosedIds(now, again) == {}
            && ResultOfRows(Closed(now, again), byPlace2, again, |again.rows|) == Result(0, 0, |v.rows|, 0, 0)
  {
    hide IsHighest, AreIn, Closed, AreOtherRows, IsLoaded, AfterRows, ResultOfRows, ClosedIds, KeepStanding;
    var now := AfterRows(Closed(alerts, v), byPlace, v, |v.rows|);
    PassIsHalfway(alerts, byPlace, v, |v.rows|);
    NoneLeftToClose(alerts, byPlace, v, |v.rows|);
    NothingToClose(now, v, again);
    NobodyIsTold(now, byPlace, v, again, byPlace2, |v.rows|);
  }

  // ---- Levels ----

  /** The review never makes an alert critical: where it sets a level, that is 2 or 3. */
  ghost predicate SetsNoCritical(alerts: AlertTable, after: AlertTable) {
    forall i :: i in after && (i !in alerts || after[i].level != alerts[i].level) ==> 2 <= after[i].level <= 3
  }

  lemma {:induction false} ReviewNeverCritical(alerts: AlertTable, byPlace: Highest, v: Review, k: nat)
    requires IsReview(v, alerts) && k <= |v.rows| && AreIn(byPlace, Closed(alerts, v))
    ensures SetsNoCritical(alerts, AfterRows(Closed(alerts, v), byPlace, v, k))
  {
    hide AfterRow, ClosedAlert, IsLoaded, AreOtherRows;
    if k == 0 {
      forall i | i in alerts
        ensures Closed(alerts, v)[i].level == alerts[i].level
      {
        ClosedMoves(alerts[i], v);
      }
    } else {
      ReviewNeverCritical(alerts, byPlace, v, k - 1);
      var before, row := AfterRows(Closed(alerts, v), byPlace, v, k - 1), v.rows[k - 1];
      RowNeverCritical(before, row, ExistingOf(byPlace, row), v.newIds[k - 1], v);
    }
  }

  lemma RowNeverCritical(alerts: AlertTable, row: ReviewRow, existing: Option<AlertId>, newId: AlertId, v: Review)
    requires existing.Some? ==> existing.value in alerts
    ensures SetsNoCritical(alerts, AfterRow(alerts, row, existing, newId, v))
  {
    hide NextReason;
  }
}
