/**
 Runs of alert steps (apps/api/src/modules/alerts/alerts.service.ts:256-311, 411-470, 607-639,
 apps/api/src/modules/attendance-alerts/attendance-review.service.ts:149-360,
 apps/api/src/modules/care-logs/care-logs.service.ts:114-138, 208-254,
 apps/api/src/modules/student-analyses/student-analyses.service.ts:681-691): what holds after any number of
 them, in any order, with the lecturers of the sections fixed.
 */
module AlertRuns {
  import opened Options
  import opened Alerts
  import opened RaiseDecision
  import opened AlertSteps
  import opened AttendanceReview
  import opened AttendancePass
  import opened AttendanceOutcome

  datatype Step =
    | Raising(raise: Raise, texts: Texts)
    | SendingAnalysis(subject: Subject, level: int, reason: string, sender: StaffId, newAlert: AlertId, at: int)
    | Acknowledging(alert: AlertId)
    | Resolving(alert: AlertId, resolution: Resolution)
    | Logging(log: CareLog, newLog: LogId, at: int)
    | RemovingLog(id: LogId)
    | Deleting(ids: set<AlertId>)
    | Reviewing(review: Review, byPlace: Highest)

  /**
   The step's parameters fit the tables: rows it names exist, ids it makes up do not, queries returned what is
   there.
   */
  ghost predicate IsEnabled(b: Board, step: Step) {
    match step
    case Raising(r, _) => r.newId !in b.alerts && IsFirstOpen(b.alerts, r.subject, r.found)
    case SendingAnalysis(_, level, _, _, newAlert, _) => newAlert !in b.alerts && 1 <= level <= 4
    case Acknowledging(i) => i in b.alerts && b.alerts[i].status == OPEN
    case Resolving(i, _) => i in b.alerts && IsUnresolved(b.alerts[i])
    case Logging(log, newLog, _) => newLog !in b.logs && (log.alert.Some? ==> log.alert.value in b.alerts)
    case RemovingLog(id) => id in b.logs
    case Deleting(ids) => ids <= b.alerts.Keys
    case Reviewing(v, byPlace) =>
      IsReview(v, b.alerts) && AreIn(byPlace, Closed(b.alerts, v)) && IsHighest(byPlace, b.alerts, v)
  }

  ghost function After(b: Board, step: Step, lecturers: Lecturers): Board
    requires IsEnabled(b, step)
  {
    match step
    case Raising(r, texts) => Board(Raised(b.alerts, r, texts), b.logs)
    case SendingAnalysis(subject, level, reason, sender, newAlert, at) =>
      Board(Committed(b.alerts, subject, level, reason, sender, newAlert, at), b.logs)
    case Acknowledging(i) => Board(b.alerts[i := b.alerts[i].(status := ACKNOWLEDGED)], b.logs)
    case Resolving(i, resolution) => Board(b.alerts[i := Resolved(b.alerts[i], resolution)], b.logs)
    case Logging(log, newLog, at) => Logged(b, log, newLog, lecturers, at)
    case RemovingLog(id) => Removed(b, id, lecturers)
    case Deleting(ids) => WithoutAlerts(b, ids)
    case Reviewing(v, byPlace) => Board(AfterRows(Closed(b.alerts, v), byPlace, v, |v.rows|), b.logs)
  }

  /** Sending an analysis is the one step that does not look for an open alert first. */
  ghost predicate FindsSubjectFree(b: Board, step: Step) {
    step.SendingAnalysis? ==> IsFirstOpen(b.alerts, step.subject, None)
  }

  /**
   Every step leaves a sound board and only moves alerts on; it leaves one open alert for each subject
   exactly when it does not send an analysis over an open one.
   */
  lemma StepKeeps(b: Board, step: Step, lecturers: Lecturers)
    requires IsSound(b, lecturers) && IsEnabled(b, step)
    ensures var after := After(b, step, lecturers);
            && IsSound(after, lecturers) && MoveOn(b.alerts, after.alerts)
            && (HasOneOpenPerSubject(b.alerts) ==> (HasOneOpenPerSubject(after.alerts) <==> FindsSubjectFree(b, step)))
  {
    hide IsSound, HasOneOpenPerSubject, MoveOn, IsFirstOpen;
    hide Raised, Logged, Removed, WithoutAlerts, AfterRows, Committed, IsHighest, Closed;
    match step
    case Raising(r, texts) => RaisingKeeps(b, r, texts, lecturers);
    case SendingAnalysis(subject, level, reason, sender, newAlert, at) =>
      CommittingKeepsIff(b, subject, level, reason, sender, newAlert, at, lecturers);
    case Acknowledging(i) => AcknowledgingKeeps(b, i, lecturers);
    case Resolving(i, resolution) => ResolvingKeeps(b, i, resolution, lecturers);
    case Logging(log, newLog, at) => LoggingKeeps(b, log, newLog, lecturers, at);
    case RemovingLog(id) => RemovingKeeps(b, id, lecturers);
    case Deleting(ids) => DeletingKeeps(b, ids, lecturers);
    case Reviewing(v, byPlace) => RowsKeep(b, byPlace, v, |v.rows|, lecturers);
  }

  // ---- Runs ----

  /** The boards before and after each step. */
  ghost predicate IsRun(boards: seq<Board>, steps: seq<Step>, lecturers: Lecturers) {
    && |boards| == |steps| + 1
    && (forall k :: 0 <= k < |steps| ==> IsStep(boards, steps, lecturers, k))
  }

  ghost predicate IsStep(boards: seq<Board>, steps: seq<Step>, lecturers: Lecturers, k: nat)
    requires k < |steps| && |boards| == |steps| + 1
  {
    IsEnabled(boards[k], steps[k]) && boards[k + 1] == After(boards[k], steps[k], lecturers)
  }

  /**
   In every run, whatever is sent, levels stay within 1 to 4, the resolved alerts are those with a resolution,
   and every mark of care has its log.
   */
  lemma {:induction false} RunStaysSound(boards: seq<Board>, steps: seq<Step>, lecturers: Lecturers, k: nat)
    requires IsRun(boards, steps, lecturers) && IsSound(boards[0], lecturers) && k < |boards|
    ensures IsSound(boards[k], lecturers)
    decreases k
  {
    hide IsSound, IsEnabled, After;
    if k > 0 {
      RunStaysSound(boards, steps, lecturers, k - 1);
      assert IsStep(boards, steps, lecturers, k - 1);
      StepKeeps(boards[k - 1], steps[k - 1], lecturers);
    }
  }

  /** The first `k` steps send no analysis over an open alert. */
  ghost predicate FindFree(boards: seq<Board>, steps: seq<Step>, k: nat)
    requires k <= |steps| < |boards|
  {
    forall j :: 0 <= j < k ==> FindsSubjectFree(boards[j], steps[j])
  }

  /**
   The boards of a run have one open alert for each subject up to the first analysis sent over an open
   one, and the board after that one does not.
   */
  lemma {:induction false} OneOpenUntilSentOver(boards: seq<Board>, steps: seq<Step>, lecturers: Lecturers, k: nat)
    requires IsRun(boards, steps, lecturers) && Invariant(boards[0], lecturers) && k < |boards|
    ensures (forall j :: 0 <= j <= k ==> HasOneOpenPerSubject(boards[j].alerts)) <==> FindFree(boards, steps, k)
    decreases k
  {
    hide IsSound, HasOneOpenPerSubject, FindsSubjectFree, IsEnabled, After;
    if k > 0 {
      OneOpenUntilSentOver(boards, steps, lecturers, k - 1);
      RunStaysSound(boards, steps, lecturers, k - 1);
      assert IsStep(boards, steps, lecturers, k - 1);
      StepKeeps(boards[k - 1], steps[k - 1], lecturers);
    }
  }

  ghost predicate Stays(boards: seq<Board>, i: AlertId, first: nat, last: nat)
    requires first <= last < |boards|
  {
    forall k :: first <= k <= last ==> i in boards[k].alerts
  }

  /**
   In every run, whatever is sent, an alert that is not deleted keeps its subject, its level never falls, and
   once resolved it stays as it was resolved.
   */
  lemma {:induction false} RunMovesOn(
    boards: seq<Board>, steps: seq<Step>, lecturers: Lecturers, i: AlertId, first: nat, last: nat)
    requires IsRun(boards, steps, lecturers) && IsSound(boards[0], lecturers) && first <= last < |boards|
    requires Stays(boards, i, first, last)
    ensures MovesOn(boards[first].alerts[i], boards[last].alerts[i])
    decreases last
  {
    hide IsSound, IsEnabled, After;
    if first < last {
      RunMovesOn(boards, steps, lecturers, i, first, last - 1);
      RunStaysSound(boards, steps, lecturers, last - 1);
      assert IsStep(boards, steps, lecturers, last - 1);
      StepKeeps(boards[last - 1], steps[last - 1], lecturers);
    }
  }

  /** What a person raised stays theirs, and what was said about it stays said. */
  predicate KeepsItsWords(a: Alert, a': Alert) {
    a.source == MANUAL ==>
      a'.source == MANUAL && a'.raisedBy == a.raisedBy && a'.createdAt == a.createdAt && a.reason <= a'.reason
  }

  lemma StepKeepsWords(b: Board, step: Step, lecturers: Lecturers, i: AlertId)
    requires IsEnabled(b, step) && i in b.alerts && i in After(b, step, lecturers).alerts
    ensures KeepsItsWords(b.alerts[i], After(b, step, lecturers).alerts[i])
  {
    hide IsFirstOpen, IsHighest, MergedReason, AfterRows, Closed, IsReview, AreIn, HasLogOf;
    match step
    case Raising(r, texts) =>
      if r.found == Some(i) {
        var before, level := b.alerts[i].reason, DecisionOf(b.alerts, r).level;
        MergingTwiceIsMergingOnce(before, r.reason, r.now, r.now, texts);
        MergingTwiceIsMergingOnce(before, r.reason + "\n" + texts.note(r.requestedLevel, level), r.now, r.now, texts);
      }
    case Reviewing(v, byPlace) =>
      if b.alerts[i].source == MANUAL {
        ManualAlertIsKept(b.alerts, byPlace, v, i);
      }
    case _ =>
  }

  /**
   In every run: an alert that a person raised keeps who raised it and when, and its reason at any time begins
   with all that it said at any time before.
   */
  lemma {:induction false} RunKeepsWords(
    boards: seq<Board>, steps: seq<Step>, lecturers: Lecturers, i: AlertId, first: nat, last: nat)
    requires IsRun(boards, steps, lecturers) && first <= last < |boards| && Stays(boards, i, first, last)
    ensures KeepsItsWords(boards[first].alerts[i], boards[last].alerts[i])
    decreases last
  {
    hide IsEnabled, After;
    if first < last {
      RunKeepsWords(boards, steps, lecturers, i, first, last - 1);
      assert IsStep(boards, steps, lecturers, last - 1);
      StepKeepsWords(boards[last - 1], steps[last - 1], lecturers, i);
    }
  }

  /** Nothing has been raised yet. */
  lemma EmptyBoardKeeps(lecturers: Lecturers)
    ensures Invariant(Board(map[], map[]), lecturers)
  {}

  // ---- Two open alerts for one subject ----

  /** The way to two open alerts for one subject: an alert is raised, and an analysis is sent over it. */
  lemma AnalysisOverOpenAlert(lecturers: Lecturers, texts: Texts)
    ensures var subject, before := Subject(1, Some(1), Some("20251")), Board(map[], map[]);
            var raising := Raising(Raise(subject, 1, 1, "a", 1, None, 1, 0), texts);
            var sending := SendingAnalysis(subject, 1, "b", 1, 2, 1);
            && Invariant(before, lecturers) && IsEnabled(before, raising)
            && var raised := After(before, raising, lecturers);
               IsEnabled(raised, sending) && !HasOneOpenPerSubject(After(raised, sending, lecturers).alerts)
  {
    var subject := Subject(1, Some(1), Some("20251"));
    var raising := Raising(Raise(subject, 1, 1, "a", 1, None, 1, 0), texts);
    EmptyBoardKeeps(lecturers);
    var raised := After(Board(map[], map[]), raising, lecturers);
    assert IsOpenFor(raised.alerts[1], subject);
    var after := After(raised, SendingAnalysis(subject, 1, "b", 1, 2, 1), lecturers);
    assert !AreApart(after.alerts[1], after.alerts[2]);
  }
}
