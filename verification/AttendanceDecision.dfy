/**
 What the attendance review does about one enrolment
 (apps/api/src/modules/attendance-alerts/attendance-review.decision.ts:1-39,
 packages/shared-types/src/alerts.ts:28-46).
 */
module AttendanceDecision {
  import opened Options

  const MEDIUM := 2
  const HIGH := 3

  /** Two absences are level 2, three and more level 3; the critical level is never automatic. */
  function AttendanceLevelFor(absentSessions: Option<int>): (level: Option<int>)
    ensures level == None <==> (absentSessions.Some? ==> absentSessions.value < 2)
    ensures level == Some(2) <==> absentSessions == Some(2)
    ensures level == Some(3) <==> absentSessions.Some? && absentSessions.value > 2
  {
    if absentSessions.None? then None
    else if absentSessions.value >= HIGH then Some(3)
    else if absentSessions.value >= MEDIUM then Some(2)
    else None
  }

  datatype OpenAttendanceAlert = OpenAttendanceAlert(level: int, absentSessions: Option<int>)

  datatype ReviewAction = Skip | Create(level: int) | Upgrade(level: int) | Refresh(level: int) | Unchanged

  function DecideAction(absentSessions: Option<int>, existing: Option<OpenAttendanceAlert>): ReviewAction {
    var level := AttendanceLevelFor(absentSessions);
    if existing.None? then
      if level.Some? then Create(level.value) else Skip
    else if level.Some? && level.value > existing.value.level then Upgrade(3)
    else if absentSessions.Some? &&
            absentSessions.value >
            (if existing.value.absentSessions.Some? then existing.value.absentSessions.value else -1)
    then Refresh(existing.value.level)
    else Unchanged
  }

  /** The alert after the action, as far as the decision looks at it. */
  function After(absentSessions: Option<int>, existing: Option<OpenAttendanceAlert>): Option<OpenAttendanceAlert> {
    match DecideAction(absentSessions, existing)
    case Create(level) => Some(OpenAttendanceAlert(level, absentSessions))
    case Upgrade(level) => Some(OpenAttendanceAlert(level, absentSessions))
    case Refresh(level) => Some(OpenAttendanceAlert(level, absentSessions))
    case _ => existing
  }

  /** Deciding again on the same absences leaves the alert alone: importing twice disturbs nobody. */
  lemma SecondDecisionIsUnchanged(absentSessions: Option<int>, existing: Option<OpenAttendanceAlert>)
    ensures var again := DecideAction(absentSessions, After(absentSessions, existing));
            again == if After(absentSessions, existing).Some? then Unchanged else Skip
  {}

  /** Levels never fall, automatic ones are 2 and 3, and absences on record never shrink. */
  lemma ActionsOnlyRaise(absentSessions: Option<int>, existing: Option<OpenAttendanceAlert>)
    ensures existing.Some? ==> After(absentSessions, existing).Some?
    ensures existing.Some? ==> After(absentSessions, existing).value.level >= existing.value.level
    ensures After(absentSessions, existing) != existing && existing.Some? &&
            After(absentSessions, existing).value.level != existing.value.level ==>
              After(absentSessions, existing).value.level == 3
    ensures existing.None? && After(absentSessions, existing).Some? ==>
              AttendanceLevelFor(absentSessions) == Some(After(absentSessions, existing).value.level)
  {}

  /**
   An upgrade goes to level 3 whatever the absences call for: above their own level exactly for an alert
   of level 1 with two absences.
   */
  lemma UpgradeOvershoots(absentSessions: Option<int>, existing: OpenAttendanceAlert)
    requires existing.level >= 1
    ensures (DecideAction(absentSessions, Some(existing)).Upgrade? &&
             AttendanceLevelFor(absentSessions) != Some(DecideAction(absentSessions, Some(existing)).level))
       <==> existing.level == 1 && absentSessions == Some(2)
  {}
}
