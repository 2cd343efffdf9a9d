/**
 The risk score of a student in a term (packages/shared-types/src/risk-score.ts:10-185,
 packages/shared-types/src/evaluations.ts:11-33).  The reasons, which only word the parts, are not modelled.
 */
module RiskScore {
  import opened Options

  datatype Criterion =
    | P_NOT_FIT_MAJOR | P_PART_TIME_JOB | P_OTHER_ACTIVITIES | P_FAMILY_HARDSHIP | P_FINANCIAL_HARDSHIP
    | P_PSYCHOLOGICAL | P_DROPOUT_INTENT | H_NO_QUIZ_CMS | H_EXAM_BAN_RISK | H_NO_RESPONSE

  datatype Prefix = P | H

  function CriterionPoints(c: Criterion): nat {
    match c
    case P_NOT_FIT_MAJOR => 2
    case P_PART_TIME_JOB => 2
    case P_OTHER_ACTIVITIES => 1
    case P_FAMILY_HARDSHIP => 2
    case P_FINANCIAL_HARDSHIP => 2
    case P_PSYCHOLOGICAL => 3
    case P_DROPOUT_INTENT => 9
    case H_NO_QUIZ_CMS => 2
    case H_EXAM_BAN_RISK => 3
    case H_NO_RESPONSE => 4
  }

  function PrefixOf(c: Criterion): Prefix {
    if c.H_NO_QUIZ_CMS? || c.H_EXAM_BAN_RISK? || c.H_NO_RESPONSE? then H else P
  }

  datatype Evaluation = Evaluation(
    academicScore: int, attitudeScore: int, absentSessions: Option<int>, criteria: set<Criterion>)

  datatype Components = Components(rl: nat, ra: nat, rc: nat, rh: nat, rp: nat)

  datatype Breakdown = Breakdown(
    components: Components, drs: nat, drsLevel: int, dataForcedLevel: int, triggered: set<Criterion>)

  // ---- Medians and bands ----

  function Insert(x: int, sorted: seq<int>): (r: seq<int>)
    ensures |r| == |sorted| + 1
  {
    if sorted == [] || x <= sorted[0] then [x] + sorted else [sorted[0]] + Insert(x, sorted[1..])
  }

  function Sorted(values: seq<int>): (r: seq<int>)
    ensures |r| == |values|
  {
    if values == [] then [] else Insert(values[|values| - 1], Sorted(values[..|values| - 1]))
  }

  function MiddleOf(sorted: seq<int>): real
    requires sorted != []
  {
    var middle := |sorted| / 2;
    if |sorted| % 2 == 1 then sorted[middle] as real else (sorted[middle - 1] as real + sorted[middle] as real) / 2.0
  }

  function Median(values: seq<int>): real {
    if values == [] then 0.0 else MiddleOf(Sorted(values))
  }

  datatype ScoreBand = From10To9 | From8To7 | From6To5 | From4To3 | From2To1

  /** `Math.round` goes up at a half. */
  function BandOf(score: real): ScoreBand {
    var rounded := (score + 0.5).Floor;
    if rounded >= 9 then From10To9
    else if rounded >= 7 then From8To7
    else if rounded >= 5 then From6To5
    else if rounded >= 3 then From4To3
    else From2To1
  }

  function BandPoints(band: ScoreBand): nat {
    match band
    case From10To9 => 0
    case From8To7 => 1
    case From6To5 => 2
    case From4To3 => 3
    case From2To1 => 4
  }

  // ---- Attendance ----

  function AbsentPoint(sessions: int): nat {
    if sessions < 2 then 0 else if sessions == 2 then 2 else 3
  }

  function Worst(sessions: seq<int>): nat {
    if sessions == [] then 0
    else
      var front, last := Worst(sessions[..|sessions| - 1]), AbsentPoint(sessions[|sessions| - 1]);
      if front < last then last else front
  }

  predicate AllAtLeast(sessions: seq<int>, bound: int) {
    forall k :: 0 <= k < |sessions| ==> sessions[k] >= bound
  }

  function AttendanceScore(sessions: seq<int>): nat {
    if |sessions| < 2 then Worst(sessions)
    else if AllAtLeast(sessions, 3) then 12
    else if AllAtLeast(sessions, 2) then 9
    else Worst(sessions)
  }

  // ---- Criteria ----

  function Worth(c: Criterion, marked: set<Criterion>, prefix: Prefix): nat {
    if c in marked && PrefixOf(c) == prefix then CriterionPoints(c) else 0
  }

  function PointsOf(marked: set<Criterion>, prefix: Prefix): nat {
    Worth(P_NOT_FIT_MAJOR, marked, prefix) + Worth(P_PART_TIME_JOB, marked, prefix)
    + Worth(P_OTHER_ACTIVITIES, marked, prefix) + Worth(P_FAMILY_HARDSHIP, marked, prefix)
    + Worth(P_FINANCIAL_HARDSHIP, marked, prefix) + Worth(P_PSYCHOLOGICAL, marked, prefix)
    + Worth(P_DROPOUT_INTENT, marked, prefix) + Worth(H_NO_QUIZ_CMS, marked, prefix)
    + Worth(H_EXAM_BAN_RISK, marked, prefix) + Worth(H_NO_RESPONSE, marked, prefix)
  }

  lemma WorthWithout(marked: set<Criterion>, c: Criterion, prefix: Prefix)
    ensures forall other: Criterion ::
              Worth(other, marked - {c}, prefix) == if other == c then 0 else Worth(other, marked, prefix)
  {}

  lemma PointsWithout(marked: set<Criterion>, c: Criterion, prefix: Prefix)
    requires c in marked
    ensures PointsOf(marked, prefix)
         == PointsOf(marked - {c}, prefix) + if PrefixOf(c) == prefix then CriterionPoints(c) else 0
  {
    assert Worth(c, marked, prefix) == if PrefixOf(c) == prefix then CriterionPoints(c) else 0;
    WorthWithout(marked, c, prefix);
    hide Worth, CriterionPoints, PrefixOf;
  }

  method SumCriteria(marked: set<Criterion>, prefix: Prefix) returns (total: nat)
    ensures total == PointsOf(marked, prefix)
  {
    total := 0;
    var rest := marked;
    while rest != {}
      invariant rest <= marked && total + PointsOf(rest, prefix) == PointsOf(marked, prefix)
      decreases |rest|
    {
      var criterion :| criterion in rest;
      PointsWithout(rest, criterion, prefix);
      hide PointsOf, CriterionPoints, PrefixOf;
      if PrefixOf(criterion) == prefix {
        total := total + CriterionPoints(criterion);
      }
      rest := rest - {criterion};
    }
  }

  // ---- The score ----

  function LevelFromDrs(drs: int): int {
    if drs >= 13 then 4 else if drs >= 9 then 3 else if drs >= 5 then 2 else 1
  }

  /** One value of each evaluation, or none: `map`, and `map` with `filter`. */
  function Collected(inputs: seq<Evaluation>, value: Evaluation -> Option<int>): seq<int> {
    if inputs == [] then []
    else
      var front, last := Collected(inputs[..|inputs| - 1], value), value(inputs[|inputs| - 1]);
      if last.Some? then front + [last.value] else front
  }

  const ACADEMIC: Evaluation -> Option<int> := (e: Evaluation) => Some(e.academicScore)
  const ATTITUDE: Evaluation -> Option<int> := (e: Evaluation) => Some(e.attitudeScore)
  const ABSENCES: Evaluation -> Option<int> := (e: Evaluation) => e.absentSessions

  function Marked(inputs: seq<Evaluation>): set<Criterion> {
    set e, c | e in inputs && c in e.criteria :: c
  }

  function ScorePoints(inputs: seq<Evaluation>, value: Evaluation -> Option<int>): nat {
    if inputs == [] then 0 else BandPoints(BandOf(Median(Collected(inputs, value))))
  }

  function ComponentsOf(inputs: seq<Evaluation>): Components {
    Components(
      ScorePoints(inputs, ACADEMIC), ScorePoints(inputs, ATTITUDE), AttendanceScore(Collected(inputs, ABSENCES)),
      PointsOf(Marked(inputs), H), PointsOf(Marked(inputs), P))
  }

  function DrsOf(c: Components): nat {
    c.rl + c.ra + c.rc + c.rh + c.rp
  }

  predicate AreAllAbsentThree(inputs: seq<Evaluation>) {
    var sessions := Collected(inputs, ABSENCES);
    |sessions| >= 2 && AllAtLeast(sessions, 3)
  }

  function RiskOf(inputs: seq<Evaluation>): Breakdown {
    var drs := DrsOf(ComponentsOf(inputs));
    Breakdown(ComponentsOf(inputs), drs, LevelFromDrs(drs), if AreAllAbsentThree(inputs) then 3 else 1, Marked(inputs))
  }

  method ComputeRiskScore(inputs: seq<Evaluation>) returns (r: Breakdown)
    ensures r == RiskOf(inputs)
  {
    hide PointsOf, Median, AttendanceScore, BandOf, Collected, AllAtLeast;
    var medianAcademic := Median(Collected(inputs, ACADEMIC));
    var medianAttitude := Median(Collected(inputs, ATTITUDE));
    var sessions := Collected(inputs, ABSENCES);
    var marked := Marked(inputs);
    var rl := if |inputs| == 0 then 0 else BandPoints(BandOf(medianAcademic));
    var ra := if |inputs| == 0 then 0 else BandPoints(BandOf(medianAttitude));
    var rc := AttendanceScore(sessions);
    var rp := SumCriteria(marked, P);
    var rh := SumCriteria(marked, H);
    var drs := rl + ra + rc + rh + rp;
    var allAbsentThree := |sessions| >= 2 && AllAtLeast(sessions, 3);
    r := Breakdown(Components(rl, ra, rc, rh, rp), drs, LevelFromDrs(drs), if allAbsentThree then 3 else 1, marked);
  }

  // ---- The forced level, and the range ----

  lemma {:induction false} WorstIsAtMostThree(sessions: seq<int>)
    ensures Worst(sessions) <= 3
  {
    if sessions != [] {
      WorstIsAtMostThree(sessions[..|sessions| - 1]);
    }
  }

  /**
   The level that the absences force is 3 exactly where they score 12, and then the score alone makes the
   level at least 3: the greater of the two levels is always the score's.
   */
  lemma ForcedLevelNeverMatters(inputs: seq<Evaluation>)
    ensures var r := RiskOf(inputs);
            && (r.dataForcedLevel == 3 <==> r.components.rc == 12)
            && (r.dataForcedLevel == 3 ==> r.drsLevel >= 3)
            && (if r.drsLevel < r.dataForcedLevel then r.dataForcedLevel else r.drsLevel) == r.drsLevel
  {
    WorstIsAtMostThree(Collected(inputs, ABSENCES));
    hide PointsOf, ScorePoints, Collected, Worst, Marked;
  }

  lemma PointsAreBounded(marked: set<Criterion>)
    ensures PointsOf(marked, H) <= 9 && PointsOf(marked, P) <= 21
  {}

  lemma DrsIsAtMostFifty(inputs: seq<Evaluation>)
    ensures RiskOf(inputs).drs <= 50 && 1 <= RiskOf(inputs).drsLevel <= 4
  {
    WorstIsAtMostThree(Collected(inputs, ABSENCES));
    PointsAreBounded(Marked(inputs));
    hide PointsOf, Collected, Worst, Marked, Median, BandOf;
  }
}
