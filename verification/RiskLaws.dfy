/**
 The rule of the school in its own numbers (packages/shared-types/src/risk-score.ts:26-53, 78-150,
 packages/shared-types/src/evaluations.ts:24-33): medians by rank, points by ranges, levels by the sum.
 */
module RiskLaws {
  import opened Options
  import opened RiskScore
  import opened RiskOrder

  // ---- Ranks ----

  function Below(values: seq<int>, x: int): nat {
    if values == [] then 0
    else Below(values[..|values| - 1], x) + if values[|values| - 1] < x then 1 else 0
  }

  function UpTo(values: seq<int>, x: int): nat {
    if values == [] then 0
    else UpTo(values[..|values| - 1], x) + if values[|values| - 1] <= x then 1 else 0
  }

  /** No more than `rank` values are smaller, and more than `rank` are not greater. */
  predicate IsAtRank(values: seq<int>, x: int, rank: nat) {
    Below(values, x) <= rank < UpTo(values, x)
  }

  lemma {:induction false} UpToSmaller(values: seq<int>, x: int, y: int)
    requires x < y
    ensures UpTo(values, x) <= Below(values, y)
  {
    if values != [] {
      UpToSmaller(values[..|values| - 1], x, y);
    }
  }

  /** At most one value is at a rank. */
  lemma RankIsUnique(values: seq<int>, x: int, y: int, rank: nat)
    requires IsAtRank(values, x, rank) && IsAtRank(values, y, rank)
    ensures x == y
  {
    if x < y {
      UpToSmaller(values, x, y);
    } else if y < x {
      UpToSmaller(values, y, x);
    }
  }

  lemma {:induction false} CountsOfInsert(v: int, s: seq<int>, x: int)
    ensures Below(Insert(v, s), x) == Below(s, x) + if v < x then 1 else 0
    ensures UpTo(Insert(v, s), x) == UpTo(s, x) + if v <= x then 1 else 0
    decreases |s|
  {
    if s == [] || v <= s[0] {
      CountsOfJoin([v], s, x);
      CountsOfOne(v, x);
    } else {
      CountsOfInsert(v, s[1..], x);
      CountsOfJoin([s[0]], s[1..], x);
      CountsOfJoin([s[0]], Insert(v, s[1..]), x);
      assert [s[0]] + s[1..] == s;
    }
  }

  lemma CountsOfOne(v: int, x: int)
    ensures Below([v], x) == (if v < x then 1 else 0) && UpTo([v], x) == if v <= x then 1 else 0
  {
    assert [v][..0] == [];
  }

  lemma {:induction false} CountsOfJoin(a: seq<int>, b: seq<int>, x: int)
    ensures Below(a + b, x) == Below(a, x) + Below(b, x) && UpTo(a + b, x) == UpTo(a, x) + UpTo(b, x)
    decreases |b|
  {
    if b == [] {
      assert a + b == a;
    } else {
      assert (a + b)[..|a + b| - 1] == a + b[..|b| - 1];
      CountsOfJoin(a, b[..|b| - 1], x);
    }
  }

  lemma {:induction false} CountsOfSorted(values: seq<int>, x: int)
    ensures Below(Sorted(values), x) == Below(values, x) && UpTo(Sorted(values), x) == UpTo(values, x)
  {
    if values != [] {
      CountsOfSorted(values[..|values| - 1], x);
      CountsOfInsert(values[|values| - 1], Sorted(values[..|values| - 1]), x);
    }
  }

  lemma {:induction false} CountsAreBounded(s: seq<int>, x: int)
    ensures Below(s, x) <= |s| && UpTo(s, x) <= |s|
  {
    if s != [] {
      CountsAreBounded(s[..|s| - 1], x);
    }
  }

  lemma {:induction false} AllUpTo(s: seq<int>, x: int)
    requires forall k :: 0 <= k < |s| ==> s[k] <= x
    ensures UpTo(s, x) == |s|
  {
    if s != [] {
      AllUpTo(s[..|s| - 1], x);
    }
  }

  lemma {:induction false} NoneBelow(s: seq<int>, x: int)
    requires forall k :: 0 <= k < |s| ==> s[k] >= x
    ensures Below(s, x) == 0
  {
    if s != [] {
      NoneBelow(s[..|s| - 1], x);
    }
  }

  /** In a sorted list the rank is the position. */
  lemma SortedRank(s: seq<int>, k: nat)
    requires IsSorted(s) && k < |s|
    ensures IsAtRank(s, s[k], k)
  {
    var front, back := s[..k + 1], s[k + 1..];
    assert front + back == s;
    CountsOfJoin(front, back, s[k]);
    AllUpTo(front, s[k]);
    assert s[..k] + s[k..] == s;
    CountsOfJoin(s[..k], s[k..], s[k]);
    CountsAreBounded(s[..k], s[k]);
    NoneBelow(s[k..], s[k]);
  }

  lemma RankInSorted(values: seq<int>, x: int, rank: nat)
    requires IsAtRank(values, x, rank) && rank < |values|
    ensures Sorted(values)[rank] == x
  {
    SortedIsSorted(values);
    var y := Sorted(values)[rank];
    SortedRank(Sorted(values), rank);
    CountsOfSorted(values, y);
    RankIsUnique(values, x, y, rank);
  }

  /** Every rank of a list is taken. */
  lemma RankIsTaken(values: seq<int>, rank: nat) returns (x: int)
    requires rank < |values|
    ensures IsAtRank(values, x, rank)
  {
    SortedIsSorted(values);
    x := Sorted(values)[rank];
    SortedRank(Sorted(values), rank);
    CountsOfSorted(values, x);
  }

  /** The median is half the sum of the values at the two middle ranks, which are one for an odd number of values. */
  lemma MedianIsMiddle(values: seq<int>, x: int, y: int)
    requires values != [] && IsAtRank(values, x, (|values| - 1) / 2) && IsAtRank(values, y, |values| / 2)
    ensures Median(values) == (x + y) as real / 2.0
  {
    hide Sorted, IsAtRank;
    RankInSorted(values, x, (|values| - 1) / 2);
    RankInSorted(values, y, |values| / 2);
  }

  // ---- The two scores ----

  function AcademicScores(inputs: seq<Evaluation>): seq<int> {
    seq(|inputs|, k requires 0 <= k < |inputs| => inputs[k].academicScore)
  }

  function AttitudeScores(inputs: seq<Evaluation>): seq<int> {
    seq(|inputs|, k requires 0 <= k < |inputs| => inputs[k].attitudeScore)
  }

  lemma {:induction false} AcademicCollected(inputs: seq<Evaluation>)
    ensures Collected(inputs, ACADEMIC) == AcademicScores(inputs)
  {
    if inputs != [] {
      AcademicCollected(inputs[..|inputs| - 1]);
    }
  }

  lemma {:induction false} AttitudeCollected(inputs: seq<Evaluation>)
    ensures Collected(inputs, ATTITUDE) == AttitudeScores(inputs)
  {
    if inputs != [] {
      AttitudeCollected(inputs[..|inputs| - 1]);
    }
  }

  /** Points for twice the median: from 8.5 none, from 6.5 one, from 4.5 two, from 2.5 three, below that four. */
  function PointsForTwice(sum: int): nat {
    if sum >= 17 then 0 else if sum >= 13 then 1 else if sum >= 9 then 2 else if sum >= 5 then 3 else 4
  }

  lemma FloorAtLeast(x: real, n: int)
    ensures x.Floor >= n <==> x >= n as real
  {}

  lemma BandOfHalf(sum: int)
    ensures BandPoints(BandOf(sum as real / 2.0)) == PointsForTwice(sum)
  {
    var rounded := sum as real / 2.0 + 0.5;
    FloorAtLeast(rounded, 9);
    FloorAtLeast(rounded, 7);
    FloorAtLeast(rounded, 5);
    FloorAtLeast(rounded, 3);
  }

  /** Whatever stands at the two middle ranks of the scores decides their points. */
  lemma ScoreIsByMedian(inputs: seq<Evaluation>, value: Evaluation -> Option<int>, x: int, y: int)
    requires inputs != [] && Collected(inputs, value) != []
    requires IsAtRank(Collected(inputs, value), x, (|Collected(inputs, value)| - 1) / 2)
    requires IsAtRank(Collected(inputs, value), y, |Collected(inputs, value)| / 2)
    ensures ScorePoints(inputs, value) == PointsForTwice(x + y)
  {
    hide Median, BandOf, BandPoints, IsAtRank, Collected;
    MedianIsMiddle(Collected(inputs, value), x, y);
    BandOfHalf(x + y);
  }

  // ---- Attendance ----

  predicate HasAbsences(inputs: seq<Evaluation>, k: nat) {
    k < |inputs| && inputs[k].absentSessions.Some?
  }

  /** Two lecturers at least wrote absences down. */
  ghost predicate HasTwo(inputs: seq<Evaluation>) {
    exists j, k :: 0 <= j < k && HasAbsences(inputs, j) && HasAbsences(inputs, k)
  }

  /** All that are written down are at least this many. */
  ghost predicate AllHave(inputs: seq<Evaluation>, bound: int) {
    forall k: nat :: HasAbsences(inputs, k) ==> inputs[k].absentSessions.value >= bound
  }

  ghost predicate SomeHas(inputs: seq<Evaluation>, bound: int) {
    exists k: nat :: HasAbsences(inputs, k) && inputs[k].absentSessions.value >= bound
  }

  lemma CollectedSnoc(front: seq<Evaluation>, last: Evaluation, value: Evaluation -> Option<int>)
    ensures Collected(front + [last], value)
         == if value(last).Some? then Collected(front, value) + [value(last).value] else Collected(front, value)
  {
    assert (front + [last])[..|front|] == front;
  }

  lemma AbsencesSnoc(front: seq<Evaluation>, last: Evaluation, bound: int)
    ensures AllHave(front + [last], bound) <==>
              AllHave(front, bound) && (last.absentSessions.Some? ==> last.absentSessions.value >= bound)
    ensures SomeHas(front + [last], bound) <==>
              SomeHas(front, bound) || (last.absentSessions.Some? && last.absentSessions.value >= bound)
  {
    var all := front + [last];
    assert HasAbsences(all, |front|) <==> last.absentSessions.Some?;
    assert all[|front|] == last;
    forall k: nat | k < |front|
      ensures HasAbsences(all, k) <==> HasAbsences(front, k)
      ensures all[k] == front[k]
    {}
    assert forall k: nat :: HasAbsences(all, k) ==> k < |front| || k == |front|;
    if SomeHas(front, bound) {
      var k: nat :| HasAbsences(front, k) && front[k].absentSessions.value >= bound;
      assert HasAbsences(all, k);
    }
  }

  ghost predicate HasOne(inputs: seq<Evaluation>) {
    exists k: nat :: HasAbsences(inputs, k)
  }

  lemma HowManySnoc(front: seq<Evaluation>, last: Evaluation)
    ensures HasOne(front + [last]) <==> HasOne(front) || last.absentSessions.Some?
    ensures HasTwo(front + [last]) <==> HasTwo(front) || (HasOne(front) && last.absentSessions.Some?)
  {
    var all := front + [last];
    assert HasAbsences(all, |front|) <==> last.absentSessions.Some?;
    forall k: nat | k < |front|
      ensures HasAbsences(all, k) <==> HasAbsences(front, k)
    {}
    assert forall k: nat :: HasAbsences(all, k) ==> k < |front| || k == |front|;
    assert forall k: nat :: HasAbsences(front, k) ==> k < |front|;
    if HasTwo(front) {
      var j, k :| 0 <= j < k && HasAbsences(front, j) && HasAbsences(front, k);
      assert HasAbsences(all, j) && HasAbsences(all, k);
    }
    if HasOne(front) {
      var j: nat :| HasAbsences(front, j);
      assert HasAbsences(all, j);
    }
  }

  lemma {:induction false} AbsencesCollected(inputs: seq<Evaluation>)
    ensures |Collected(inputs, ABSENCES)| >= 1 <==> HasOne(inputs)
    ensures |Collected(inputs, ABSENCES)| >= 2 <==> HasTwo(inputs)
    ensures AllAtLeast(Collected(inputs, ABSENCES), 3) <==> AllHave(inputs, 3)
    ensures AllAtLeast(Collected(inputs, ABSENCES), 2) <==> AllHave(inputs, 2)
    ensures Worst(Collected(inputs, ABSENCES)) == if SomeHas(inputs, 3) then 3 else if SomeHas(inputs, 2) then 2 else 0
  {
    hide AllHave, SomeHas, HasTwo, HasOne, AllAtLeast, Collected;
    if inputs == [] {
      NoAbsences();
    } else {
      var front, last := inputs[..|inputs| - 1], inputs[|inputs| - 1];
      assert inputs == front + [last];
      AbsencesCollected(front);
      CollectedSnoc(front, last, ABSENCES);
      HowManySnoc(front, last);
      AbsencesSnoc(front, last, 3);
      AbsencesSnoc(front, last, 2);
      if last.absentSessions.Some? {
        AllAtLeastSnoc(Collected(front, ABSENCES), last.absentSessions.value, 3);
        AllAtLeastSnoc(Collected(front, ABSENCES), last.absentSessions.value, 2);
        WorstSnoc(Collected(front, ABSENCES), last.absentSessions.value);
      }
    }
  }

  lemma NoAbsences()
    ensures Collected([], ABSENCES) == [] && !HasOne([]) && !HasTwo([])
    ensures AllHave([], 3) && AllHave([], 2) && !SomeHas([], 3) && !SomeHas([], 2)
    ensures AllAtLeast([], 3) && AllAtLeast([], 2) && Worst([]) == 0
  {}

  lemma AllAtLeastSnoc(s: seq<int>, x: int, bound: int)
    ensures AllAtLeast(s + [x], bound) <==> AllAtLeast(s, bound) && x >= bound
  {
    assert (s + [x])[|s|] == x;
    if AllAtLeast(s + [x], bound) {
      forall k | 0 <= k < |s|
        ensures s[k] >= bound
      {
        assert (s + [x])[k] == s[k];
      }
    }
  }

  lemma WorstSnoc(s: seq<int>, x: int)
    ensures Worst(s + [x]) == if Worst(s) < AbsentPoint(x) then AbsentPoint(x) else Worst(s)
  {
    assert (s + [x])[..|s|] == s;
  }

  // ---- The whole score ----

  ghost predicate IsMarked(inputs: seq<Evaluation>, c: Criterion) {
    exists k :: 0 <= k < |inputs| && c in inputs[k].criteria
  }

  ghost function If(condition: bool, points: nat): nat {
    if condition then points else 0
  }

  lemma EachPersonalIsWorth(marked: set<Criterion>)
    ensures Worth(P_NOT_FIT_MAJOR, marked, P) == If(P_NOT_FIT_MAJOR in marked, 2)
    ensures Worth(P_NOT_FIT_MAJOR, marked, H) == 0
    ensures Worth(P_PART_TIME_JOB, marked, P) == If(P_PART_TIME_JOB in marked, 2)
    ensures Worth(P_PART_TIME_JOB, marked, H) == 0
    ensures Worth(P_OTHER_ACTIVITIES, marked, P) == If(P_OTHER_ACTIVITIES in marked, 1)
    ensures Worth(P_OTHER_ACTIVITIES, marked, H) == 0
    ensures Worth(P_FAMILY_HARDSHIP, marked, P) == If(P_FAMILY_HARDSHIP in marked, 2)
    ensures Worth(P_FAMILY_HARDSHIP, marked, H) == 0
    ensures Worth(P_FINANCIAL_HARDSHIP, marked, P) == If(P_FINANCIAL_HARDSHIP in marked, 2)
    ensures Worth(P_FINANCIAL_HARDSHIP, marked, H) == 0
    ensures Worth(P_PSYCHOLOGICAL, marked, P) == If(P_PSYCHOLOGICAL in marked, 3)
    ensures Worth(P_PSYCHOLOGICAL, marked, H) == 0
    ensures Worth(P_DROPOUT_INTENT, marked, P) == If(P_DROPOUT_INTENT in marked, 9)
    ensures Worth(P_DROPOUT_INTENT, marked, H) == 0
  {}

  lemma EachLearningIsWorth(marked: set<Criterion>)
    ensures Worth(H_NO_QUIZ_CMS, marked, H) == If(H_NO_QUIZ_CMS in marked, 2)
    ensures Worth(H_NO_QUIZ_CMS, marked, P) == 0
    ensures Worth(H_EXAM_BAN_RISK, marked, H) == If(H_EXAM_BAN_RISK in marked, 3)
    ensures Worth(H_EXAM_BAN_RISK, marked, P) == 0
    ensures Worth(H_NO_RESPONSE, marked, H) == If(H_NO_RESPONSE in marked, 4)
    ensures Worth(H_NO_RESPONSE, marked, P) == 0
  {}

  lemma MarkedBySome(inputs: seq<Evaluation>, c: Criterion)
    ensures c in Marked(inputs) <==> IsMarked(inputs, c)
  {
    if c in Marked(inputs) {
      var e :| e in inputs && c in e.criteria;
      var k :| 0 <= k < |inputs| && inputs[k] == e;
    }
  }

  /** What some evaluation was marked with counts once, whoever marked it, and by its own number of points. */
  lemma CriteriaCount(inputs: seq<Evaluation>)
    ensures PointsOf(Marked(inputs), P)
         == If(IsMarked(inputs, P_NOT_FIT_MAJOR), 2) + If(IsMarked(inputs, P_PART_TIME_JOB), 2)
          + If(IsMarked(inputs, P_OTHER_ACTIVITIES), 1) + If(IsMarked(inputs, P_FAMILY_HARDSHIP), 2)
          + If(IsMarked(inputs, P_FINANCIAL_HARDSHIP), 2) + If(IsMarked(inputs, P_PSYCHOLOGICAL), 3)
          + If(IsMarked(inputs, P_DROPOUT_INTENT), 9)
    ensures PointsOf(Marked(inputs), H)
         == If(IsMarked(inputs, H_NO_QUIZ_CMS), 2) + If(IsMarked(inputs, H_EXAM_BAN_RISK), 3)
          + If(IsMarked(inputs, H_NO_RESPONSE), 4)
  {
    hide Worth, Marked, IsMarked, If;
    forall c: Criterion
      ensures c in Marked(inputs) <==> IsMarked(inputs, c)
    {
      MarkedBySome(inputs, c);
    }
    EachPersonalIsWorth(Marked(inputs));
    EachLearningIsWorth(Marked(inputs));
  }

  /** The attendance part: only where two lecturers wrote absences down do all of them together count for more. */
  ghost function AttendancePoints(inputs: seq<Evaluation>): nat {
    if HasTwo(inputs) && AllHave(inputs, 3) then 12
    else if HasTwo(inputs) && AllHave(inputs, 2) then 9
    else if SomeHas(inputs, 3) then 3
    else if SomeHas(inputs, 2) then 2
    else 0
  }

  /**
   The whole breakdown, `a`, `a'` and `b`, `b'` being the middle academic and attitude scores: the parts, their sum,
   and the level from 13, 9 and 5 points on; level 3 is forced where two lecturers or more all saw three absences.
   */
  lemma RiskIs(inputs: seq<Evaluation>, a: int, a': int, b: int, b': int)
    requires inputs != []
    requires IsAtRank(AcademicScores(inputs), a, (|inputs| - 1) / 2)
    requires IsAtRank(AcademicScores(inputs), a', |inputs| / 2)
    requires IsAtRank(AttitudeScores(inputs), b, (|inputs| - 1) / 2)
    requires IsAtRank(AttitudeScores(inputs), b', |inputs| / 2)
    ensures var r := RiskOf(inputs);
            && r.components.rl == PointsForTwice(a + a') && r.components.ra == PointsForTwice(b + b')
            && r.components.rc == AttendancePoints(inputs)
            && r.drs == r.components.rl + r.components.ra + r.components.rc + r.components.rh + r.components.rp
            && (r.drsLevel == 4 <==> r.drs >= 13) && (r.drsLevel == 3 <==> 9 <= r.drs < 13)
            && (r.drsLevel == 2 <==> 5 <= r.drs < 9) && (r.drsLevel == 1 <==> r.drs < 5)
            && r.dataForcedLevel == (if HasTwo(inputs) && AllHave(inputs, 3) then 3 else 1)
    ensures RiskOf(inputs).components.rp == PointsOf(Marked(inputs), P)
    ensures RiskOf(inputs).components.rh == PointsOf(Marked(inputs), H)
  {
    hide PointsOf, Marked, ScorePoints, Collected, AllAtLeast, Worst, IsAtRank, HasTwo, AllHave, SomeHas,
      PointsForTwice;
    AcademicCollected(inputs);
    AttitudeCollected(inputs);
    AbsencesCollected(inputs);
    ScoreIsByMedian(inputs, ACADEMIC, a, a');
    ScoreIsByMedian(inputs, ATTITUDE, b, b');
  }

  /** No evaluation, no risk. */
  lemma NothingNoRisk()
    ensures RiskOf([]) == Breakdown(Components(0, 0, 0, 0, 0), 0, 1, 1, {})
  {
    hide PointsOf, ComponentsOf, Marked;
    NothingMarked();
    NothingScored();
  }

  lemma NothingScored()
    ensures ComponentsOf([]).rl == 0 && ComponentsOf([]).ra == 0 && ComponentsOf([]).rc == 0
    ensures ComponentsOf([]).rh == PointsOf(Marked([]), H) && ComponentsOf([]).rp == PointsOf(Marked([]), P)
    ensures !AreAllAbsentThree([])
  {
    hide PointsOf, Marked, AttendanceScore, Collected, AllAtLeast;
    NothingCollected();
  }

  lemma NothingMarked()
    ensures Marked([]) == {} && PointsOf({}, P) == 0 && PointsOf({}, H) == 0
  {
    hide Worth;
    EachPersonalIsWorth({});
    EachLearningIsWorth({});
  }

  lemma NothingCollected()
    ensures Collected([], ABSENCES) == [] && AttendanceScore([]) == 0
  {}
}
