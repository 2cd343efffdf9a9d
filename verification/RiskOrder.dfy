/**
 Worsening an input never lowers the risk, and the order of the inputs does not matter
 (packages/shared-types/src/risk-score.ts:84-150, packages/shared-types/src/evaluations.ts:24-33).
 */
module RiskOrder {
  import opened Options
  import opened RiskScore

  // ---- Order statistics ----

  ghost predicate IsSorted(s: seq<int>) {
    forall j, k :: 0 <= j < k < |s| ==> s[j] <= s[k]
  }

  /** Value by value. */
  ghost predicate AtMost(a: seq<int>, b: seq<int>) {
    |a| == |b| && forall k :: 0 <= k < |a| ==> a[k] <= b[k]
  }

  lemma Prepend(x: int, s: seq<int>)
    ensures multiset([x] + s) == multiset{x} + multiset(s)
  {}

  lemma HeadAndTail(s: seq<int>)
    requires s != []
    ensures multiset(s) == multiset{s[0]} + multiset(s[1..])
  {
    assert s == [s[0]] + s[1..];
  }

  lemma {:induction false} InsertAdds(x: int, s: seq<int>)
    ensures multiset(Insert(x, s)) == multiset{x} + multiset(s)
  {
    if s == [] || x <= s[0] {
      Prepend(x, s);
    } else {
      InsertAdds(x, s[1..]);
      HeadAndTail(s);
      Prepend(s[0], Insert(x, s[1..]));
    }
  }

  lemma PrependSorts(x: int, s: seq<int>)
    requires IsSorted(s) && (s != [] ==> x <= s[0])
    ensures IsSorted([x] + s)
  {}

  lemma {:induction false} InsertSorts(x: int, s: seq<int>)
    requires IsSorted(s)
    ensures IsSorted(Insert(x, s)) && Insert(x, s)[0] == if s == [] || x <= s[0] then x else s[0]
  {
    if s == [] || x <= s[0] {
      PrependSorts(x, s);
    } else {
      TailSorted(s);
      hide IsSorted;
      InsertSorts(x, s[1..]);
      PrependSorts(s[0], Insert(x, s[1..]));
    }
  }

  lemma TailSorted(s: seq<int>)
    requires IsSorted(s) && s != []
    ensures IsSorted(s[1..]) && (|s| > 1 ==> s[0] <= s[1..][0])
  {}

  lemma {:induction false} SortedIsSorted(values: seq<int>)
    ensures IsSorted(Sorted(values)) && multiset(Sorted(values)) == multiset(values)
  {
    if values != [] {
      var front, last := values[..|values| - 1], values[|values| - 1];
      SortedIsSorted(front);
      InsertSorts(last, Sorted(front));
      InsertAdds(last, Sorted(front));
      assert values == front + [last];
    }
  }

  lemma InsertHead(s: seq<int>)
    requires IsSorted(s) && s != []
    ensures Insert(s[0], s[1..]) == s && IsSorted(s[1..])
  {
    assert s == [s[0]] + s[1..];
  }

  lemma PrependAtMost(x: int, s: seq<int>, y: int, t: seq<int>)
    requires x <= y && AtMost(s, t)
    ensures AtMost([x] + s, [y] + t)
  {}

  lemma HeadsAtMost(s: seq<int>, t: seq<int>)
    requires AtMost(s, t) && s != []
    ensures t != [] && s[0] <= t[0] && AtMost(s[1..], t[1..])
  {}

  lemma {:induction false} InsertIsMonotone(x: int, s: seq<int>, y: int, t: seq<int>)
    requires x <= y && AtMost(s, t) && IsSorted(s) && IsSorted(t)
    ensures AtMost(Insert(x, s), Insert(y, t))
    decreases |s|
  {
    if s == [] {
      PrependAtMost(x, s, y, t);
    } else {
      HeadsAtMost(s, t);
      InsertHead(s);
      InsertHead(t);
      hide AtMost, IsSorted;
      if x <= s[0] && y <= t[0] {
        PrependAtMost(x, s, y, t);
      } else if x <= s[0] {
        InsertIsMonotone(s[0], s[1..], y, t[1..]);
        PrependAtMost(x, s, t[0], Insert(y, t[1..]));
      } else if y <= t[0] {
        InsertIsMonotone(x, s[1..], t[0], t[1..]);
        PrependAtMost(s[0], Insert(x, s[1..]), y, t);
      } else {
        InsertIsMonotone(x, s[1..], y, t[1..]);
        PrependAtMost(s[0], Insert(x, s[1..]), t[0], Insert(y, t[1..]));
      }
    }
  }

  /** Every order statistic is monotone. */
  lemma {:induction false} SortedIsMonotone(a: seq<int>, b: seq<int>)
    requires AtMost(a, b)
    ensures AtMost(Sorted(a), Sorted(b))
    decreases |a|
  {
    if a != [] {
      SortedIsMonotone(a[..|a| - 1], b[..|b| - 1]);
      SortedIsSorted(a[..|a| - 1]);
      SortedIsSorted(b[..|b| - 1]);
      InsertIsMonotone(a[|a| - 1], Sorted(a[..|a| - 1]), b[|b| - 1], Sorted(b[..|b| - 1]));
    }
  }

  lemma MedianIsMonotone(a: seq<int>, b: seq<int>)
    requires AtMost(a, b)
    ensures Median(a) <= Median(b)
  {
    SortedIsMonotone(a, b);
    hide Sorted;
  }

  lemma BandPointsFall(x: real, y: real)
    requires x <= y
    ensures BandPoints(BandOf(x)) >= BandPoints(BandOf(y))
  {
    assert (x + 0.5).Floor <= (y + 0.5).Floor;
  }

  // ---- Attendance ----

  lemma {:induction false} WorstIsMonotone(a: seq<int>, b: seq<int>)
    requires AtMost(a, b)
    ensures Worst(a) <= Worst(b)
    decreases |a|
  {
    if a != [] {
      WorstIsMonotone(a[..|a| - 1], b[..|b| - 1]);
    }
  }

  lemma AttendanceIsMonotone(a: seq<int>, b: seq<int>)
    requires AtMost(a, b)
    ensures AttendanceScore(a) <= AttendanceScore(b)
  {
    WorstIsMonotone(a, b);
    WorstIsAtMostThree(a);
    hide Worst;
    forall bound | AllAtLeast(a, bound)
      ensures AllAtLeast(b, bound)
    {
      forall k | 0 <= k < |b|
        ensures b[k] >= bound
      {
        assert a[k] >= bound;
      }
    }
  }

  // ---- Criteria ----

  lemma WorthIsMonotone(a: set<Criterion>, b: set<Criterion>, prefix: Prefix)
    requires a <= b
    ensures forall c: Criterion :: Worth(c, a, prefix) <= Worth(c, b, prefix)
  {}

  lemma PointsAreMonotone(a: set<Criterion>, b: set<Criterion>, prefix: Prefix)
    requires a <= b
    ensures PointsOf(a, prefix) <= PointsOf(b, prefix)
  {
    WorthIsMonotone(a, b, prefix);
    hide Worth;
  }

  // ---- The whole score ----

  /** No better a score, no fewer absences, no criterion less; absences noted by the same lecturers. */
  predicate IsNoBetter(e: Evaluation, worse: Evaluation) {
    && worse.academicScore <= e.academicScore && worse.attitudeScore <= e.attitudeScore
    && worse.absentSessions.Some? == e.absentSessions.Some?
    && (e.absentSessions.Some? ==> e.absentSessions.value <= worse.absentSessions.value)
    && e.criteria <= worse.criteria
  }

  ghost predicate AreNoBetter(inputs: seq<Evaluation>, worse: seq<Evaluation>) {
    |inputs| == |worse| && forall k :: 0 <= k < |inputs| ==> IsNoBetter(inputs[k], worse[k])
  }

  lemma {:induction false} CollectedInOrder(inputs: seq<Evaluation>, worse: seq<Evaluation>)
    requires AreNoBetter(inputs, worse)
    ensures AtMost(Collected(worse, ACADEMIC), Collected(inputs, ACADEMIC))
    ensures AtMost(Collected(worse, ATTITUDE), Collected(inputs, ATTITUDE))
    ensures AtMost(Collected(inputs, ABSENCES), Collected(worse, ABSENCES))
    decreases |inputs|
  {
    if inputs != [] {
      assert IsNoBetter(inputs[|inputs| - 1], worse[|worse| - 1]);
      CollectedInOrder(inputs[..|inputs| - 1], worse[..|worse| - 1]);
    }
  }

  lemma MarkedGrows(inputs: seq<Evaluation>, worse: seq<Evaluation>)
    requires AreNoBetter(inputs, worse)
    ensures Marked(inputs) <= Marked(worse)
  {
    forall c | c in Marked(inputs)
      ensures c in Marked(worse)
    {
      var k :| 0 <= k < |inputs| && c in inputs[k].criteria;
      assert IsNoBetter(inputs[k], worse[k]);
      assert worse[k] in worse;
    }
  }

  /** The score and the level of worse evaluations are at least as high. */
  lemma WorseningNeverLowersTheRisk(inputs: seq<Evaluation>, worse: seq<Evaluation>)
    requires AreNoBetter(inputs, worse)
    ensures RiskOf(inputs).drs <= RiskOf(worse).drs
    ensures RiskOf(inputs).drsLevel <= RiskOf(worse).drsLevel
  {
    hide Collected, Marked, AttendanceScore, PointsOf, ScorePoints, AreAllAbsentThree, AtMost, AreNoBetter;
    CollectedInOrder(inputs, worse);
    MarkedGrows(inputs, worse);
    ScoresFall(inputs, worse, ACADEMIC);
    ScoresFall(inputs, worse, ATTITUDE);
    AttendanceIsMonotone(Collected(inputs, ABSENCES), Collected(worse, ABSENCES));
    PointsAreMonotone(Marked(inputs), Marked(worse), P);
    PointsAreMonotone(Marked(inputs), Marked(worse), H);
  }

  lemma ScoresFall(inputs: seq<Evaluation>, worse: seq<Evaluation>, value: Evaluation -> Option<int>)
    requires AreNoBetter(inputs, worse) && AtMost(Collected(worse, value), Collected(inputs, value))
    ensures ScorePoints(inputs, value) <= ScorePoints(worse, value)
  {
    hide Collected, Median, BandOf, BandPoints, AtMost;
    MedianIsMonotone(Collected(worse, value), Collected(inputs, value));
    BandPointsFall(Median(Collected(worse, value)), Median(Collected(inputs, value)));
  }

  // ---- Order does not matter ----

  ghost predicate IsWithin(a: seq<int>, b: seq<int>) {
    forall k :: 0 <= k < |a| ==> IsValueOf(a[k], b)
  }

  predicate IsValueOf(x: int, b: seq<int>) {
    exists k :: 0 <= k < |b| && b[k] == x
  }

  lemma SameValues(a: seq<int>, b: seq<int>)
    requires multiset(a) == multiset(b)
    ensures |a| == |b| && IsWithin(a, b) && IsWithin(b, a)
  {
    assert |a| == |multiset(a)| == |multiset(b)| == |b|;
    forall k | 0 <= k < |a|
      ensures IsValueOf(a[k], b)
    {
      assert a[k] in multiset(b);
    }
    forall k | 0 <= k < |b|
      ensures IsValueOf(b[k], a)
    {
      assert b[k] in multiset(a);
    }
  }

  lemma HeadIsLeast(s: seq<int>, t: seq<int>)
    requires IsSorted(s) && s != [] && t != [] && IsWithin(t, s)
    ensures s[0] <= t[0]
  {
    assert IsValueOf(t[0], s);
  }

  lemma {:induction false} SortedIsUnique(s: seq<int>, t: seq<int>)
    requires IsSorted(s) && IsSorted(t) && multiset(s) == multiset(t)
    ensures s == t
    decreases |s|
  {
    SameValues(s, t);
    if s != [] {
      HeadIsLeast(s, t);
      HeadIsLeast(t, s);
      TailSorted(s);
      TailSorted(t);
      hide IsSorted;
      TailsAgree(s, t);
      SortedIsUnique(s[1..], t[1..]);
      SameHeadAndTail(s, t);
    }
  }

  lemma TailsAgree(s: seq<int>, t: seq<int>)
    requires s != [] && t != [] && s[0] == t[0] && multiset(s) == multiset(t)
    ensures multiset(s[1..]) == multiset(t[1..])
  {
    HeadAndTail(s);
    HeadAndTail(t);
    assert multiset(s[1..]) == multiset(s) - multiset{s[0]};
    assert multiset(t[1..]) == multiset(t) - multiset{t[0]};
  }

  lemma SameHeadAndTail(s: seq<int>, t: seq<int>)
    requires s != [] && t != [] && s[0] == t[0] && s[1..] == t[1..]
    ensures s == t
  {
    assert s == [s[0]] + s[1..];
    assert t == [t[0]] + t[1..];
  }

  lemma MedianIgnoresOrder(a: seq<int>, b: seq<int>)
    requires multiset(a) == multiset(b)
    ensures Median(a) == Median(b)
  {
    SortedIsSorted(a);
    SortedIsSorted(b);
    hide Sorted;
    SortedIsUnique(Sorted(a), Sorted(b));
    SameValues(a, b);
  }

  lemma {:induction false} WorstIsTheWorst(s: seq<int>)
    ensures forall k :: 0 <= k < |s| ==> AbsentPoint(s[k]) <= Worst(s)
    ensures s != [] ==> exists k :: 0 <= k < |s| && AbsentPoint(s[k]) == Worst(s)
  {
    if s != [] {
      var front, last := s[..|s| - 1], s[|s| - 1];
      WorstIsTheWorst(front);
      if front == [] {
        NoWorst();
        assert AbsentPoint(s[|s| - 1]) == Worst(s);
      } else if Worst(s) != AbsentPoint(last) {
        var k :| 0 <= k < |front| && AbsentPoint(front[k]) == Worst(front);
        assert AbsentPoint(s[k]) == Worst(s);
      }
      forall k | 0 <= k < |s|
        ensures AbsentPoint(s[k]) <= Worst(s)
      {
        assert k < |front| ==> s[k] == front[k];
      }
    }
  }

  lemma WorstFollows(a: seq<int>, b: seq<int>)
    requires IsWithin(a, b)
    ensures Worst(a) <= Worst(b)
  {
    WorstIsTheWorst(a);
    WorstIsTheWorst(b);
    hide Worst;
    if a != [] {
      var k :| 0 <= k < |a| && AbsentPoint(a[k]) == Worst(a);
      assert IsValueOf(a[k], b);
    } else {
      NoWorst();
    }
  }

  lemma NoWorst()
    ensures Worst([]) == 0
  {}

  lemma AtLeastFollows(a: seq<int>, b: seq<int>, bound: int)
    requires IsWithin(a, b)
    ensures AllAtLeast(b, bound) ==> AllAtLeast(a, bound)
  {
    forall k | 0 <= k < |a| && AllAtLeast(b, bound)
      ensures a[k] >= bound
    {
      assert IsValueOf(a[k], b);
    }
  }

  lemma AttendanceIgnoresOrder(a: seq<int>, b: seq<int>)
    requires multiset(a) == multiset(b)
    ensures AttendanceScore(a) == AttendanceScore(b)
    ensures |a| == |b| && forall bound :: AllAtLeast(a, bound) <==> AllAtLeast(b, bound)
  {
    SameValues(a, b);
    WorstFollows(a, b);
    WorstFollows(b, a);
    hide Worst;
    forall bound
      ensures AllAtLeast(a, bound) <==> AllAtLeast(b, bound)
    {
      AtLeastFollows(a, b, bound);
      AtLeastFollows(b, a, bound);
    }
  }

  lemma {:induction false} CollectedJoins(a: seq<Evaluation>, b: seq<Evaluation>, value: Evaluation -> Option<int>)
    ensures Collected(a + b, value) == Collected(a, value) + Collected(b, value)
    decreases |b|
  {
    if b == [] {
      assert a + b == a;
    } else {
      assert (a + b)[..|a + b| - 1] == a + b[..|b| - 1];
      CollectedJoins(a, b[..|b| - 1], value);
    }
  }

  lemma {:induction false} CollectedIgnoresOrder(
    a: seq<Evaluation>, b: seq<Evaluation>, value: Evaluation -> Option<int>)
    requires multiset(a) == multiset(b)
    ensures multiset(Collected(a, value)) == multiset(Collected(b, value))
    decreases |a|
  {
    assert |a| == |multiset(a)| == |multiset(b)| == |b|;
    if a != [] {
      var front, last := a[..|a| - 1], a[|a| - 1];
      WithoutOne(a, |a| - 1);
      assert front == a[..|a| - 1] + a[|a|..];
      var j := PlaceOf(b, last, a);
      WithoutOne(b, j);
      CollectedIgnoresOrder(front, b[..j] + b[j + 1..], value);
      CollectedWithoutOne(a, |a| - 1, value);
      CollectedWithoutOne(b, j, value);
    }
  }

  lemma PlaceOf(b: seq<Evaluation>, e: Evaluation, a: seq<Evaluation>) returns (j: nat)
    requires multiset(a) == multiset(b) && e in a
    ensures j < |b| && b[j] == e
  {
    assert e in multiset(a);
    assert e in multiset(b);
    j :| 0 <= j < |b| && b[j] == e;
  }

  lemma WithoutOne(s: seq<Evaluation>, j: nat)
    requires j < |s|
    ensures multiset(s[..j] + s[j + 1..]) == multiset(s) - multiset{s[j]}
  {
    assert s == s[..j] + ([s[j]] + s[j + 1..]);
  }

  lemma CollectedWithoutOne(s: seq<Evaluation>, j: nat, value: Evaluation -> Option<int>)
    requires j < |s|
    ensures multiset(Collected(s, value))
         == multiset(Collected(s[..j] + s[j + 1..], value)) + multiset(Collected([s[j]], value))
  {
    hide Collected;
    assert s == s[..j] + ([s[j]] + s[j + 1..]);
    CollectedJoins(s[..j], s[j + 1..], value);
    CollectedJoins(s[..j], [s[j]] + s[j + 1..], value);
    CollectedJoins([s[j]], s[j + 1..], value);
  }

  /** A permutation of the evaluations has the same risk. */
  lemma OrderDoesNotMatter(a: seq<Evaluation>, b: seq<Evaluation>)
    requires multiset(a) == multiset(b)
    ensures RiskOf(a) == RiskOf(b)
  {
    CollectedIgnoresOrder(a, b, ACADEMIC);
    CollectedIgnoresOrder(a, b, ATTITUDE);
    CollectedIgnoresOrder(a, b, ABSENCES);
    assert |a| == |multiset(a)| == |multiset(b)| == |b|;
    MarkedIgnoresOrder(a, b);
    hide Collected, Median, AttendanceScore, AllAtLeast, PointsOf, BandOf, Marked;
    MedianIgnoresOrder(Collected(a, ACADEMIC), Collected(b, ACADEMIC));
    MedianIgnoresOrder(Collected(a, ATTITUDE), Collected(b, ATTITUDE));
    AttendanceIgnoresOrder(Collected(a, ABSENCES), Collected(b, ABSENCES));
  }

  lemma MarkedIgnoresOrder(a: seq<Evaluation>, b: seq<Evaluation>)
    requires multiset(a) == multiset(b)
    ensures Marked(a) == Marked(b)
  {
    assert forall e :: e in a <==> e in multiset(a);
    assert forall e :: e in b <==> e in multiset(b);
  }
}
