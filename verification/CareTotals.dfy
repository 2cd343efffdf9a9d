/**
 What the numbers of the overview are (apps/api/src/modules/statistics/care-overview.service.ts:163-257): sums of
 the care logs of the pairs themselves, and the students that the pairs are about.
 */
module CareTotals {
  import opened Options
  import opened CareOverview
  import opened CareConservation

  /** The logs of the pairs that count. */
  function LogsWhere(pairs: seq<Pair>, counts: Pair -> bool): nat {
    if pairs == [] then 0
    else LogsWhere(pairs[..|pairs| - 1], counts) + if counts(pairs[|pairs| - 1]) then pairs[|pairs| - 1].logs else 0
  }

  /** The students that they are about. */
  ghost function StudentsWhere(pairs: seq<Pair>, counts: Pair -> bool): set<StudentId> {
    set k | 0 <= k < |pairs| && counts(pairs[k]) :: pairs[k].student
  }

  /** Written by someone of student affairs. */
  function ByAffairs(staff: Staff): Pair -> bool {
    (p: Pair) => p.staff in staff && staff[p.staff].isSa
  }

  /** Written by someone of the department who is not of student affairs. */
  function ByLecturers(dept: DeptId, staff: Staff): Pair -> bool {
    (p: Pair) => p.staff in staff && !staff[p.staff].isSa && staff[p.staff].dept == Some(dept)
  }

  /** Written by someone of student affairs or of one of the departments. */
  function ByAnyone(depts: seq<DeptId>, staff: Staff): Pair -> bool {
    (p: Pair) =>
      p.staff in staff && (staff[p.staff].isSa || exists d :: d in depts && staff[p.staff].dept == Some(d))
  }

  function By(id: StaffId): Pair -> bool {
    (p: Pair) => p.staff == id
  }

  lemma StudentsSnoc(pairs: seq<Pair>, pair: Pair, counts: Pair -> bool)
    ensures StudentsWhere(pairs + [pair], counts)
         == StudentsWhere(pairs, counts) + if counts(pair) then {pair.student} else {}
  {
    var longer := pairs + [pair];
    assert longer[|pairs|] == pair;
    forall s
      ensures s in StudentsWhere(longer, counts)
         <==> s in StudentsWhere(pairs, counts) || (counts(pair) && s == pair.student)
    {
      if s in StudentsWhere(pairs, counts) {
        var k :| 0 <= k < |pairs| && counts(pairs[k]) && pairs[k].student == s;
        assert longer[k] == pairs[k];
      }
      if s in StudentsWhere(longer, counts) {
        var k :| 0 <= k < |longer| && counts(longer[k]) && longer[k].student == s;
        assert k < |pairs| ==> longer[k] == pairs[k];
      }
    }
  }

  lemma {:induction false} TallyIs(
    pairs: seq<Pair>, group: Group, counts: Pair -> bool, staff: Staff, depts: seq<DeptId>)
    requires forall k :: 0 <= k < |pairs| ==> (IsIn(pairs[k], group, staff, depts) <==> counts(pairs[k]))
    ensures TallyOf(pairs, group, staff, depts).logs == LogsWhere(pairs, counts)
    ensures TallyOf(pairs, group, staff, depts).students == StudentsWhere(pairs, counts)
  {
    hide IsIn, StudentsWhere;
    if pairs == [] {
      NoStudents(counts);
    } else {
      var front, last := pairs[..|pairs| - 1], pairs[|pairs| - 1];
      assert pairs == front + [last];
      TallyIs(front, group, counts, staff, depts);
      StudentsSnoc(front, last, counts);
    }
  }

  lemma NoStudents(counts: Pair -> bool)
    ensures StudentsWhere([], counts) == {}
  {}

  /** A department counts what its lecturers wrote, and student affairs what its people wrote. */
  lemma GroupsCount(pairs: seq<Pair>, staff: Staff, depts: seq<DeptId>)
    ensures forall k :: 0 <= k < |depts| ==>
              && TallyOf(pairs, OfDepartment(depts[k]), staff, depts).logs
                 == LogsWhere(pairs, ByLecturers(depts[k], staff))
              && TallyOf(pairs, OfDepartment(depts[k]), staff, depts).students
                 == StudentsWhere(pairs, ByLecturers(depts[k], staff))
    ensures TallyOf(pairs, StudentAffairs, staff, depts).logs == LogsWhere(pairs, ByAffairs(staff))
    ensures TallyOf(pairs, StudentAffairs, staff, depts).students == StudentsWhere(pairs, ByAffairs(staff))
    ensures TallyOf(pairs, Everyone, staff, depts).logs == LogsWhere(pairs, ByAnyone(depts, staff))
  {
    hide TallyOf, LogsWhere, StudentsWhere;
    forall k | 0 <= k < |depts|
      ensures TallyOf(pairs, OfDepartment(depts[k]), staff, depts).logs
           == LogsWhere(pairs, ByLecturers(depts[k], staff))
      ensures TallyOf(pairs, OfDepartment(depts[k]), staff, depts).students
           == StudentsWhere(pairs, ByLecturers(depts[k], staff))
    {
      TallyIs(pairs, OfDepartment(depts[k]), ByLecturers(depts[k], staff), staff, depts);
    }
    TallyIs(pairs, StudentAffairs, ByAffairs(staff), staff, depts);
    TallyIs(pairs, Everyone, ByAnyone(depts, staff), staff, depts);
  }

  /** Someone who is counted is counted with all that they wrote. */
  lemma PersonCounts(pairs: seq<Pair>, staff: Staff, depts: seq<DeptId>, id: StaffId)
    requires id in staff && (staff[id].isSa || (staff[id].dept.Some? && staff[id].dept.value in depts))
    ensures TallyOf(pairs, OfPerson(id), staff, depts).logs == LogsWhere(pairs, By(id))
    ensures TallyOf(pairs, OfPerson(id), staff, depts).students == StudentsWhere(pairs, By(id))
  {
    hide TallyOf, LogsWhere, StudentsWhere;
    TallyIs(pairs, OfPerson(id), By(id), staff, depts);
  }

  /** The overview as `BuildCareOverview` promises it, in the logs and students of the pairs. */
  lemma OverviewCounts(o: Overview, pairs: seq<Pair>, staff: Staff, depts: seq<DeptId>)
    requires IsDistinct(depts) && |o.departments| == |depts|
    requires forall k :: 0 <= k < |depts| ==> IsDepartmentRow(o.departments[k], depts[k], pairs, staff, depts)
    requires o.sa.dept == None && IsBalanced(o.sa, StudentAffairs, pairs, staff, depts)
    requires SumOfDepartments(o.departments) + o.sa.careLogs == TallyOf(pairs, Everyone, staff, depts).logs
    ensures forall k :: 0 <= k < |depts| ==>
              && o.departments[k].careLogs == LogsWhere(pairs, ByLecturers(depts[k], staff))
              && o.departments[k].caredStudents == |StudentsWhere(pairs, ByLecturers(depts[k], staff))|
    ensures o.sa.careLogs == LogsWhere(pairs, ByAffairs(staff))
    ensures o.sa.caredStudents == |StudentsWhere(pairs, ByAffairs(staff))|
    ensures SumOfDepartments(o.departments) + o.sa.careLogs == LogsWhere(pairs, ByAnyone(depts, staff))
  {
    hide TallyOf, LogsWhere, StudentsWhere, ListsWriters, SumOfDepartments, AreRowsOf, SumOfLogs, SumOfStudents;
    GroupsCount(pairs, staff, depts);
    forall k | 0 <= k < |depts|
      ensures o.departments[k].careLogs == LogsWhere(pairs, ByLecturers(depts[k], staff))
      ensures o.departments[k].caredStudents == |StudentsWhere(pairs, ByLecturers(depts[k], staff))|
    {
      assert IsDepartmentRow(o.departments[k], depts[k], pairs, staff, depts);
    }
  }

  /** The row of a person, in the list of a department or in that of student affairs. */
  lemma PersonRowCounts(
    row: GroupRow, group: Group, pairs: seq<Pair>, staff: Staff, depts: seq<DeptId>, j: nat)
    requires IsBalanced(row, group, pairs, staff, depts) && ListsWriters(row, pairs, staff, depts)
    requires (row.dept.Some? ==> row.dept.value in depts) && j < |row.people|
    ensures row.people[j].careLogs == LogsWhere(pairs, By(row.people[j].id))
    ensures row.people[j].caredStudents == |StudentsWhere(pairs, By(row.people[j].id))|
    ensures exists k :: 0 <= k < |pairs| && pairs[k].staff == row.people[j].id
  {
    hide TallyOf, LogsWhere, StudentsWhere, SumOfLogs, SumOfStudents;
    var id := row.people[j].id;
    assert IsRowOf(row.people[j], pairs, staff, depts);
    IdIsListed(row.people, j);
    assert HasWritten(pairs, id, staff, depts);
    PersonCounts(pairs, staff, depts, id);
  }

  lemma {:induction false} IdIsListed(rows: seq<CareRow>, j: nat)
    requires j < |rows|
    ensures rows[j].id in IdsOf(rows)
  {
    if j < |rows| - 1 {
      IdIsListed(rows[..|rows| - 1], j);
    }
  }
}
