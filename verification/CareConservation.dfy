/**
 The overview conserves what it counts (apps/api/src/modules/statistics/care-overview.service.ts:198-246):
 the rows of a department add up to it, departments and student affairs add up to everything counted, and
 everyone counted is in one list.
 */
module CareConservation {
  import opened Options
  import opened CareOverview

  // ---- Tallies of lists are sums ----

  lemma {:induction false} SameGroup(pairs: seq<Pair>, g: Group, g': Group, staff: Staff, depts: seq<DeptId>)
    requires forall k :: 0 <= k < |pairs| ==> (IsIn(pairs[k], g, staff, depts) <==> IsIn(pairs[k], g', staff, depts))
    ensures TallyOf(pairs, g, staff, depts) == TallyOf(pairs, g', staff, depts)
  {
    hide IsIn;
    if pairs != [] {
      SameGroup(pairs[..|pairs| - 1], g, g', staff, depts);
    }
  }

  /** The group is made of two that share no pair. */
  ghost predicate IsMadeOf(whole: Group, a: Group, b: Group, staff: Staff, depts: seq<DeptId>) {
    forall pair: Pair ::
      && (IsIn(pair, whole, staff, depts) <==> IsIn(pair, a, staff, depts) || IsIn(pair, b, staff, depts))
      && !(IsIn(pair, a, staff, depts) && IsIn(pair, b, staff, depts))
  }

  lemma PlusAdds(whole: Tally, a: Tally, b: Tally, pair: Pair, first: bool)
    requires whole.logs == a.logs + b.logs && whole.students == a.students + b.students
    ensures var a', b' := if first then Plus(a, pair) else a, if first then b else Plus(b, pair);
            Plus(whole, pair).logs == a'.logs + b'.logs && Plus(whole, pair).students == a'.students + b'.students
  {}

  lemma {:induction false} GroupsAdd(
    pairs: seq<Pair>, whole: Group, a: Group, b: Group, staff: Staff, depts: seq<DeptId>)
    requires IsMadeOf(whole, a, b, staff, depts)
    ensures TallyOf(pairs, whole, staff, depts).logs
         == TallyOf(pairs, a, staff, depts).logs + TallyOf(pairs, b, staff, depts).logs
    ensures TallyOf(pairs, whole, staff, depts).students
         == TallyOf(pairs, a, staff, depts).students + TallyOf(pairs, b, staff, depts).students
  {
    hide IsIn;
    if pairs != [] {
      var last := pairs[|pairs| - 1];
      assert IsIn(last, whole, staff, depts) <==> IsIn(last, a, staff, depts) || IsIn(last, b, staff, depts);
      var front := pairs[..|pairs| - 1];
      GroupsAdd(front, whole, a, b, staff, depts);
      hide Plus;
      PlusAdds(TallyOf(front, whole, staff, depts), TallyOf(front, a, staff, depts), TallyOf(front, b, staff, depts),
               last, IsIn(last, a, staff, depts));
    }
  }

  lemma {:induction false} NobodyTallied(pairs: seq<Pair>, g: Group, staff: Staff, depts: seq<DeptId>)
    requires g == OfPeople([]) || g == OfDepartments([])
    ensures TallyOf(pairs, g, staff, depts) == Tally(0, {})
  {
    if pairs != [] {
      NobodyTallied(pairs[..|pairs| - 1], g, staff, depts);
    }
  }

  function LogsOf(pairs: seq<Pair>, people: seq<StaffId>, staff: Staff, depts: seq<DeptId>): nat {
    if people == [] then 0
    else
      LogsOf(pairs, people[..|people| - 1], staff, depts)
      + TallyOf(pairs, OfPerson(people[|people| - 1]), staff, depts).logs
  }

  function StudentsOf(pairs: seq<Pair>, people: seq<StaffId>, staff: Staff, depts: seq<DeptId>): nat {
    if people == [] then 0
    else
      StudentsOf(pairs, people[..|people| - 1], staff, depts)
      + |TallyOf(pairs, OfPerson(people[|people| - 1]), staff, depts).students|
  }

  lemma UnionIsNoLarger(a: set<StudentId>, b: set<StudentId>)
    ensures |a + b| <= |a| + |b|
  {
    assert a + b == a + (b - a);
    assert |a + (b - a)| == |a| + |b - a|;
    assert |b| == |b - a| + |b * a|;
  }

  lemma OneMorePerson(people: seq<StaffId>, id: StaffId, staff: Staff, depts: seq<DeptId>)
    requires id !in people
    ensures IsMadeOf(OfPeople(people + [id]), OfPeople(people), OfPerson(id), staff, depts)
  {}

  lemma OneMoreDepartment(list: seq<DeptId>, dept: DeptId, staff: Staff, depts: seq<DeptId>)
    requires dept !in list
    ensures IsMadeOf(OfDepartments(list + [dept]), OfDepartments(list), OfDepartment(dept), staff, depts)
  {}

  lemma LastIsNew(ids: seq<nat>)
    requires IsDistinct(ids) && ids != []
    ensures ids[|ids| - 1] !in ids[..|ids| - 1] && IsDistinct(ids[..|ids| - 1])
    ensures ids == ids[..|ids| - 1] + [ids[|ids| - 1]]
  {}

  /** The people of a list add up to the list; their students may overlap. */
  lemma {:induction false} PeopleAddUp(pairs: seq<Pair>, people: seq<StaffId>, staff: Staff, depts: seq<DeptId>)
    requires IsDistinct(people)
    ensures TallyOf(pairs, OfPeople(people), staff, depts).logs == LogsOf(pairs, people, staff, depts)
    ensures |TallyOf(pairs, OfPeople(people), staff, depts).students| <= StudentsOf(pairs, people, staff, depts)
    decreases |people|
  {
    hide TallyOf, IsMadeOf;
    if people == [] {
      NobodyTallied(pairs, OfPeople([]), staff, depts);
    } else {
      var front, last := people[..|people| - 1], people[|people| - 1];
      LastIsNew(people);
      PeopleAddUp(pairs, front, staff, depts);
      OneMorePerson(front, last, staff, depts);
      GroupsAdd(pairs, OfPeople(people), OfPeople(front), OfPerson(last), staff, depts);
      UnionIsNoLarger(TallyOf(pairs, OfPeople(front), staff, depts).students,
                      TallyOf(pairs, OfPerson(last), staff, depts).students);
    }
  }

  function DepartmentLogs(pairs: seq<Pair>, list: seq<DeptId>, staff: Staff, depts: seq<DeptId>): nat {
    if list == [] then 0
    else
      DepartmentLogs(pairs, list[..|list| - 1], staff, depts)
      + TallyOf(pairs, OfDepartment(list[|list| - 1]), staff, depts).logs
  }

  lemma {:induction false} DepartmentsAddUp(pairs: seq<Pair>, list: seq<DeptId>, staff: Staff, depts: seq<DeptId>)
    requires IsDistinct(list)
    ensures TallyOf(pairs, OfDepartments(list), staff, depts).logs == DepartmentLogs(pairs, list, staff, depts)
    decreases |list|
  {
    hide TallyOf, IsMadeOf;
    if list == [] {
      NobodyTallied(pairs, OfDepartments([]), staff, depts);
    } else {
      var front, last := list[..|list| - 1], list[|list| - 1];
      LastIsNew(list);
      DepartmentsAddUp(pairs, front, staff, depts);
      OneMoreDepartment(front, last, staff, depts);
      GroupsAdd(pairs, OfDepartments(list), OfDepartments(front), OfDepartment(last), staff, depts);
    }
  }

  /** Departments and student affairs together are everything that is counted. */
  lemma AllIsDepartmentsAndAffairs(pairs: seq<Pair>, staff: Staff, depts: seq<DeptId>)
    requires IsDistinct(depts)
    ensures TallyOf(pairs, Everyone, staff, depts).logs
         == DepartmentLogs(pairs, depts, staff, depts) + TallyOf(pairs, StudentAffairs, staff, depts).logs
  {
    assert IsMadeOf(Everyone, OfDepartments(depts), StudentAffairs, staff, depts);
    hide TallyOf, IsMadeOf;
    GroupsAdd(pairs, Everyone, OfDepartments(depts), StudentAffairs, staff, depts);
    DepartmentsAddUp(pairs, depts, staff, depts);
  }

  // ---- The lists of people ----

  predicate IsLecturerOf(id: StaffId, dept: DeptId, staff: Staff) {
    id in staff && !staff[id].isSa && staff[id].dept == Some(dept)
  }

  predicate IsAffairs(id: StaffId, staff: Staff) {
    id in staff && staff[id].isSa
  }

  ghost predicate AreLecturers(list: seq<StaffId>, order: seq<StaffId>, dept: DeptId, staff: Staff) {
    IsDistinct(list) && forall id: nat :: id in list <==> id in order && IsLecturerOf(id, dept, staff)
  }

  ghost predicate AreAffairs(list: seq<StaffId>, order: seq<StaffId>, staff: Staff) {
    IsDistinct(list) && forall id: nat :: id in list <==> id in order && IsAffairs(id, staff)
  }

  lemma WriterIsListed(pairs: seq<Pair>, order: seq<StaffId>, staff: Staff, depts: seq<DeptId>, k: nat)
    requires IsOrder(order, pairs, staff, depts) && k < |pairs| && IsIn(pairs[k], Everyone, staff, depts)
    ensures pairs[k].staff in order
  {
    assert IsIn(pairs[k], OfPerson(pairs[k].staff), staff, depts);
    assert HasWritten(pairs, pairs[k].staff, staff, depts);
  }

  lemma DepartmentIsItsLecturers(
    pairs: seq<Pair>, order: seq<StaffId>, list: seq<StaffId>, dept: DeptId, staff: Staff, depts: seq<DeptId>)
    requires IsOrder(order, pairs, staff, depts) && AreLecturers(list, order, dept, staff)
    ensures TallyOf(pairs, OfDepartment(dept), staff, depts).logs == LogsOf(pairs, list, staff, depts)
    ensures |TallyOf(pairs, OfDepartment(dept), staff, depts).students| <= StudentsOf(pairs, list, staff, depts)
  {
    forall k | 0 <= k < |pairs|
      ensures IsIn(pairs[k], OfDepartment(dept), staff, depts) <==> IsIn(pairs[k], OfPeople(list), staff, depts)
    {
      if IsIn(pairs[k], Everyone, staff, depts) {
        WriterIsListed(pairs, order, staff, depts, k);
      }
    }
    SameGroup(pairs, OfDepartment(dept), OfPeople(list), staff, depts);
    PeopleAddUp(pairs, list, staff, depts);
  }

  lemma AffairsAreTheirStaff(
    pairs: seq<Pair>, order: seq<StaffId>, list: seq<StaffId>, staff: Staff, depts: seq<DeptId>)
    requires IsOrder(order, pairs, staff, depts) && AreAffairs(list, order, staff)
    ensures TallyOf(pairs, StudentAffairs, staff, depts).logs == LogsOf(pairs, list, staff, depts)
    ensures |TallyOf(pairs, StudentAffairs, staff, depts).students| <= StudentsOf(pairs, list, staff, depts)
  {
    forall k | 0 <= k < |pairs|
      ensures IsIn(pairs[k], StudentAffairs, staff, depts) <==> IsIn(pairs[k], OfPeople(list), staff, depts)
    {
      if IsIn(pairs[k], Everyone, staff, depts) {
        WriterIsListed(pairs, order, staff, depts, k);
      }
    }
    SameGroup(pairs, StudentAffairs, OfPeople(list), staff, depts);
    PeopleAddUp(pairs, list, staff, depts);
  }

  // ---- The overview ----

  datatype CareRow = CareRow(id: StaffId, careLogs: nat, caredStudents: nat)

  /** A department, or student affairs for none, with its people. */
  datatype GroupRow = GroupRow(dept: Option<DeptId>, careLogs: nat, caredStudents: nat, people: seq<CareRow>)

  datatype Overview = Overview(departments: seq<GroupRow>, sa: GroupRow)

  function SumOfLogs(rows: seq<CareRow>): nat {
    if rows == [] then 0 else SumOfLogs(rows[..|rows| - 1]) + rows[|rows| - 1].careLogs
  }

  function SumOfStudents(rows: seq<CareRow>): nat {
    if rows == [] then 0 else SumOfStudents(rows[..|rows| - 1]) + rows[|rows| - 1].caredStudents
  }

  function SumOfDepartments(rows: seq<GroupRow>): nat {
    if rows == [] then 0 else SumOfDepartments(rows[..|rows| - 1]) + rows[|rows| - 1].careLogs
  }

  function IdsOf(rows: seq<CareRow>): seq<StaffId> {
    if rows == [] then [] else IdsOf(rows[..|rows| - 1]) + [rows[|rows| - 1].id]
  }

  /** Each row is the tally of its person. */
  ghost predicate AreRowsOf(rows: seq<CareRow>, pairs: seq<Pair>, staff: Staff, depts: seq<DeptId>) {
    forall k :: 0 <= k < |rows| ==> IsRowOf(rows[k], pairs, staff, depts)
  }

  predicate IsRowOf(row: CareRow, pairs: seq<Pair>, staff: Staff, depts: seq<DeptId>) {
    var t := TallyOf(pairs, OfPerson(row.id), staff, depts);
    row.careLogs == t.logs && row.caredStudents == |t.students|
  }

  lemma {:induction false} RowsAddUp(rows: seq<CareRow>, pairs: seq<Pair>, staff: Staff, depts: seq<DeptId>)
    requires AreRowsOf(rows, pairs, staff, depts)
    ensures SumOfLogs(rows) == LogsOf(pairs, IdsOf(rows), staff, depts)
    ensures SumOfStudents(rows) == StudentsOf(pairs, IdsOf(rows), staff, depts)
  {
    hide TallyOf;
    if rows != [] {
      var front, last := rows[..|rows| - 1], rows[|rows| - 1];
      RowsAddUp(front, pairs, staff, depts);
      assert IsRowOf(last, pairs, staff, depts);
      assert IdsOf(rows)[..|IdsOf(rows)| - 1] == IdsOf(front);
    }
  }

  function RowsFor(byDept: map<DeptId, seq<CareRow>>, dept: DeptId): seq<CareRow> {
    if dept in byDept then byDept[dept] else []
  }

  /** The lists that the first `k` people of the order make. */
  ghost predicate AreListed(
    byDept: map<DeptId, seq<CareRow>>, sa: seq<CareRow>, order: seq<StaffId>, pairs: seq<Pair>, staff: Staff,
    depts: seq<DeptId>)
  {
    && (forall dept: nat ::
          && AreLecturers(IdsOf(RowsFor(byDept, dept)), order, dept, staff)
          && AreRowsOf(RowsFor(byDept, dept), pairs, staff, depts))
    && AreAffairs(IdsOf(sa), order, staff) && AreRowsOf(sa, pairs, staff, depts)
  }

  lemma IdsSnoc(rows: seq<CareRow>, row: CareRow)
    ensures IdsOf(rows + [row]) == IdsOf(rows) + [row.id]
  {
    assert (rows + [row])[..|rows|] == rows;
  }

  lemma LecturerListed(list: seq<StaffId>, order: seq<StaffId>, id: StaffId, dept: DeptId, staff: Staff)
    requires AreLecturers(list, order, dept, staff) && id !in order
    ensures AreLecturers(if IsLecturerOf(id, dept, staff) then list + [id] else list, order + [id], dept, staff)
  {}

  lemma AffairsListed(list: seq<StaffId>, order: seq<StaffId>, id: StaffId, staff: Staff)
    requires AreAffairs(list, order, staff) && id !in order
    ensures AreAffairs(if IsAffairs(id, staff) then list + [id] else list, order + [id], staff)
  {}

  method ListPerson(
    byDept: map<DeptId, seq<CareRow>>, sa: seq<CareRow>, row: CareRow, staff: Staff,
    ghost order: seq<StaffId>, ghost pairs: seq<Pair>, ghost depts: seq<DeptId>)
    returns (byDept': map<DeptId, seq<CareRow>>, sa': seq<CareRow>)
    requires AreListed(byDept, sa, order, pairs, staff, depts)
    requires row.id !in order && row.id in staff && (staff[row.id].isSa || staff[row.id].dept.Some?)
    requires IsRowOf(row, pairs, staff, depts)
    ensures AreListed(byDept', sa', order + [row.id], pairs, staff, depts)
  {
    byDept', sa' := byDept, sa;
    if staff[row.id].isSa {
      sa' := sa + [row];
      IdsSnoc(sa, row);
    } else {
      var dept := staff[row.id].dept.value;
      IdsSnoc(RowsFor(byDept, dept), row);
      byDept' := byDept[dept := RowsFor(byDept, dept) + [row]];
    }
    hide AreLecturers, AreAffairs, IsRowOf, IdsOf;
    AffairsListed(IdsOf(sa), order, row.id, staff);
    forall d: nat
      ensures AreLecturers(IdsOf(RowsFor(byDept', d)), order + [row.id], d, staff)
      ensures AreRowsOf(RowsFor(byDept', d), pairs, staff, depts)
    {
      LecturerListed(IdsOf(RowsFor(byDept, d)), order, row.id, d, staff);
    }
  }

  lemma NobodyListed(pairs: seq<Pair>, staff: Staff, depts: seq<DeptId>)
    ensures AreListed(map[], [], [], pairs, staff, depts)
  {}

  lemma WriterIsCounted(order: seq<StaffId>, pairs: seq<Pair>, staff: Staff, depts: seq<DeptId>, k: nat)
    requires IsOrder(order, pairs, staff, depts) && k < |order|
    ensures order[k] in staff && IsCountedPerson(staff[order[k]], depts) && order[k] !in order[..k]
  {
    assert order[k] in order;
    assert HasWritten(pairs, order[k], staff, depts);
  }

  method ListPeople(t: Totals, pairs: seq<Pair>, staff: Staff, depts: seq<DeptId>)
    returns (byDept: map<DeptId, seq<CareRow>>, sa: seq<CareRow>)
    requires IsTallied(t, pairs, staff, depts)
    ensures AreListed(byDept, sa, t.staffOrder, pairs, staff, depts)
  {
    hide AreListed, TallyOf, HasWritten;
    byDept, sa := map[], [];
    NobodyListed(pairs, staff, depts);
    var order := t.staffOrder;
    for k := 0 to |order|
      invariant AreListed(byDept, sa, order[..k], pairs, staff, depts)
    {
      WriterIsCounted(order, pairs, staff, depts, k);
      assert order[..k + 1] == order[..k] + [order[k]];
      var tally := Find(t.perStaff, order[k]);
      var row := CareRow(order[k], tally.logs, |tally.students|);
      byDept, sa := ListPerson(byDept, sa, row, staff, order[..k], pairs, depts);
    }
    assert order[..|order|] == order;
  }

  /** The row of a group: its own tally, which its people add up to. */
  ghost predicate IsBalanced(
    row: GroupRow, group: Group, pairs: seq<Pair>, staff: Staff, depts: seq<DeptId>)
  {
    && row.careLogs == TallyOf(pairs, group, staff, depts).logs == SumOfLogs(row.people)
    && row.caredStudents == |TallyOf(pairs, group, staff, depts).students| <= SumOfStudents(row.people)
    && AreRowsOf(row.people, pairs, staff, depts) && IsDistinct(IdsOf(row.people))
  }

  lemma DepartmentBalances(
    pairs: seq<Pair>, order: seq<StaffId>, rows: seq<CareRow>, dept: DeptId, staff: Staff, depts: seq<DeptId>)
    requires IsOrder(order, pairs, staff, depts)
    requires AreLecturers(IdsOf(rows), order, dept, staff) && AreRowsOf(rows, pairs, staff, depts)
    ensures var t := TallyOf(pairs, OfDepartment(dept), staff, depts);
            IsBalanced(GroupRow(Some(dept), t.logs, |t.students|, rows), OfDepartment(dept), pairs, staff, depts)
  {
    DepartmentIsItsLecturers(pairs, order, IdsOf(rows), dept, staff, depts);
    hide TallyOf, IsOrder;
    RowsAddUp(rows, pairs, staff, depts);
  }

  lemma AffairsBalance(
    pairs: seq<Pair>, order: seq<StaffId>, rows: seq<CareRow>, staff: Staff, depts: seq<DeptId>)
    requires IsOrder(order, pairs, staff, depts)
    requires AreAffairs(IdsOf(rows), order, staff) && AreRowsOf(rows, pairs, staff, depts)
    ensures var t := TallyOf(pairs, StudentAffairs, staff, depts);
            IsBalanced(GroupRow(None, t.logs, |t.students|, rows), StudentAffairs, pairs, staff, depts)
  {
    AffairsAreTheirStaff(pairs, order, IdsOf(rows), staff, depts);
    hide TallyOf, IsOrder;
    RowsAddUp(rows, pairs, staff, depts);
  }

  /** Who is in a list: the counted writers of the department, or of student affairs. */
  ghost predicate ListsWriters(row: GroupRow, pairs: seq<Pair>, staff: Staff, depts: seq<DeptId>) {
    forall id: nat :: id in IdsOf(row.people)
      <==> HasWritten(pairs, id, staff, depts)
           && if row.dept.None? then IsAffairs(id, staff) else IsLecturerOf(id, row.dept.value, staff)
  }

  ghost predicate IsDepartmentRow(row: GroupRow, dept: DeptId, pairs: seq<Pair>, staff: Staff, depts: seq<DeptId>) {
    && row.dept == Some(dept) && IsBalanced(row, OfDepartment(dept), pairs, staff, depts)
    && ListsWriters(row, pairs, staff, depts)
  }

  method DepartmentRow(
    t: Totals, byDept: map<DeptId, seq<CareRow>>, dept: DeptId, staff: Staff, ghost sa: seq<CareRow>,
    ghost pairs: seq<Pair>, ghost depts: seq<DeptId>)
    returns (row: GroupRow)
    requires IsTallied(t, pairs, staff, depts) && AreListed(byDept, sa, t.staffOrder, pairs, staff, depts)
    ensures IsDepartmentRow(row, dept, pairs, staff, depts)
    ensures row.careLogs == TallyOf(pairs, OfDepartment(dept), staff, depts).logs
  {
    var tally := Find(t.perDept, dept);
    row := GroupRow(Some(dept), tally.logs, |tally.students|, RowsFor(byDept, dept));
    DepartmentBalances(pairs, t.staffOrder, RowsFor(byDept, dept), dept, staff, depts);
    hide TallyOf, IsBalanced, HasWritten, IdsOf;
  }

  method DepartmentRows(
    t: Totals, byDept: map<DeptId, seq<CareRow>>, staff: Staff, depts: seq<DeptId>, ghost sa: seq<CareRow>,
    ghost pairs: seq<Pair>)
    returns (rows: seq<GroupRow>)
    requires IsTallied(t, pairs, staff, depts) && AreListed(byDept, sa, t.staffOrder, pairs, staff, depts)
    ensures |rows| == |depts|
    ensures forall k :: 0 <= k < |depts| ==> IsDepartmentRow(rows[k], depts[k], pairs, staff, depts)
    ensures SumOfDepartments(rows) == DepartmentLogs(pairs, depts, staff, depts)
  {
    hide TallyOf, IsTallied, AreListed, IsDepartmentRow;
    rows := [];
    for k := 0 to |depts|
      invariant |rows| == k
      invariant forall j :: 0 <= j < k ==> IsDepartmentRow(rows[j], depts[j], pairs, staff, depts)
      invariant SumOfDepartments(rows) == DepartmentLogs(pairs, depts[..k], staff, depts)
    {
      var row := DepartmentRow(t, byDept, depts[k], staff, sa, pairs, depts);
      assert (rows + [row])[..k] == rows && depts[..k + 1][..k] == depts[..k];
      rows := rows + [row];
    }
    assert depts[..|depts|] == depts;
  }

  method BuildCareOverview(pairs: seq<Pair>, staff: Staff, depts: seq<DeptId>) returns (o: Overview)
    requires IsDistinct(depts)
    ensures |o.departments| == |depts|
    ensures forall k :: 0 <= k < |depts| ==> IsDepartmentRow(o.departments[k], depts[k], pairs, staff, depts)
    ensures o.sa.dept == None && IsBalanced(o.sa, StudentAffairs, pairs, staff, depts)
    ensures ListsWriters(o.sa, pairs, staff, depts)
    ensures SumOfDepartments(o.departments) + o.sa.careLogs == TallyOf(pairs, Everyone, staff, depts).logs
  {
    var t := TallyPairs(pairs, staff, depts);
    var byDept, saRows := ListPeople(t, pairs, staff, depts);
    var rows := DepartmentRows(t, byDept, staff, depts, saRows, pairs);
    AllIsDepartmentsAndAffairs(pairs, staff, depts);
    AffairsBalance(pairs, t.staffOrder, saRows, staff, depts);
    hide TallyOf, IsDepartmentRow, IsBalanced, HasWritten, IsAffairs, SumOfDepartments;
    o := Overview(rows, GroupRow(None, t.sa.logs, |t.sa.students|, saRows));
  }

  /** Everyone counted is in the list of student affairs or in that of one department, and in no other. */
  lemma EveryoneIsInOneList(o: Overview, pairs: seq<Pair>, staff: Staff, depts: seq<DeptId>, id: StaffId)
    requires IsDistinct(depts) && |o.departments| == |depts| && HasWritten(pairs, id, staff, depts)
    requires forall k :: 0 <= k < |depts| ==> IsDepartmentRow(o.departments[k], depts[k], pairs, staff, depts)
    requires o.sa.dept == None && ListsWriters(o.sa, pairs, staff, depts)
    ensures id in staff && (id in IdsOf(o.sa.people) <==> staff[id].isSa)
    ensures staff[id].isSa ==> forall k :: 0 <= k < |depts| ==> id !in IdsOf(o.departments[k].people)
    ensures !staff[id].isSa ==>
              staff[id].dept.Some? && staff[id].dept.value in depts &&
              forall k :: 0 <= k < |depts| ==>
                (id in IdsOf(o.departments[k].people) <==> depts[k] == staff[id].dept.value)
  {
    hide IsBalanced, IdsOf;
    forall k | 0 <= k < |depts|
      ensures id in IdsOf(o.departments[k].people) <==> IsLecturerOf(id, depts[k], staff)
    {
      assert IsDepartmentRow(o.departments[k], depts[k], pairs, staff, depts);
    }
  }
}
