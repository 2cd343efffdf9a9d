/**
 The care of a term by department, by person and by student affairs
 (apps/api/src/modules/statistics/care-overview.service.ts:18-71, 163-257).  The order of the rows on screen
 and the count of warned students are not modelled.
 */
module CareOverview {
  import opened Options

  type StaffId = nat
  type StudentId = nat
  type DeptId = nat

  datatype Person = Person(dept: Option<DeptId>, isSa: bool)

  /** How many care logs one person wrote about one student. */
  datatype Pair = Pair(staff: StaffId, student: StudentId, logs: nat)

  datatype Tally = Tally(logs: nat, students: set<StudentId>)

  type Staff = map<StaffId, Person>

  // ---- Which pairs count, and where ----

  predicate IsCountedPerson(p: Person, depts: seq<DeptId>) {
    p.isSa || (p.dept.Some? && p.dept.value in depts)
  }

  datatype Group =
    | Everyone
    | StudentAffairs
    | OfPerson(staff: StaffId)
    | OfDepartment(dept: DeptId)
    | OfPeople(people: seq<StaffId>)
    | OfDepartments(list: seq<DeptId>)

  predicate IsIn(pair: Pair, group: Group, staff: Staff, depts: seq<DeptId>) {
    && pair.staff in staff && IsCountedPerson(staff[pair.staff], depts)
    && var p := staff[pair.staff];
       match group
       case Everyone => true
       case StudentAffairs => p.isSa
       case OfPerson(id) => pair.staff == id
       case OfDepartment(dept) => !p.isSa && p.dept == Some(dept)
       case OfPeople(people) => pair.staff in people
       case OfDepartments(list) => !p.isSa && p.dept.Some? && p.dept.value in list
  }

  function Plus(t: Tally, pair: Pair): Tally {
    Tally(t.logs + pair.logs, t.students + {pair.student})
  }

  /** The counted pairs of a group: their logs, and the students they are about. */
  function TallyOf(pairs: seq<Pair>, group: Group, staff: Staff, depts: seq<DeptId>): Tally {
    if pairs == [] then Tally(0, {})
    else
      var front, last := TallyOf(pairs[..|pairs| - 1], group, staff, depts), pairs[|pairs| - 1];
      if IsIn(last, group, staff, depts) then Plus(front, last) else front
  }

  lemma TallySnoc(pairs: seq<Pair>, pair: Pair, group: Group, staff: Staff, depts: seq<DeptId>)
    ensures TallyOf(pairs + [pair], group, staff, depts)
         == if IsIn(pair, group, staff, depts) then Plus(TallyOf(pairs, group, staff, depts), pair)
            else TallyOf(pairs, group, staff, depts)
  {
    assert (pairs + [pair])[..|pairs|] == pairs;
  }

  // ---- The loop over the pairs ----

  function Find(m: map<nat, Tally>, key: nat): Tally {
    if key in m then m[key] else Tally(0, {})
  }

  /** What the loop has gathered; the keys of a map stay in the order in which they came. */
  datatype Totals = Totals(
    perStaff: map<StaffId, Tally>, staffOrder: seq<StaffId>, perDept: map<DeptId, Tally>, sa: Tally)

  predicate HasWritten(pairs: seq<Pair>, id: StaffId, staff: Staff, depts: seq<DeptId>) {
    exists k :: 0 <= k < |pairs| && IsIn(pairs[k], OfPerson(id), staff, depts)
  }

  predicate IsDistinct(ids: seq<nat>) {
    forall j, k :: 0 <= j < k < |ids| ==> ids[j] != ids[k]
  }

  ghost predicate IsOrder(order: seq<StaffId>, pairs: seq<Pair>, staff: Staff, depts: seq<DeptId>) {
    IsDistinct(order) && forall id: nat :: id in order <==> HasWritten(pairs, id, staff, depts)
  }

  ghost predicate IsTallied(t: Totals, pairs: seq<Pair>, staff: Staff, depts: seq<DeptId>) {
    && (forall id: nat :: Find(t.perStaff, id) == TallyOf(pairs, OfPerson(id), staff, depts))
    && (forall dept: nat :: Find(t.perDept, dept) == TallyOf(pairs, OfDepartment(dept), staff, depts))
    && t.sa == TallyOf(pairs, StudentAffairs, staff, depts)
    && (forall id: nat :: id in t.perStaff <==> id in t.staffOrder)
    && IsOrder(t.staffOrder, pairs, staff, depts)
  }

  function AddTo(target: map<nat, Tally>, key: nat, pair: Pair): map<nat, Tally> {
    target[key := Plus(Find(target, key), pair)]
  }

  lemma WrittenSnoc(pairs: seq<Pair>, pair: Pair, id: StaffId, staff: Staff, depts: seq<DeptId>)
    ensures HasWritten(pairs + [pair], id, staff, depts)
       <==> HasWritten(pairs, id, staff, depts) || IsIn(pair, OfPerson(id), staff, depts)
  {
    var longer := pairs + [pair];
    if HasWritten(pairs, id, staff, depts) {
      var k :| 0 <= k < |pairs| && IsIn(pairs[k], OfPerson(id), staff, depts);
      assert longer[k] == pairs[k];
    }
    assert longer[|pairs|] == pair;
  }

  lemma OrderGrows(order: seq<StaffId>, pairs: seq<Pair>, pair: Pair, staff: Staff, depts: seq<DeptId>)
    requires IsOrder(order, pairs, staff, depts) && IsIn(pair, Everyone, staff, depts)
    ensures IsOrder(if pair.staff in order then order else order + [pair.staff], pairs + [pair], staff, depts)
  {
    forall id: nat
      ensures HasWritten(pairs + [pair], id, staff, depts)
         <==> HasWritten(pairs, id, staff, depts) || id == pair.staff
    {
      WrittenSnoc(pairs, pair, id, staff, depts);
    }
  }

  lemma OrderStays(order: seq<StaffId>, pairs: seq<Pair>, pair: Pair, staff: Staff, depts: seq<DeptId>)
    requires IsOrder(order, pairs, staff, depts) && !IsIn(pair, Everyone, staff, depts)
    ensures IsOrder(order, pairs + [pair], staff, depts)
  {
    forall id: nat
      ensures HasWritten(pairs + [pair], id, staff, depts) <==> HasWritten(pairs, id, staff, depts)
    {
      WrittenSnoc(pairs, pair, id, staff, depts);
    }
  }

  lemma PersonTallies(m: map<nat, Tally>, pairs: seq<Pair>, pair: Pair, staff: Staff, depts: seq<DeptId>)
    requires forall id: nat :: Find(m, id) == TallyOf(pairs, OfPerson(id), staff, depts)
    ensures var m' := if IsIn(pair, Everyone, staff, depts) then AddTo(m, pair.staff, pair) else m;
            forall id: nat :: Find(m', id) == TallyOf(pairs + [pair], OfPerson(id), staff, depts)
  {
    var m' := if IsIn(pair, Everyone, staff, depts) then AddTo(m, pair.staff, pair) else m;
    forall id: nat
      ensures Find(m', id) == TallyOf(pairs + [pair], OfPerson(id), staff, depts)
    {
      TallySnoc(pairs, pair, OfPerson(id), staff, depts);
    }
  }

  lemma DepartmentTallies(m: map<nat, Tally>, pairs: seq<Pair>, pair: Pair, staff: Staff, depts: seq<DeptId>)
    requires forall dept: nat :: Find(m, dept) == TallyOf(pairs, OfDepartment(dept), staff, depts)
    ensures var m' := if IsIn(pair, Everyone, staff, depts) && !staff[pair.staff].isSa
                      then AddTo(m, staff[pair.staff].dept.value, pair) else m;
            forall dept: nat :: Find(m', dept) == TallyOf(pairs + [pair], OfDepartment(dept), staff, depts)
  {
    var m' := if IsIn(pair, Everyone, staff, depts) && !staff[pair.staff].isSa
              then AddTo(m, staff[pair.staff].dept.value, pair) else m;
    forall dept: nat
      ensures Find(m', dept) == TallyOf(pairs + [pair], OfDepartment(dept), staff, depts)
    {
      TallySnoc(pairs, pair, OfDepartment(dept), staff, depts);
    }
  }

  method AddPair(t: Totals, pair: Pair, staff: Staff, depts: seq<DeptId>, ghost before: seq<Pair>) returns (t': Totals)
    requires IsTallied(t, before, staff, depts)
    ensures IsTallied(t', before + [pair], staff, depts)
  {
    hide TallyOf, IsOrder;
    PersonTallies(t.perStaff, before, pair, staff, depts);
    DepartmentTallies(t.perDept, before, pair, staff, depts);
    TallySnoc(before, pair, StudentAffairs, staff, depts);
    t' := t;
    if pair.staff !in staff {
      OrderStays(t.staffOrder, before, pair, staff, depts);
      return;
    }
    var person := staff[pair.staff];
    if !person.isSa && !(person.dept.Some? && person.dept.value in depts) {
      OrderStays(t.staffOrder, before, pair, staff, depts);
      return;
    }
    OrderGrows(t.staffOrder, before, pair, staff, depts);
    var order := if pair.staff in t.staffOrder then t.staffOrder else t.staffOrder + [pair.staff];
    t' := t'.(perStaff := AddTo(t.perStaff, pair.staff, pair), staffOrder := order);
    if person.isSa {
      t' := t'.(sa := Plus(t.sa, pair));
    } else {
      t' := t'.(perDept := AddTo(t.perDept, person.dept.value, pair));
    }
  }

  lemma NothingTallied(staff: Staff, depts: seq<DeptId>)
    ensures IsTallied(Totals(map[], [], map[], Tally(0, {})), [], staff, depts)
  {}

  method TallyPairs(pairs: seq<Pair>, staff: Staff, depts: seq<DeptId>) returns (t: Totals)
    ensures IsTallied(t, pairs, staff, depts)
  {
    hide IsTallied;
    t := Totals(map[], [], map[], Tally(0, {}));
    NothingTallied(staff, depts);
    for k := 0 to |pairs|
      invariant IsTallied(t, pairs[..k], staff, depts)
    {
      assert pairs[..k + 1] == pairs[..k] + [pairs[k]];
      t := AddPair(t, pairs[k], staff, depts, pairs[..k]);
    }
    assert pairs[..|pairs|] == pairs;
  }
}
