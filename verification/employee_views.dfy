/** The read endpoints of the employee API: the list in default order, one
    employee, and the dashboard summary with its per-department counts. */
module EmployeeViews {
  import opened Outcomes
  import opened Text
  import opened Seqs
  import opened Records
  import opened EmployeeSerializer

  /** The serializer applied to a queryset, in order. */
  function ToViews(es: seq<Employee>, rs: seq<Attendance>): (vs: seq<EmployeeView>)
    ensures |vs| == |es|
    ensures forall i :: 0 <= i < |es| ==> vs[i] == ToView(es[i], rs)
  {
    seq(|es|, i requires 0 <= i < |es| => ToView(es[i], rs))
  }

  /** GET /employees/: every employee, ordered by full name, with the
      count. */
  function ListEmployees(es: seq<Employee>, rs: seq<Attendance>): (resp: Response)
    ensures resp.status == HTTP_200_OK && resp.payload.EmployeeList?
    ensures resp.payload.count == |resp.payload.employees| == |es|
    ensures resp.payload.employees == ToViews(SortByName(es), rs)
  {
    var ordered := SortByName(es);
    Response(HTTP_200_OK, EmployeeList(|es|, ToViews(ordered, rs)))
  }

  /** The list holds every employee exactly once, ordered by full name. */
  lemma ListEmployeesOrderedAndComplete(es: seq<Employee>, rs: seq<Attendance>)
    ensures var listed := SortByName(es);
            && multiset(listed) == multiset(es)
            && (forall i, j :: 0 <= i < j < |listed| ==> LexLe(listed[i].fullName, listed[j].fullName))
            && ListEmployees(es, rs).payload.employees == ToViews(listed, rs)
  {
    SortByNameSorted(es);
  }

  /** GET /employees/<pk>/: the employee, or 404. */
  function GetEmployee(es: seq<Employee>, rs: seq<Attendance>, pk: Pk): (resp: Response)
    ensures !HasEmployee(es, pk) ==> resp == NotFound
    ensures HasEmployee(es, pk) ==>
              && resp.status == HTTP_200_OK && resp.payload.EmployeeBody?
              && resp.payload.employee.id == pk
              && exists i :: 0 <= i < |es| && es[i].pk == pk && resp.payload.employee == ToView(es[i], rs)
  {
    match FindEmployee(es, pk)
    case None => NotFound
    case Some(e) => Response(HTTP_200_OK, EmployeeBody(ToView(e, rs)))
  }

  // ---------------------------------------------------------------------
  // Dashboard: counts and the department breakdown
  // ---------------------------------------------------------------------

  /** The number of employees in department `d` (Count('id') for that
      group). */
  function DeptSize(es: seq<Employee>, d: string): nat
    decreases |es|
  {
    if es == [] then 0
    else DeptSize(es[..|es| - 1], d) + (if es[|es| - 1].department == d then 1 else 0)
  }

  /** The count recorded for `d` in a breakdown, 0 when it has no entry. */
  function CountIn(ds: seq<DeptCount>, d: string): nat
    decreases |ds|
  {
    if ds == [] then 0
    else if ds[0].department == d then ds[0].count
    else CountIn(ds[1..], d)
  }

  function Total(ds: seq<DeptCount>): nat
    decreases |ds|
  {
    if ds == [] then 0 else ds[0].count + Total(ds[1..])
  }

  /** Entries in strictly ascending department order (so each department
      has one entry), every count positive. */
  predicate GoodBreakdown(ds: seq<DeptCount>) {
    && (forall i, j :: 0 <= i < j < |ds| ==> LexLess(ds[i].department, ds[j].department))
    && (forall i :: 0 <= i < |ds| ==> ds[i].count > 0)
  }

  /** Counts one more employee of department `d` into a breakdown kept in
      department order. */
  function AddDept(ds: seq<DeptCount>, d: string): (r: seq<DeptCount>)
    decreases |ds|
  {
    if ds == [] then [DeptCount(d, 1)]
    else if ds[0].department == d then [DeptCount(d, ds[0].count + 1)] + ds[1..]
    else if LexLess(d, ds[0].department) then [DeptCount(d, 1)] + ds
    else [ds[0]] + AddDept(ds[1..], d)
  }

  /** values('department').annotate(count=Count('id')).order_by('department') */
  function GroupByDepartment(es: seq<Employee>): (ds: seq<DeptCount>)
    ensures GoodBreakdown(ds)
    ensures Total(ds) == |es|
    decreases |es|
  {
    if es == [] then []
    else
      var init := GroupByDepartment(es[..|es| - 1]);
      var last := es[|es| - 1].department;
      AddDeptGood(init, last);
      AddDeptCounts(init, last, last);
      AddDept(init, last)
  }

  /** Every entry of AddDept's result is an entry of the input or the entry
      of `d`. */
  lemma {:induction false} AddDeptEntries(ds: seq<DeptCount>, d: string)
    ensures forall k :: 0 <= k < |AddDept(ds, d)| ==>
              AddDept(ds, d)[k].department == d || AddDept(ds, d)[k] in ds
    decreases |ds|
  {
    if ds != [] && ds[0].department != d && !LexLess(d, ds[0].department) {
      AddDeptEntries(ds[1..], d);
      var r := AddDept(ds, d);
      forall k | 0 <= k < |r| ensures r[k].department == d || r[k] in ds {
        if k > 0 {
          assert r[k] == AddDept(ds[1..], d)[k - 1];
        }
      }
    }
  }

  /** An entry placed in front of a good breakdown whose departments all
      come after it keeps it good. */
  lemma ConsGood(x: DeptCount, tail: seq<DeptCount>)
    requires GoodBreakdown(tail) && x.count > 0
    requires forall k :: 0 <= k < |tail| ==> LexLess(x.department, tail[k].department)
    ensures GoodBreakdown([x] + tail)
  {
    var r := [x] + tail;
    forall i, j | 0 <= i < j < |r| ensures LexLess(r[i].department, r[j].department) {
      if i == 0 {
        assert r[j] == tail[j - 1];
      } else {
        assert r[i] == tail[i - 1] && r[j] == tail[j - 1];
      }
    }
  }

  lemma {:induction false} AddDeptGood(ds: seq<DeptCount>, d: string)
    requires GoodBreakdown(ds)
    ensures GoodBreakdown(AddDept(ds, d))
    decreases |ds|
  {
    if ds == [] {
    } else if ds[0].department == d {
      assert AddDept(ds, d)[1..] == ds[1..];
    } else if LexLess(d, ds[0].department) {
      forall k | 0 <= k < |ds| ensures LexLess(d, ds[k].department) {
        if k > 0 {
          LexLessTransitive(d, ds[0].department, ds[k].department);
        }
      }
      ConsGood(DeptCount(d, 1), ds);
    } else {
      LexLessTotal(d, ds[0].department);
      AddDeptGood(ds[1..], d);
      AddDeptEntries(ds[1..], d);
      var tail := AddDept(ds[1..], d);
      forall k | 0 <= k < |tail| ensures LexLess(ds[0].department, tail[k].department) {
        if tail[k].department != d {
          var m :| 0 <= m < |ds[1..]| && ds[1..][m] == tail[k];
          assert ds[m + 1] == tail[k];
        }
      }
      ConsGood(ds[0], tail);
    }
  }

  /** A department that sorts before the first entry of a good breakdown
      has no entry in it. */
  lemma {:induction false} CountInAfter(ds: seq<DeptCount>, x: string)
    requires GoodBreakdown(ds) && ds != [] && LexLess(x, ds[0].department)
    ensures CountIn(ds, x) == 0
    decreases |ds|
  {
    LexLessIrreflexive(x);
    if |ds| > 1 {
      LexLessTransitive(x, ds[0].department, ds[1].department);
      CountInAfter(ds[1..], x);
    }
  }

  lemma {:induction false} AddDeptCounts(ds: seq<DeptCount>, d: string, x: string)
    requires GoodBreakdown(ds)
    ensures CountIn(AddDept(ds, d), x) == CountIn(ds, x) + (if x == d then 1 else 0)
    ensures Total(AddDept(ds, d)) == Total(ds) + 1
    decreases |ds|
  {
    if ds == [] {
    } else if ds[0].department == d {
      assert AddDept(ds, d)[1..] == ds[1..];
    } else if LexLess(d, ds[0].department) {
      if x == d {
        CountInAfter(ds, x);
      }
    } else {
      AddDeptCounts(ds[1..], d, x);
    }
  }

  /** The department breakdown: in ascending department order, one entry per
      department, each count the number of employees in it, and the counts
      summing to the number of employees. */
  lemma {:induction false} GroupByDepartmentCorrect(es: seq<Employee>)
    ensures GoodBreakdown(GroupByDepartment(es))
    ensures forall d :: CountIn(GroupByDepartment(es), d) == DeptSize(es, d)
    ensures Total(GroupByDepartment(es)) == |es|
    decreases |es|
  {
    if es != [] {
      var init := es[..|es| - 1];
      var last := es[|es| - 1].department;
      GroupByDepartmentCorrect(init);
      AddDeptGood(GroupByDepartment(init), last);
      forall d ensures CountIn(GroupByDepartment(es), d) == DeptSize(es, d) {
        AddDeptCounts(GroupByDepartment(init), last, d);
      }
      AddDeptCounts(GroupByDepartment(init), last, last);
    }
  }

  /** A department has an entry exactly when someone works in it. */
  lemma {:induction false} CountInListed(ds: seq<DeptCount>, d: string)
    requires GoodBreakdown(ds)
    ensures CountIn(ds, d) > 0 <==> exists i :: 0 <= i < |ds| && ds[i].department == d
    decreases |ds|
  {
    if ds != [] && ds[0].department != d {
      CountInListed(ds[1..], d);
      if exists i :: 0 <= i < |ds[1..]| && ds[1..][i].department == d {
        var i :| 0 <= i < |ds[1..]| && ds[1..][i].department == d;
        assert ds[i + 1].department == d;
      }
      if exists i :: 0 <= i < |ds| && ds[i].department == d {
        var i :| 0 <= i < |ds| && ds[i].department == d;
        assert ds[1..][i - 1].department == d;
      }
    }
  }

  predicate DatedWith(r: Attendance, today: Date, status: string) {
    r.date == today && r.status == status
  }

  function PresentOn(today: Date): Attendance -> bool {
    (r: Attendance) => DatedWith(r, today, PRESENT)
  }

  function AbsentOn(today: Date): Attendance -> bool {
    (r: Attendance) => DatedWith(r, today, ABSENT)
  }

  /** GET /dashboard/: the employee count, today's Present and Absent
      counts, and the department breakdown. `today` is the server's
      current date. */
  function Dashboard(es: seq<Employee>, rs: seq<Attendance>, today: Date): (resp: Response)
    ensures resp.status == HTTP_200_OK && resp.payload.SummaryBody?
    ensures resp.payload.summary.totalEmployees == |es|
    ensures resp.payload.summary.totalPresentToday == |Filter(rs, PresentOn(today))|
    ensures resp.payload.summary.totalAbsentToday == |Filter(rs, AbsentOn(today))|
    ensures resp.payload.summary.totalPresentToday + resp.payload.summary.totalAbsentToday <= |rs|
    ensures resp.payload.summary.departments == GroupByDepartment(es)
  {
    FilterDisjoint(rs, PresentOn(today), AbsentOn(today));
    Response(HTTP_200_OK, SummaryBody(DashboardSummary(
      |es|, |Filter(rs, PresentOn(today))|, |Filter(rs, AbsentOn(today))|, GroupByDepartment(es))))
  }

  /** The breakdown in the dashboard reply lists each department once, in
      order, with its head count, and the counts add up to the employee
      count. */
  lemma DashboardDepartments(es: seq<Employee>, rs: seq<Attendance>, today: Date)
    ensures var s := Dashboard(es, rs, today).payload.summary;
            && GoodBreakdown(s.departments)
            && (forall d :: CountIn(s.departments, d) == DeptSize(es, d))
            && Total(s.departments) == s.totalEmployees
  {
    GroupByDepartmentCorrect(es);
  }
}
