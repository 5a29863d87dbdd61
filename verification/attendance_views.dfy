/** The read endpoints of the attendance API: the list with its optional
    filters, and one employee's records within an optional date range with
    present and absent totals. */
module AttendanceViews {
  import opened Outcomes
  import opened Text
  import opened Seqs
  import opened Records
  import opened AttendanceSerializer

  /** request.query_params.get(key) used as a condition: a missing key and an
      empty value both mean "no filter". */
  function Param(q: Query, key: string): (r: Option<string>)
    ensures r.Some? <==> key in q && q[key] != ""
    ensures r.Some? ==> r.value == q[key]
  {
    if key in q && q[key] != "" then Some(q[key]) else None
  }

  /** A filter on the date column: the value is converted as the column
      converts it (parse_date), and one it cannot read raises (Err names the
      parameter). */
  function DateParam(q: Query, key: string): (r: Result<Option<Date>, string>)
    ensures r.Ok? && r.value.Some? ==> IsIsoDate(r.value.value)
    ensures Param(q, key).None? ==> r == Ok(None)
    ensures Param(q, key).Some? ==> (r.Ok? <==> ParseDate(q[key]).Some?)
    ensures Param(q, key).Some? && r.Ok? ==> r.value == ParseDate(q[key])
    ensures r.Err? ==> r.error == key
  {
    match Param(q, key)
    case None => Ok(None)
    case Some(v) =>
      match ParseDate(v)
      case None => Err(key)
      case Some(d) => Ok(Some(d))
  }

  /** A filter on the employee key: the value is converted with int(), and
      one it cannot read raises. */
  function PkParam(q: Query, key: string): (r: Result<Option<int>, string>)
    ensures Param(q, key).None? ==> r == Ok(None)
    ensures Param(q, key).Some? ==> (r.Ok? <==> PyInt(q[key]).Some?)
    ensures Param(q, key).Some? && r.Ok? ==> r.value == PyInt(q[key])
    ensures r.Err? ==> r.error == key
  {
    match Param(q, key)
    case None => Ok(None)
    case Some(v) =>
      match PyInt(v)
      case None => Err(key)
      case Some(n) => Ok(Some(n))
  }

  /** The filters of a query, each None when not supplied. */
  datatype Criteria = Criteria(
    employee: Option<int>,
    date: Option<Date>,
    startDate: Option<Date>,
    endDate: Option<Date>,
    status: Option<string>)

  const NoCriteria: Criteria := Criteria(None, None, None, None, None)

  function EmployeeIs(pk: Option<int>): Attendance -> bool {
    (r: Attendance) => pk.None? || r.employee == pk.value
  }

  function DateIs(d: Option<Date>): Attendance -> bool {
    (r: Attendance) => d.None? || r.date == d.value
  }

  /** date__gte: ISO dates compare as strings in calendar order. */
  function OnOrAfter(d: Option<Date>): Attendance -> bool {
    (r: Attendance) => d.None? || LexLe(d.value, r.date)
  }

  /** date__lte */
  function OnOrBefore(d: Option<Date>): Attendance -> bool {
    (r: Attendance) => d.None? || LexLe(r.date, d.value)
  }

  function StatusIs(s: Option<string>): Attendance -> bool {
    (r: Attendance) => s.None? || r.status == s.value
  }

  /** The reference meaning of a query: a record matches when it satisfies
      every supplied filter. */
  predicate Matches(c: Criteria, r: Attendance) {
    && (c.employee.None? || r.employee == c.employee.value)
    && (c.date.None? || r.date == c.date.value)
    && (c.startDate.None? || LexLe(c.startDate.value, r.date))
    && (c.endDate.None? || LexLe(r.date, c.endDate.value))
    && (c.status.None? || r.status == c.status.value)
  }

  function MatchesAll(c: Criteria): Attendance -> bool {
    r => Matches(c, r)
  }

  /** The view's chain of `if param: qs = qs.filter(...)`; it selects, in
      table order, exactly the records that match every supplied filter. */
  function FilterChain(rs: seq<Attendance>, c: Criteria): (r: seq<Attendance>)
    ensures r == Filter(rs, MatchesAll(c))
  {
    var qs1 := Narrow(rs, c.employee.Some?, EmployeeIs(c.employee));
    var qs2 := Narrow(qs1, c.date.Some?, DateIs(c.date));
    var qs3 := Narrow(qs2, c.startDate.Some?, OnOrAfter(c.startDate));
    var qs4 := Narrow(qs3, c.endDate.Some?, OnOrBefore(c.endDate));
    var qs5 := Narrow(qs4, c.status.Some?, StatusIs(c.status));
    FilterChainMeaning(rs, c);
    qs5
  }

  /** The first `n` filters of the chain, as one predicate. */
  function Through(c: Criteria, n: nat): Attendance -> bool {
    (r: Attendance) =>
      && (n < 1 || EmployeeIs(c.employee)(r))
      && (n < 2 || DateIs(c.date)(r))
      && (n < 3 || OnOrAfter(c.startDate)(r))
      && (n < 4 || OnOrBefore(c.endDate)(r))
      && (n < 5 || StatusIs(c.status)(r))
  }

  lemma FilterChainMeaning(rs: seq<Attendance>, c: Criteria)
    ensures Narrow(Narrow(Narrow(Narrow(Narrow(rs,
              c.employee.Some?, EmployeeIs(c.employee)),
              c.date.Some?, DateIs(c.date)),
              c.startDate.Some?, OnOrAfter(c.startDate)),
              c.endDate.Some?, OnOrBefore(c.endDate)),
              c.status.Some?, StatusIs(c.status))
            == Filter(rs, MatchesAll(c))
  {
    FilterAll(rs, Through(c, 0));
    NarrowFilter(rs, Through(c, 0), c.employee.Some?, EmployeeIs(c.employee), Through(c, 1));
    NarrowFilter(rs, Through(c, 1), c.date.Some?, DateIs(c.date), Through(c, 2));
    NarrowFilter(rs, Through(c, 2), c.startDate.Some?, OnOrAfter(c.startDate), Through(c, 3));
    NarrowFilter(rs, Through(c, 3), c.endDate.Some?, OnOrBefore(c.endDate), Through(c, 4));
    NarrowFilter(rs, Through(c, 4), c.status.Some?, StatusIs(c.status), MatchesAll(c));
  }

  /** The filters of the list endpoint: each supplied one converted, the
      first that cannot be converted named in the error. */
  function ListCriteria(q: Query): (r: Result<Criteria, string>)
    ensures r.Ok? <==>
              && PkParam(q, "employee_id").Ok? && DateParam(q, "date").Ok?
              && DateParam(q, "start_date").Ok? && DateParam(q, "end_date").Ok?
    ensures r.Ok? ==>
              && r.value.employee == PkParam(q, "employee_id").value
              && r.value.date == DateParam(q, "date").value
              && r.value.startDate == DateParam(q, "start_date").value
              && r.value.endDate == DateParam(q, "end_date").value
              && r.value.status == Param(q, "status")
    ensures r.Err? ==> r.error in {"employee_id", "date", "start_date", "end_date"}
  {
    var employee := PkParam(q, "employee_id");
    var date := DateParam(q, "date");
    var start := DateParam(q, "start_date");
    var end := DateParam(q, "end_date");
    var status := Param(q, "status");
    if employee.Err? then Err(employee.error)
    else if date.Err? then Err(date.error)
    else if start.Err? then Err(start.error)
    else if end.Err? then Err(end.error)
    else Ok(Criteria(employee.value, date.value, start.value, end.value, status))
  }

  /** Every record in the table has its owner (the foreign key). */
  ghost predicate OwnersExist(es: seq<Employee>, rs: seq<Attendance>) {
    forall i :: 0 <= i < |rs| ==> HasEmployee(es, rs[i].employee)
  }

  /** GET /attendance/: the records matching every supplied filter, with
      their count. An ill-formed employee or date filter raises. */
  function ListAttendance(es: seq<Employee>, rs: seq<Attendance>, q: Query): (resp: Response)
    requires OwnersExist(es, rs)
    ensures resp.status == HTTP_200_OK ==>
              && resp.payload.AttendanceList?
              && resp.payload.count == |resp.payload.records|
              && ListCriteria(q).Ok?
              && resp.payload.records == ToViews(es, Filter(rs, MatchesAll(ListCriteria(q).value)))
    ensures resp.status != HTTP_200_OK ==> resp == ServerError && ListCriteria(q).Err?
  {
    match ListCriteria(q)
    case Err(_) => ServerError
    case Ok(c) =>
      var qs := FilterChain(rs, c);
      Response(HTTP_200_OK, AttendanceList(|qs|, ToViews(es, qs)))
  }

  /** The filtered records are exactly the table's records that match, in
      table order. */
  lemma FilterChainExact(rs: seq<Attendance>, c: Criteria)
    ensures forall i :: 0 <= i < |rs| ==> (rs[i] in FilterChain(rs, c) <==> Matches(c, rs[i]))
    ensures forall x :: x in FilterChain(rs, c) ==> x in rs && Matches(c, x)
    ensures SubsequenceOf(FilterChain(rs, c), rs)
  {
    var r := FilterChain(rs, c);
    forall x | x in r ensures x in rs && Matches(c, x) {
      var k :| 0 <= k < |r| && r[k] == x;
    }
    FilterIsSubsequence(rs, MatchesAll(c));
  }

  /** A query with no filter (keys missing or empty) returns the whole
      table. */
  lemma NoFilterListsAll(es: seq<Employee>, rs: seq<Attendance>, q: Query)
    requires OwnersExist(es, rs)
    requires forall key :: key in q ==> q[key] == ""
    ensures ListAttendance(es, rs, q) == Response(HTTP_200_OK, AttendanceList(|rs|, ToViews(es, rs)))
  {
    assert ListCriteria(q) == Ok(NoCriteria);
    FilterAll(rs, MatchesAll(NoCriteria));
  }

  /** A date filter parse_date cannot read is not caught: the request fails
      with a server error. */
  lemma BadFilterIsServerError(es: seq<Employee>, rs: seq<Attendance>, q: Query)
    requires OwnersExist(es, rs)
    requires "date" in q && q["date"] != "" && ParseDate(q["date"]).None?
    ensures ListAttendance(es, rs, q) == ServerError
  {
  }

  /** So does an employee filter int() cannot read. */
  lemma BadEmployeeFilterIsServerError(es: seq<Employee>, rs: seq<Attendance>, q: Query)
    requires OwnersExist(es, rs)
    requires "employee_id" in q && q["employee_id"] != "" && PyInt(q["employee_id"]).None?
    ensures ListAttendance(es, rs, q) == ServerError
  {
  }

  /** An employee filter written with a plus sign reads as its number. */
  lemma SignedEmployeeFilter(es: seq<Employee>, rs: seq<Attendance>, q: Query, n: nat)
    requires OwnersExist(es, rs)
    requires q == map["employee_id" := "+" + NatToString(n)]
    ensures ListAttendance(es, rs, q)
            == Response(HTTP_200_OK, AttendanceList(|Filter(rs, EmployeeIs(Some(n)))|, ToViews(es, Filter(rs, EmployeeIs(Some(n))))))
  {
    var c := Criteria(Some(n), None, None, None, None);
    SignedCriteria(q, n);
    FilterSame(rs, MatchesAll(c), EmployeeIs(Some(n)));
  }

  lemma SignedCriteria(q: Query, n: nat)
    requires q == map["employee_id" := "+" + NatToString(n)]
    ensures ListCriteria(q) == Ok(Criteria(Some(n), None, None, None, None))
  {
    SignedKey(q, n);
    OnlyEmployeeKey(q);
  }

  lemma SignedKey(q: Query, n: nat)
    requires q == map["employee_id" := "+" + NatToString(n)]
    ensures PkParam(q, "employee_id") == Ok(Some(n))
  {
    var t := NatToString(n);
    PyIntPlus(t);
    DigitsRoundTrip(n);
    assert q["employee_id"] == "+" + t;
  }

  lemma OnlyEmployeeKey(q: Query)
    requires q.Keys == {"employee_id"}
    ensures DateParam(q, "date") == Ok(None)
    ensures DateParam(q, "start_date") == Ok(None) && DateParam(q, "end_date") == Ok(None)
    ensures Param(q, "status") == None
  {
    assert "date" !in q && "start_date" !in q && "end_date" !in q && "status" !in q;
  }

  // ---------------------------------------------------------------------
  // One employee's attendance
  // ---------------------------------------------------------------------

  /** The filters of the per-employee endpoint: the owner, and the date
      range. */
  function RangeCriteria(pk: Pk, q: Query): (r: Result<Criteria, string>)
    ensures r.Ok? <==> DateParam(q, "start_date").Ok? && DateParam(q, "end_date").Ok?
    ensures r.Ok? ==> r.value == Criteria(Some(pk), None, DateParam(q, "start_date").value, DateParam(q, "end_date").value, None)
    ensures r.Err? ==> r.error in {"start_date", "end_date"}
  {
    var start := DateParam(q, "start_date");
    var end := DateParam(q, "end_date");
    if start.Err? then Err(start.error)
    else if end.Err? then Err(end.error)
    else Ok(Criteria(Some(pk), None, start.value, end.value, None))
  }

  /** The returned records marked `status`. */
  function ViewStatusIs(status: string): AttendanceView -> bool {
    (v: AttendanceView) => v.status == status
  }

  /** GET /employees/<pk>/attendance/: 404 for an unknown employee, a
      server error for a range bound parse_date cannot read; otherwise that
      employee's records in the range, with the employee's name, the number
      of them marked Present, the number marked Absent and the count. */
  function EmployeeAttendance(es: seq<Employee>, rs: seq<Attendance>, pk: Pk, q: Query): (resp: Response)
    requires OwnersExist(es, rs)
    ensures !HasEmployee(es, pk) ==> resp == NotFound
    ensures HasEmployee(es, pk) && RangeCriteria(pk, q).Err? ==> resp == ServerError
    ensures HasEmployee(es, pk) && RangeCriteria(pk, q).Ok? ==> resp.status == HTTP_200_OK
    ensures resp.status == HTTP_200_OK ==>
              && HasEmployee(es, pk)
              && resp.payload.EmployeeAttendanceBody?
              && resp.payload.data.employeeId == pk
              && (exists i :: 0 <= i < |es| && es[i].pk == pk && resp.payload.data.employeeName == es[i].fullName)
              && RangeCriteria(pk, q).Ok?
              && resp.payload.data.results == ToViews(es, FilterChain(rs, RangeCriteria(pk, q).value))
              && resp.payload.data.count == |resp.payload.data.results|
              && resp.payload.data.totalPresent == |Filter(resp.payload.data.results, ViewStatusIs(PRESENT))|
              && resp.payload.data.totalAbsent == |Filter(resp.payload.data.results, ViewStatusIs(ABSENT))|
  {
    match FindEmployee(es, pk)
    case None => NotFound
    case Some(e) =>
      match RangeCriteria(pk, q)
      case Err(_) => ServerError
      case Ok(c) =>
        var qs := FilterChain(rs, c);
        var present := |Filter(qs, StatusIs(Some(PRESENT)))|;
        var absent := |Filter(qs, StatusIs(Some(ABSENT)))|;
        ViewsKeepStatus(es, qs, PRESENT);
        ViewsKeepStatus(es, qs, ABSENT);
        Response(HTTP_200_OK, EmployeeAttendanceBody(
          EmployeeAttendanceData(pk, e.fullName, present, absent, |qs|, ToViews(es, qs))))
  }

  /** Writing records out keeps how many of them have a given status. */
  lemma {:induction false} ViewsKeepStatus(es: seq<Employee>, qs: seq<Attendance>, status: string)
    requires forall i :: 0 <= i < |qs| ==> HasEmployee(es, qs[i].employee)
    ensures |Filter(ToViews(es, qs), ViewStatusIs(status))| == |Filter(qs, StatusIs(Some(status)))|
    decreases |qs|
  {
    if qs != [] {
      var vs := ToViews(es, qs);
      assert vs[1..] == ToViews(es, qs[1..]);
      ViewsKeepStatus(es, qs[1..], status);
    }
  }

  /** The records returned are exactly the employee's records within the
      inclusive range. */
  lemma EmployeeAttendanceExact(pk: Pk, q: Query, r: Attendance)
    requires RangeCriteria(pk, q).Ok?
    ensures var c := RangeCriteria(pk, q).value;
            Matches(c, r) <==>
              && r.employee == pk
              && (Param(q, "start_date").None? || LexLe(ParseDate(q["start_date"]).value, r.date))
              && (Param(q, "end_date").None? || LexLe(r.date, ParseDate(q["end_date"]).value))
  {
  }

  /** With statuses restricted to Present and Absent, the two totals add up
      to the count. */
  lemma TotalsAddUp(es: seq<Employee>, rs: seq<Attendance>, pk: Pk, q: Query)
    requires OwnersExist(es, rs)
    requires forall i :: 0 <= i < |rs| ==> IsStatus(rs[i].status)
    requires EmployeeAttendance(es, rs, pk, q).status == HTTP_200_OK
    ensures var d := EmployeeAttendance(es, rs, pk, q).payload.data;
            d.totalPresent + d.totalAbsent == d.count
  {
    var c := RangeCriteria(pk, q).value;
    var qs := FilterChain(rs, c);
    forall i | 0 <= i < |qs| ensures StatusIs(Some(PRESENT))(qs[i]) <==> !StatusIs(Some(ABSENT))(qs[i]) {
      assert qs[i] in rs;
    }
    FilterPartition(qs, StatusIs(Some(PRESENT)), StatusIs(Some(ABSENT)));
  }
}
