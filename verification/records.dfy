/** The two tables of the record store, the invariants the database keeps
    over them, the default ordering of employees, and the shapes of the
    JSON that crosses the REST boundary. */
module Records {
  import opened Outcomes
  import opened Text
  import opened Seqs

  /** Server-assigned primary key. */
  type Pk = nat

  /** A calendar date in ISO form (YYYY-MM-DD). */
  type Date = string

  // Column limits of the employee table.
  const EMPLOYEE_ID_MAX_LENGTH: nat := 20
  const FULL_NAME_MAX_LENGTH: nat := 200
  const EMAIL_MAX_LENGTH: nat := 254
  const DEPARTMENT_MAX_LENGTH: nat := 100

  const PRESENT: string := "Present"
  const ABSENT: string := "Absent"

  /** A row of the employee table (creation and update timestamps are not
      modelled). */
  datatype Employee = Employee(
    pk: Pk,
    employeeId: string,
    fullName: string,
    email: string,
    department: string)

  /** A row of the attendance table, owned by the employee with primary key
      `employee`. */
  datatype Attendance = Attendance(pk: Pk, employee: Pk, date: Date, status: string)

  /** The string form of an employee: "<employee_id> - <full_name>". */
  function EmployeeLabel(e: Employee): (r: string)
    ensures |r| == |e.employeeId| + 3 + |e.fullName|
    ensures r[..|e.employeeId|] == e.employeeId
    ensures r[|e.employeeId|..|e.employeeId| + 3] == " - "
    ensures r[|e.employeeId| + 3..] == e.fullName
  {
    e.employeeId + " - " + e.fullName
  }

  // ---------------------------------------------------------------------
  // Table invariants
  // ---------------------------------------------------------------------

  /** A stored text value as the validators leave it: not empty, and with
      no whitespace at either end. */
  predicate Normalized(s: string) {
    s != [] && !IsSpace(s[0]) && !IsSpace(s[|s| - 1])
  }

  /** A normalised value is its own strip, so stripping it again on a later
      update changes nothing. */
  lemma NormalizedIsStripped(s: string)
    requires Normalized(s)
    ensures Strip(s) == s
  {
    StripUnchanged(s);
  }

  /** What every stored employee satisfies: the column limits, and the
      values the validators produce (stripped text, a non-empty lower-case
      email). */
  ghost predicate WellFormedEmployee(e: Employee) {
    && |e.employeeId| <= EMPLOYEE_ID_MAX_LENGTH
    && |e.fullName| <= FULL_NAME_MAX_LENGTH
    && |e.email| <= EMAIL_MAX_LENGTH
    && |e.department| <= DEPARTMENT_MAX_LENGTH
    && Normalized(e.employeeId)
    && Normalized(e.fullName)
    && Normalized(e.department)
    && e.email != []
    && IsLower(e.email)
  }

  /** Two rows that differ in primary key, employee ID and email. */
  predicate DistinctEmployees(a: Employee, b: Employee) {
    a.pk != b.pk && a.employeeId != b.employeeId && a.email != b.email
  }

  /** Primary keys, employee IDs and emails are each unique. */
  ghost predicate UniqueEmployees(es: seq<Employee>) {
    forall i, j :: 0 <= i < j < |es| ==> DistinctEmployees(es[i], es[j])
  }

  predicate IsStatus(s: string) {
    s == PRESENT || s == ABSENT
  }

  predicate HasEmployee(es: seq<Employee>, pk: Pk) {
    exists i :: 0 <= i < |es| && es[i].pk == pk
  }

  /** What every stored attendance record satisfies: its owner exists, its
      status is Present or Absent, and its date is well formed. */
  ghost predicate WellFormedRecord(es: seq<Employee>, r: Attendance) {
    HasEmployee(es, r.employee) && IsStatus(r.status) && IsIsoDate(r.date)
  }

  /** Two records that differ in primary key and in (employee, date). */
  predicate DistinctRecords(a: Attendance, b: Attendance) {
    a.pk != b.pk && (a.employee != b.employee || a.date != b.date)
  }

  /** Primary keys are unique, and so is each (employee, date) pair. */
  ghost predicate UniqueRecords(rs: seq<Attendance>) {
    forall i, j :: 0 <= i < j < |rs| ==> DistinctRecords(rs[i], rs[j])
  }

  /** The invariant of the two tables together. */
  ghost predicate Consistent(es: seq<Employee>, rs: seq<Attendance>) {
    && UniqueEmployees(es)
    && (forall i :: 0 <= i < |es| ==> WellFormedEmployee(es[i]))
    && UniqueRecords(rs)
    && (forall i :: 0 <= i < |rs| ==> WellFormedRecord(es, rs[i]))
  }

  /** The employee with primary key `pk`, if there is one. */
  function FindEmployee(es: seq<Employee>, pk: Pk): (r: Option<Employee>)
    ensures r.Some? <==> HasEmployee(es, pk)
    ensures r.Some? ==> r.value in es && r.value.pk == pk
    decreases |es|
  {
    if es == [] then None
    else if es[0].pk == pk then Some(es[0])
    else FindEmployee(es[1..], pk)
  }

  /** The position of the employee with primary key `pk`, if there is one. */
  function IndexOfEmployee(es: seq<Employee>, pk: Pk): (k: Option<nat>)
    ensures k.Some? ==> k.value < |es| && es[k.value].pk == pk
    ensures k.None? <==> !HasEmployee(es, pk)
    decreases |es|
  {
    if es == [] then None
    else if es[0].pk == pk then Some(0)
    else match IndexOfEmployee(es[1..], pk)
      case None => None
      case Some(k) => Some(k + 1)
  }

  /** The position of the record with primary key `pk`, if there is one. */
  function IndexOfRecord(rs: seq<Attendance>, pk: Pk): (k: Option<nat>)
    ensures k.Some? ==> k.value < |rs| && rs[k.value].pk == pk
    ensures k.None? <==> forall i :: 0 <= i < |rs| ==> rs[i].pk != pk
    decreases |rs|
  {
    if rs == [] then None
    else if rs[0].pk == pk then Some(0)
    else match IndexOfRecord(rs[1..], pk)
      case None => None
      case Some(k) =>
        assert rs[k + 1] == rs[1..][k];
        Some(k + 1)
  }

  // ---------------------------------------------------------------------
  // Default ordering of employees: by full name
  // ---------------------------------------------------------------------

  predicate SortedByName(es: seq<Employee>) {
    forall i, j :: 0 <= i < j < |es| ==> LexLe(es[i].fullName, es[j].fullName)
  }

  /** Puts `e` after every employee whose name does not come after its own. */
  function InsertByName(e: Employee, es: seq<Employee>): (r: seq<Employee>)
    ensures multiset(r) == multiset(es) + multiset{e}
    decreases |es|
  {
    if es == [] || LexLess(e.fullName, es[0].fullName) then [e] + es
    else
      assert es == [es[0]] + es[1..];
      [es[0]] + InsertByName(e, es[1..])
  }

  /** The employee table in its default order. */
  function SortByName(es: seq<Employee>): (r: seq<Employee>)
    ensures multiset(r) == multiset(es) && |r| == |es|
    decreases |es|
  {
    if es == [] then []
    else
      assert es == [es[0]] + es[1..];
      InsertByName(es[0], SortByName(es[1..]))
  }

  lemma LexLeTransitive(a: string, b: string, c: string)
    requires LexLe(a, b) && LexLe(b, c)
    ensures LexLe(a, c)
  {
    if a != b && b != c {
      LexLessTransitive(a, b, c);
    }
  }

  lemma {:induction false} InsertByNameSorted(e: Employee, es: seq<Employee>)
    requires SortedByName(es)
    ensures SortedByName(InsertByName(e, es))
    decreases |es|
  {
    if es == [] || LexLess(e.fullName, es[0].fullName) {
      var r := [e] + es;
      forall i, j | 0 <= i < j < |r| ensures LexLe(r[i].fullName, r[j].fullName) {
        if i == 0 && j > 1 {
          LexLeTransitive(e.fullName, es[0].fullName, es[j - 1].fullName);
        }
      }
    } else {
      LexLessTotal(e.fullName, es[0].fullName);
      InsertByNameSorted(e, es[1..]);
      var tail := InsertByName(e, es[1..]);
      var r := [es[0]] + tail;
      forall k | 0 <= k < |tail| ensures LexLe(es[0].fullName, tail[k].fullName) {
        assert tail[k] in multiset(tail);
        assert tail[k] == e || tail[k] in multiset(es[1..]);
        if tail[k] != e {
          var m :| 0 <= m < |es[1..]| && es[1..][m] == tail[k];
          assert es[m + 1] == tail[k];
        }
      }
      forall i, j | 0 <= i < j < |r| ensures LexLe(r[i].fullName, r[j].fullName) {
        if i == 0 {
          assert r[j] == tail[j - 1];
        } else {
          assert r[i] == tail[i - 1] && r[j] == tail[j - 1];
        }
      }
    }
  }

  /** The employee list comes out ordered by full name. */
  lemma {:induction false} SortByNameSorted(es: seq<Employee>)
    ensures SortedByName(SortByName(es))
    decreases |es|
  {
    if es != [] {
      SortByNameSorted(es[1..]);
      InsertByNameSorted(es[0], SortByName(es[1..]));
    }
  }

  // ---------------------------------------------------------------------
  // Request and response bodies (JSON)
  // ---------------------------------------------------------------------

  /** A JSON value in a request body. */
  datatype Value = Str(s: string) | Num(n: int) | Null

  /** Request bodies and query strings. */
  type Body = map<string, Value>
  type Query = map<string, string>

  /** An employee as the serializer writes it out. */
  datatype EmployeeView = EmployeeView(
    id: Pk,
    employeeId: string,
    fullName: string,
    email: string,
    department: string,
    totalPresentDays: nat)

  /** An attendance record as the serializer writes it out, with the owner's
      name, employee ID and department copied in. */
  datatype AttendanceView = AttendanceView(
    id: Pk,
    employee: Pk,
    employeeName: string,
    employeeIdCode: string,
    department: string,
    date: Date,
    status: string)

  /** One entry of the dashboard's per-department breakdown. */
  datatype DeptCount = DeptCount(department: string, count: nat)

  /** The reply of the per-employee attendance endpoint. */
  datatype EmployeeAttendanceData = EmployeeAttendanceData(
    employeeId: Pk,
    employeeName: string,
    totalPresent: nat,
    totalAbsent: nat,
    count: nat,
    results: seq<AttendanceView>)

  /** The reply of the dashboard endpoint. */
  datatype DashboardSummary = DashboardSummary(
    totalEmployees: nat,
    totalPresentToday: nat,
    totalAbsentToday: nat,
    departments: seq<DeptCount>)

  /** Field name to the list of messages about it. */
  type FieldErrors = map<string, seq<string>>

  datatype Payload =
    | EmployeeBody(employee: EmployeeView)
    | EmployeeList(count: nat, employees: seq<EmployeeView>)
    | AttendanceBody(record: AttendanceView)
    | AttendanceList(count: nat, records: seq<AttendanceView>)
    | EmployeeAttendanceBody(data: EmployeeAttendanceData)
    | SummaryBody(summary: DashboardSummary)
    | ErrorsBody(errors: FieldErrors)
    | MessageBody(message: string)
    | DetailBody(detail: string)
    | ServerErrorPage

  datatype Response = Response(status: nat, payload: Payload)

  const HTTP_200_OK: nat := 200
  const HTTP_201_CREATED: nat := 201
  const HTTP_400_BAD_REQUEST: nat := 400
  const HTTP_404_NOT_FOUND: nat := 404
  const HTTP_500_SERVER_ERROR: nat := 500

  /** The reply of get_object_or_404 when no row has the key. */
  const NotFound: Response := Response(HTTP_404_NOT_FOUND, DetailBody("Not found."))

  /** The reply when a query raises an exception the views do not catch
      (an ill-formed filter value). */
  const ServerError: Response := Response(HTTP_500_SERVER_ERROR, ServerErrorPage)
}
