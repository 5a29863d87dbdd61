/** The employee serializer: the per-field validators that normalise and
    check a create or update request against the employee table, and the
    read side with its derived present-day count. */
module EmployeeSerializer {
  import opened Outcomes
  import opened Text
  import opened Seqs
  import opened Records
  import opened Fields

  const EMPTY_ID_MSG: string := "Employee ID cannot be empty."
  const DUPLICATE_ID_MSG: string := "An employee with this ID already exists."
  const DUPLICATE_EMAIL_MSG: string := "An employee with this email already exists."
  const EMPTY_NAME_MSG: string := "Full name cannot be empty."
  const EMPTY_DEPARTMENT_MSG: string := "Department cannot be empty."

  /** The validated values of an employee request, ready to be saved. */
  datatype EmployeeInput = EmployeeInput(
    employeeId: string,
    fullName: string,
    email: string,
    department: string)

  /** Some employee other than the one being updated has this employee ID. */
  ghost predicate IdTaken(es: seq<Employee>, instance: Option<Pk>, value: string) {
    exists i :: 0 <= i < |es| && es[i].employeeId == value && instance != Some(es[i].pk)
  }

  /** Some employee other than the one being updated has this email. */
  ghost predicate EmailTaken(es: seq<Employee>, instance: Option<Pk>, value: string) {
    exists i :: 0 <= i < |es| && es[i].email == value && instance != Some(es[i].pk)
  }

  /** The rows of `qs` other than the row being updated (.exclude(pk=...)). */
  function ExcludeInstance(qs: seq<Employee>, instance: Option<Pk>): (r: seq<Employee>)
    ensures forall i :: 0 <= i < |r| ==> r[i] in qs && instance != Some(r[i].pk)
    ensures forall i :: 0 <= i < |qs| && instance != Some(qs[i].pk) ==> qs[i] in r
    decreases |qs|
  {
    if qs == [] then []
    else (if instance != Some(qs[0].pk) then [qs[0]] else []) + ExcludeInstance(qs[1..], instance)
  }

  lemma ExcludeInstanceWitness(es: seq<Employee>, qs: seq<Employee>, instance: Option<Pk>, p: Employee -> bool)
    requires qs == Filter(es, p) && |ExcludeInstance(qs, instance)| > 0
    ensures exists i :: 0 <= i < |es| && p(es[i]) && instance != Some(es[i].pk)
  {
    var x := ExcludeInstance(qs, instance)[0];
    assert x in qs;
    var k :| 0 <= k < |qs| && qs[k] == x;
    var i :| 0 <= i < |es| && es[i] == x;
  }

  lemma ExcludeInstanceKeeps(es: seq<Employee>, qs: seq<Employee>, instance: Option<Pk>, p: Employee -> bool, i: nat)
    requires qs == Filter(es, p) && i < |es| && p(es[i]) && instance != Some(es[i].pk)
    ensures |ExcludeInstance(qs, instance)| > 0
  {
    var k :| 0 <= k < |qs| && qs[k] == es[i];
    assert qs[k] in ExcludeInstance(qs, instance);
  }

  /** The filtered rows minus the instance are non-empty exactly when some
      row other than the instance satisfies the filter. */
  lemma ExcludeInstanceNonEmpty(es: seq<Employee>, qs: seq<Employee>, instance: Option<Pk>, p: Employee -> bool)
    requires qs == Filter(es, p)
    ensures |ExcludeInstance(qs, instance)| > 0 <==>
              exists i :: 0 <= i < |es| && p(es[i]) && instance != Some(es[i].pk)
  {
    if |ExcludeInstance(qs, instance)| > 0 {
      ExcludeInstanceWitness(es, qs, instance, p);
    }
    if i :| 0 <= i < |es| && p(es[i]) && instance != Some(es[i].pk) {
      ExcludeInstanceKeeps(es, qs, instance, p, i);
    }
  }

  /** validate_employee_id: a blank ID is refused; an ID equal, as given,
      to that of another employee is refused; otherwise the stripped ID is
      kept. */
  function ValidateEmployeeId(es: seq<Employee>, instance: Option<Pk>, value: string): (r: Checked<string>)
    ensures IsBlank(value) ==> r == Rejected(EMPTY_ID_MSG)
    ensures !IsBlank(value) && IdTaken(es, instance, value) ==> r == Rejected(DUPLICATE_ID_MSG)
    ensures r.Accepted? <==> !IsBlank(value) && !IdTaken(es, instance, value)
    ensures r.Accepted? ==> r.value == Strip(value) && Normalized(r.value)
  {
    if Strip(value) == [] then Rejected(EMPTY_ID_MSG)
    else
      var sameId := (e: Employee) => e.employeeId == value;
      var qs := Filter(es, sameId);
      ExcludeInstanceNonEmpty(es, qs, instance, sameId);
      if |ExcludeInstance(qs, instance)| > 0 then Rejected(DUPLICATE_ID_MSG)
      else Accepted(Strip(value))
  }

  /** validate_email: the email is lower-cased first; a lower-cased email
      held by another employee is refused; otherwise the lower-cased email
      is kept. */
  function ValidateEmail(es: seq<Employee>, instance: Option<Pk>, value: string): (r: Checked<string>)
    ensures EmailTaken(es, instance, ToLower(value)) ==> r == Rejected(DUPLICATE_EMAIL_MSG)
    ensures r.Accepted? <==> !EmailTaken(es, instance, ToLower(value))
    ensures r.Accepted? ==> r.value == ToLower(value)
  {
    var lowered := ToLower(value);
    var sameEmail := (e: Employee) => e.email == lowered;
    var qs := Filter(es, sameEmail);
    ExcludeInstanceNonEmpty(es, qs, instance, sameEmail);
    if |ExcludeInstance(qs, instance)| > 0 then Rejected(DUPLICATE_EMAIL_MSG)
    else Accepted(lowered)
  }

  /** The shared shape of validate_full_name and validate_department: a
      blank value is refused, anything else is kept stripped. */
  function ValidateNonBlank(value: string, emptyMessage: string): (r: Checked<string>)
    ensures r.Accepted? <==> !IsBlank(value)
    ensures r.Rejected? ==> r.message == emptyMessage
    ensures r.Accepted? ==> r.value == Strip(value) && Normalized(r.value)
  {
    if Strip(value) == [] then Rejected(emptyMessage)
    else Accepted(Strip(value))
  }

  function ValidateFullName(value: string): Checked<string> {
    ValidateNonBlank(value, EMPTY_NAME_MSG)
  }

  function ValidateDepartment(value: string): Checked<string> {
    ValidateNonBlank(value, EMPTY_DEPARTMENT_MSG)
  }

  function CheckEmployeeId(es: seq<Employee>, instance: Option<Pk>, data: Body): Checked<string> {
    match RequiredChar(data, "employee_id", EMPLOYEE_ID_MAX_LENGTH)
    case Rejected(m) => Rejected(m)
    case Accepted(v) => ValidateEmployeeId(es, instance, v)
  }

  function CheckFullName(data: Body): Checked<string> {
    match RequiredChar(data, "full_name", FULL_NAME_MAX_LENGTH)
    case Rejected(m) => Rejected(m)
    case Accepted(v) => ValidateFullName(v)
  }

  function CheckEmail(es: seq<Employee>, instance: Option<Pk>, data: Body): Checked<string> {
    match RequiredChar(data, "email", EMAIL_MAX_LENGTH)
    case Rejected(m) => Rejected(m)
    case Accepted(v) => ValidateEmail(es, instance, v)
  }

  function CheckDepartment(data: Body): Checked<string> {
    match RequiredChar(data, "department", DEPARTMENT_MAX_LENGTH)
    case Rejected(m) => Rejected(m)
    case Accepted(v) => ValidateDepartment(v)
  }

  /** The error map of a request: one message for each rejected field. */
  function EmployeeErrors(id: Checked<string>, name: Checked<string>, email: Checked<string>, dept: Checked<string>): (r: FieldErrors)
    ensures id.Rejected? ==> "employee_id" in r && r["employee_id"] == [id.message]
    ensures name.Rejected? ==> "full_name" in r && r["full_name"] == [name.message]
    ensures email.Rejected? ==> "email" in r && r["email"] == [email.message]
    ensures dept.Rejected? ==> "department" in r && r["department"] == [dept.message]
    ensures id.Accepted? ==> "employee_id" !in r
    ensures name.Accepted? ==> "full_name" !in r
    ensures email.Accepted? ==> "email" !in r
    ensures dept.Accepted? ==> "department" !in r
    ensures r.Keys <= {"employee_id", "full_name", "email", "department"}
  {
    ErrorEntry("employee_id", id) + ErrorEntry("full_name", name)
    + ErrorEntry("email", email) + ErrorEntry("department", dept)
  }

  /** The serializer's is_valid(): every field is checked; the request is
      accepted when all four are, and otherwise every failing field gets its
      one message. `instance` is the primary key of the row being updated. */
  function ValidateEmployee(es: seq<Employee>, instance: Option<Pk>, data: Body): (r: Result<EmployeeInput, FieldErrors>)
    ensures r.Err? ==> r.error != map[] && r.error.Keys <= {"employee_id", "full_name", "email", "department"}
  {
    var id := CheckEmployeeId(es, instance, data);
    var name := CheckFullName(data);
    var email := CheckEmail(es, instance, data);
    var dept := CheckDepartment(data);
    if id.Accepted? && name.Accepted? && email.Accepted? && dept.Accepted? then
      Ok(EmployeeInput(id.value, name.value, email.value, dept.value))
    else
      Err(EmployeeErrors(id, name, email, dept))
  }

  /** A refused request gets the error map of its four checks, which names
      at least one field. */
  lemma ValidateEmployeeErrors(es: seq<Employee>, instance: Option<Pk>, data: Body)
    requires ValidateEmployee(es, instance, data).Err?
    ensures var errors := ValidateEmployee(es, instance, data).error;
            && errors != map[]
            && errors == EmployeeErrors(CheckEmployeeId(es, instance, data), CheckFullName(data),
                                        CheckEmail(es, instance, data), CheckDepartment(data))
  {
  }

  // ---------------------------------------------------------------------
  // Properties of validation
  // ---------------------------------------------------------------------

  /** A request is a body whose four fields are given as strings. */
  function RequestOf(employeeId: string, fullName: string, email: string, department: string): Body {
    map["employee_id" := Str(employeeId), "full_name" := Str(fullName),
        "email" := Str(email), "department" := Str(department)]
  }

  lemma RequestOfFields(employeeId: string, fullName: string, email: string, department: string)
    ensures var data := RequestOf(employeeId, fullName, email, department);
            && "employee_id" in data && "full_name" in data && "email" in data && "department" in data
            && data["employee_id"] == Str(employeeId) && data["full_name"] == Str(fullName)
            && data["email"] == Str(email) && data["department"] == Str(department)
  {
    assert "employee_id" != "full_name" && "employee_id" != "email" && "employee_id" != "department";
    assert "full_name" != "email" && "full_name" != "department" && "email" != "department";
  }

  /** What an accepted request is made of: each field read and validated. */
  lemma ValidateEmployeeAccepted(es: seq<Employee>, instance: Option<Pk>, data: Body)
    requires ValidateEmployee(es, instance, data).Ok?
    ensures var v := ValidateEmployee(es, instance, data).value;
            && CheckEmployeeId(es, instance, data) == Accepted(v.employeeId)
            && CheckFullName(data) == Accepted(v.fullName)
            && CheckEmail(es, instance, data) == Accepted(v.email)
            && CheckDepartment(data) == Accepted(v.department)
  {
  }

  /** Whatever validation accepts is normalised and within the column
      limits: stripped non-empty ID, name and department, lower-case
      email. */
  lemma AcceptedIsWellFormed(es: seq<Employee>, instance: Option<Pk>, data: Body, pk: Pk)
    requires ValidateEmployee(es, instance, data).Ok?
    ensures var v := ValidateEmployee(es, instance, data).value;
            WellFormedEmployee(Employee(pk, v.employeeId, v.fullName, v.email, v.department))
  {
    var v := ValidateEmployee(es, instance, data).value;
    ValidateEmployeeAccepted(es, instance, data);
    var rawId := RequiredChar(data, "employee_id", EMPLOYEE_ID_MAX_LENGTH).value;
    assert ValidateEmployeeId(es, instance, rawId) == Accepted(v.employeeId);
    assert |v.employeeId| <= EMPLOYEE_ID_MAX_LENGTH;
    var rawName := RequiredChar(data, "full_name", FULL_NAME_MAX_LENGTH).value;
    assert ValidateFullName(rawName) == Accepted(v.fullName);
    var rawEmail := RequiredChar(data, "email", EMAIL_MAX_LENGTH).value;
    assert ValidateEmail(es, instance, rawEmail) == Accepted(v.email);
    var rawDept := RequiredChar(data, "department", DEPARTMENT_MAX_LENGTH).value;
    assert ValidateDepartment(rawDept) == Accepted(v.department);
  }

  /** The email an accepted request carries is held by no other
      employee. */
  lemma AcceptedEmailIsFree(es: seq<Employee>, instance: Option<Pk>, data: Body)
    requires ValidateEmployee(es, instance, data).Ok?
    ensures !EmailTaken(es, instance, ValidateEmployee(es, instance, data).value.email)
  {
    var v := ValidateEmployee(es, instance, data).value;
    ValidateEmployeeAccepted(es, instance, data);
    var raw := RequiredChar(data, "email", EMAIL_MAX_LENGTH).value;
    assert ValidateEmail(es, instance, raw) == Accepted(v.email);
  }

  /** An employee ID that is only whitespace is refused with "Employee ID
      cannot be empty." (the empty string itself is refused by the
      framework as blank). */
  lemma BlankIdRejected(es: seq<Employee>, instance: Option<Pk>, data: Body, id: string)
    requires "employee_id" in data && data["employee_id"] == Str(id)
    requires id != "" && |id| <= EMPLOYEE_ID_MAX_LENGTH && IsBlank(id)
    ensures var r := ValidateEmployee(es, instance, data);
            r.Err? && "employee_id" in r.error && r.error["employee_id"] == [EMPTY_ID_MSG]
  {
    assert CheckEmployeeId(es, instance, data) == Rejected(EMPTY_ID_MSG);
  }

  /** An employee ID equal to another employee's is refused. */
  lemma DuplicateIdRejected(es: seq<Employee>, data: Body, k: nat)
    requires k < |es| && WellFormedEmployee(es[k])
    requires "employee_id" in data && data["employee_id"] == Str(es[k].employeeId)
    ensures var r := ValidateEmployee(es, None, data);
            r.Err? && "employee_id" in r.error && r.error["employee_id"] == [DUPLICATE_ID_MSG]
  {
    var id := es[k].employeeId;
    assert RequiredChar(data, "employee_id", EMPLOYEE_ID_MAX_LENGTH) == Accepted(id);
    assert IdTaken(es, None, id);
    assert !IsBlank(id);
    assert CheckEmployeeId(es, None, data) == Rejected(DUPLICATE_ID_MSG);
  }

  /** The duplicate check compares the ID as given, while the stripped ID is
      what gets stored: " EMP-1" passes the check against a stored "EMP-1"
      and comes out as "EMP-1". */
  lemma PaddedIdPassesDuplicateCheck()
    ensures var es := [Employee(1, "EMP-1", "Ann Lee", "ann@x.io", "HR")];
            ValidateEmployeeId(es, None, " EMP-1") == Accepted("EMP-1")
  {
    var es := [Employee(1, "EMP-1", "Ann Lee", "ann@x.io", "HR")];
    var padded := " EMP-1";
    assert !IdTaken(es, None, padded) by {
      assert es[0].employeeId != padded;
    }
    assert !IsBlank(padded) by {
      assert !IsSpace(padded[1]);
    }
    assert padded[1..] == "EMP-1";
    assert TrimStart("EMP-1") == "EMP-1";
    assert TrimStart(padded) == "EMP-1";
    assert TrimEnd("EMP-1") == "EMP-1";
    assert Strip(padded) == "EMP-1";
  }

  lemma LowerIsFixed(s: string)
    requires IsLower(s)
    ensures ToLower(s) == s
  {
  }

  /** Emails are lower-cased before the uniqueness check, so an email that
      differs from a stored one only by case is refused. */
  lemma EmailCaseCollision(es: seq<Employee>, data: Body, k: nat, email: string)
    requires k < |es| && IsLower(es[k].email)
    requires "email" in data && data["email"] == Str(email) && email != "" && |email| <= EMAIL_MAX_LENGTH
    requires |email| == |es[k].email|
    requires forall i :: 0 <= i < |email| ==> LowerChar(email[i]) == LowerChar(es[k].email[i])
    ensures var r := ValidateEmployee(es, None, data);
            r.Err? && "email" in r.error && r.error["email"] == [DUPLICATE_EMAIL_MSG]
  {
    ToLowerIgnoresCase(email, es[k].email);
    LowerIsFixed(es[k].email);
    assert EmailTaken(es, None, ToLower(email));
    assert RequiredChar(data, "email", EMAIL_MAX_LENGTH) == Accepted(email);
    assert CheckEmail(es, None, data) == Rejected(DUPLICATE_EMAIL_MSG);
  }

  /** Validation looks at nothing but the four field checks. */
  lemma ValidateEmployeeFromChecks(es: seq<Employee>, instance: Option<Pk>, a: Body, b: Body)
    requires CheckEmployeeId(es, instance, a) == CheckEmployeeId(es, instance, b)
    requires CheckFullName(a) == CheckFullName(b)
    requires CheckEmail(es, instance, a) == CheckEmail(es, instance, b)
    requires CheckDepartment(a) == CheckDepartment(b)
    ensures ValidateEmployee(es, instance, a) == ValidateEmployee(es, instance, b)
  {
  }

  /** When all four checks accept, the request is accepted with their
      values. */
  lemma ValidateEmployeeAllAccepted(es: seq<Employee>, instance: Option<Pk>, data: Body)
    requires CheckEmployeeId(es, instance, data).Accepted? && CheckFullName(data).Accepted?
    requires CheckEmail(es, instance, data).Accepted? && CheckDepartment(data).Accepted?
    ensures ValidateEmployee(es, instance, data)
            == Ok(EmployeeInput(CheckEmployeeId(es, instance, data).value, CheckFullName(data).value,
                                CheckEmail(es, instance, data).value, CheckDepartment(data).value))
  {
  }

  /** A stored, well-formed employee passes the ID check for its own row. */
  lemma OwnIdAccepted(es: seq<Employee>, k: nat)
    requires UniqueEmployees(es) && k < |es| && WellFormedEmployee(es[k])
    ensures ValidateEmployeeId(es, Some(es[k].pk), es[k].employeeId) == Accepted(es[k].employeeId)
  {
    var e := es[k];
    assert !IdTaken(es, Some(e.pk), e.employeeId) by {
      forall i | 0 <= i < |es| && es[i].employeeId == e.employeeId ensures Some(es[i].pk) == Some(e.pk) {
        assert i == k;
      }
    }
  }

  /** A stored, well-formed employee passes the email check for its own row. */
  lemma OwnEmailAccepted(es: seq<Employee>, k: nat)
    requires UniqueEmployees(es) && k < |es| && WellFormedEmployee(es[k])
    ensures ValidateEmail(es, Some(es[k].pk), es[k].email) == Accepted(es[k].email)
  {
    var e := es[k];
    LowerIsFixed(e.email);
    assert !EmailTaken(es, Some(e.pk), e.email) by {
      forall i | 0 <= i < |es| && es[i].email == e.email ensures Some(es[i].pk) == Some(e.pk) {
        assert i == k;
      }
    }
  }

  /** Each of the four checks accepts an unchanged stored employee sent
      back for its own row. */
  lemma ResaveChecksAccepted(es: seq<Employee>, k: nat, data: Body)
    requires UniqueEmployees(es) && k < |es| && WellFormedEmployee(es[k])
    requires data == RequestOf(es[k].employeeId, es[k].fullName, es[k].email, es[k].department)
    ensures CheckEmployeeId(es, Some(es[k].pk), data) == Accepted(es[k].employeeId)
    ensures CheckFullName(data) == Accepted(es[k].fullName)
    ensures CheckEmail(es, Some(es[k].pk), data) == Accepted(es[k].email)
    ensures CheckDepartment(data) == Accepted(es[k].department)
  {
    var e := es[k];
    RequestOfFields(e.employeeId, e.fullName, e.email, e.department);
    assert CheckEmployeeId(es, Some(e.pk), data) == Accepted(e.employeeId) by {
      OwnIdAccepted(es, k);
      RequiredCharAccepts(data, "employee_id", EMPLOYEE_ID_MAX_LENGTH, e.employeeId);
    }
    assert CheckFullName(data) == Accepted(e.fullName) by {
      RequiredCharAccepts(data, "full_name", FULL_NAME_MAX_LENGTH, e.fullName);
    }
    assert CheckEmail(es, Some(e.pk), data) == Accepted(e.email) by {
      OwnEmailAccepted(es, k);
      RequiredCharAccepts(data, "email", EMAIL_MAX_LENGTH, e.email);
    }
    assert CheckDepartment(data) == Accepted(e.department) by {
      RequiredCharAccepts(data, "department", DEPARTMENT_MAX_LENGTH, e.department);
    }
  }

  /** On update the row itself is left out of both uniqueness checks, so
      sending back an unchanged stored employee is accepted with its values
      unchanged. */
  lemma ResaveUnchangedAccepted(es: seq<Employee>, k: nat)
    requires UniqueEmployees(es) && k < |es| && WellFormedEmployee(es[k])
    ensures var e := es[k];
            ValidateEmployee(es, Some(e.pk), RequestOf(e.employeeId, e.fullName, e.email, e.department))
              == Ok(EmployeeInput(e.employeeId, e.fullName, e.email, e.department))
  {
    var e := es[k];
    var data := RequestOf(e.employeeId, e.fullName, e.email, e.department);
    ResaveChecksAccepted(es, k, data);
    ValidateEmployeeAllAccepted(es, Some(e.pk), data);
  }

  /** id, created_at and total_present_days are read-only: whatever the
      client sends under those keys makes no difference. */
  lemma ReadOnlyFieldsIgnored(es: seq<Employee>, instance: Option<Pk>, data: Body)
    ensures ValidateEmployee(es, instance, data)
            == ValidateEmployee(es, instance, data - {"id", "created_at", "total_present_days"})
  {
    var d := data - {"id", "created_at", "total_present_days"};
    assert RequiredChar(data, "employee_id", EMPLOYEE_ID_MAX_LENGTH) == RequiredChar(d, "employee_id", EMPLOYEE_ID_MAX_LENGTH);
    assert RequiredChar(data, "full_name", FULL_NAME_MAX_LENGTH) == RequiredChar(d, "full_name", FULL_NAME_MAX_LENGTH);
    assert RequiredChar(data, "email", EMAIL_MAX_LENGTH) == RequiredChar(d, "email", EMAIL_MAX_LENGTH);
    assert RequiredChar(data, "department", DEPARTMENT_MAX_LENGTH) == RequiredChar(d, "department", DEPARTMENT_MAX_LENGTH);
    ValidateEmployeeFromChecks(es, instance, data, d);
  }

  // ---------------------------------------------------------------------
  // Read side
  // ---------------------------------------------------------------------

  predicate PresentFor(pk: Pk, r: Attendance) {
    r.employee == pk && r.status == PRESENT
  }

  /** total_present_days: the employee's attendance records marked Present. */
  function PresentDays(rs: seq<Attendance>, pk: Pk): (n: nat)
    ensures n <= |rs|
    ensures n > 0 ==> exists i :: 0 <= i < |rs| && rs[i].employee == pk && rs[i].status == PRESENT
  {
    var f := Filter(rs, r => PresentFor(pk, r));
    assert |f| > 0 ==> f[0] in rs;
    |f|
  }

  /** The serializer's output for an employee. */
  function ToView(e: Employee, rs: seq<Attendance>): (v: EmployeeView)
    ensures v.id == e.pk && v.employeeId == e.employeeId && v.fullName == e.fullName
    ensures v.email == e.email && v.department == e.department
    ensures v.totalPresentDays == PresentDays(rs, e.pk) && v.totalPresentDays <= |rs|
  {
    EmployeeView(e.pk, e.employeeId, e.fullName, e.email, e.department, PresentDays(rs, e.pk))
  }

  /** Adding a record raises an employee's present-day count by one exactly
      when the record is that employee's and is marked Present. */
  lemma PresentDaysAppend(rs: seq<Attendance>, r: Attendance, pk: Pk)
    ensures PresentDays(rs + [r], pk) == PresentDays(rs, pk) + (if PresentFor(pk, r) then 1 else 0)
  {
    FilterAppend(rs, r, x => PresentFor(pk, x));
  }

  /** An employee with no records has no present days. */
  lemma PresentDaysNone(rs: seq<Attendance>, pk: Pk)
    requires forall i :: 0 <= i < |rs| ==> rs[i].employee != pk
    ensures PresentDays(rs, pk) == 0
  {
    var f := Filter(rs, r => PresentFor(pk, r));
    if |f| > 0 {
      assert f[0] in rs;
    }
  }
}
