/** The attendance serializer: reading the three writable fields of a create
    or update request, the status check, the object-level check that an
    employee has at most one record per date, and the read side that copies
    the owner's details into each record. */
module AttendanceSerializer {
  import opened Outcomes
  import opened Text
  import opened Seqs
  import opened Records
  import opened Fields

  const STATUS_MSG: string := "Status must be 'Present' or 'Absent'."
  const PK_TYPE_MSG: string := "Incorrect type. Expected pk value, received str."
  const DATE_FORMAT_MSG: string := "Date has wrong format. Use one of these formats instead: YYYY-MM-DD."

  function MissingPkMsg(text: string): string {
    "Invalid pk \"" + text + "\" - object does not exist."
  }

  /** The object-level error, keyed under 'date'; a date left out of a
      partial update is printed as Python prints None. */
  function DuplicateMsg(date: Option<Date>): string {
    "Attendance for this employee on " + (if date.Some? then date.value else "None") + " already exists."
  }

  /** The validated values of a request; a field a partial update leaves out
      is None. */
  datatype AttendanceInput = AttendanceInput(employee: Option<Pk>, date: Option<Date>, status: Option<string>)

  // ---------------------------------------------------------------------
  // Field level
  // ---------------------------------------------------------------------

  /** validate_status: only Present and Absent pass, unchanged. */
  function ValidateStatus(value: string): (r: Checked<string>)
    ensures r.Accepted? <==> IsStatus(value)
    ensures r.Accepted? ==> r.value == value
    ensures r.Rejected? ==> r.message == STATUS_MSG
  {
    if value == PRESENT || value == ABSENT then Accepted(value) else Rejected(STATUS_MSG)
  }

  /** The employee field: a primary key of an existing employee, given as a
      number or as a string that int() reads. A related field takes the
      empty string for null, which this non-null key refuses; any other
      string int() refuses is of the wrong type; a key with no employee does
      not exist (the message quotes the value as sent). */
  function EmployeeField(es: seq<Employee>, v: Value): (r: Checked<Pk>)
    ensures r.Accepted? ==> HasEmployee(es, r.value)
    ensures v.Num? && v.n >= 0 && HasEmployee(es, v.n) ==> r == Accepted(v.n)
    ensures v.Num? && !(v.n >= 0 && HasEmployee(es, v.n)) ==> r == Rejected(MissingPkMsg(IntToString(v.n)))
    ensures v == Str("") ==> r == Rejected(NULL_MSG)
    ensures v.Str? && v.s != "" && PyInt(v.s).None? ==> r == Rejected(PK_TYPE_MSG)
    ensures v.Str? && PyInt(v.s).Some? ==>
              && (r.Accepted? <==> PyInt(v.s).value >= 0 && HasEmployee(es, PyInt(v.s).value))
              && (r.Accepted? ==> r.value == PyInt(v.s).value)
              && (r.Rejected? ==> r.message == MissingPkMsg(v.s))
    ensures v == Null ==> r == Rejected(NULL_MSG)
  {
    match v
    case Null => Rejected(NULL_MSG)
    case Num(n) => if n >= 0 && HasEmployee(es, n) then Accepted(n) else Rejected(MissingPkMsg(IntToString(n)))
    case Str(s) =>
      if s == "" then Rejected(NULL_MSG) else
      match PyInt(s)
      case None => Rejected(PK_TYPE_MSG)
      case Some(n) => if n >= 0 && HasEmployee(es, n) then Accepted(n) else Rejected(MissingPkMsg(s))
  }

  /** The date field: a string parse_date reads, held in ISO form. */
  function DateField(v: Value): (r: Checked<Date>)
    ensures r.Accepted? <==> v.Str? && ParseDate(v.s).Some?
    ensures r.Accepted? ==> r.value == ParseDate(v.s).value && IsIsoDate(r.value)
    ensures v.Str? && IsIsoDate(v.s) ==> r == Accepted(v.s)
    ensures v != Null && r.Rejected? ==> r.message == DATE_FORMAT_MSG
    ensures v == Null ==> r == Rejected(NULL_MSG)
  {
    match v
    case Null => Rejected(NULL_MSG)
    case Num(_) => Rejected(DATE_FORMAT_MSG)
    case Str(s) =>
      match ParseDate(s)
      case None => Rejected(DATE_FORMAT_MSG)
      case Some(d) => Accepted(d)
  }

  /** The status field: a non-blank character value, then validate_status. */
  function StatusField(v: Value): (r: Checked<string>)
    ensures r.Accepted? <==> AsText(v).Some? && IsStatus(AsText(v).value)
    ensures r.Accepted? ==> r.value == AsText(v).value
    ensures v.Str? && v.s != "" && !IsStatus(v.s) ==> r == Rejected(STATUS_MSG)
  {
    match AsText(v)
    case None => Rejected(NULL_MSG)
    case Some(text) => if text == "" then Rejected(BLANK_MSG) else ValidateStatus(text)
  }

  /** A field of the request: checked when present; when absent, an error
      on create and skipped on a partial update. */
  function CheckEmployee(es: seq<Employee>, data: Body, partial: bool): Checked<Option<Pk>> {
    if "employee" in data then
      match EmployeeField(es, data["employee"])
      case Accepted(p) => Accepted(Some(p))
      case Rejected(m) => Rejected(m)
    else if partial then Accepted(None)
    else Rejected(REQUIRED_MSG)
  }

  function CheckDate(data: Body, partial: bool): Checked<Option<Date>> {
    if "date" in data then
      match DateField(data["date"])
      case Accepted(d) => Accepted(Some(d))
      case Rejected(m) => Rejected(m)
    else if partial then Accepted(None)
    else Rejected(REQUIRED_MSG)
  }

  function CheckStatus(data: Body, partial: bool): Checked<Option<string>> {
    if "status" in data then
      match StatusField(data["status"])
      case Accepted(s) => Accepted(Some(s))
      case Rejected(m) => Rejected(m)
    else if partial then Accepted(None)
    else Rejected(REQUIRED_MSG)
  }

  /** The field errors of a request: one message per rejected field. */
  function AttendanceErrors(employee: Checked<Option<Pk>>, date: Checked<Option<Date>>, status: Checked<Option<string>>): (r: FieldErrors)
    ensures employee.Rejected? ==> "employee" in r && r["employee"] == [employee.message]
    ensures date.Rejected? ==> "date" in r && r["date"] == [date.message]
    ensures status.Rejected? ==> "status" in r && r["status"] == [status.message]
    ensures employee.Accepted? ==> "employee" !in r
    ensures date.Accepted? ==> "date" !in r
    ensures status.Accepted? ==> "status" !in r
    ensures r.Keys <= {"employee", "date", "status"}
  {
    ErrorEntry("employee", employee) + ErrorEntry("date", date) + ErrorEntry("status", status)
  }

  /** The field-level pass of is_valid(): every field is read; the object
      check only runs when all of them pass. */
  function ValidateFields(es: seq<Employee>, data: Body, partial: bool): (r: Result<AttendanceInput, FieldErrors>)
    ensures r.Ok? <==>
              CheckEmployee(es, data, partial).Accepted? && CheckDate(data, partial).Accepted? && CheckStatus(data, partial).Accepted?
    ensures r.Ok? ==> r.value == AttendanceInput(CheckEmployee(es, data, partial).value,
                                                 CheckDate(data, partial).value, CheckStatus(data, partial).value)
    ensures r.Err? ==> r.error != map[]
                       && r.error == AttendanceErrors(CheckEmployee(es, data, partial), CheckDate(data, partial), CheckStatus(data, partial))
    ensures !partial && r.Ok? ==> r.value.employee.Some? && r.value.date.Some? && r.value.status.Some?
  {
    var employee := CheckEmployee(es, data, partial);
    var date := CheckDate(data, partial);
    var status := CheckStatus(data, partial);
    if employee.Accepted? && date.Accepted? && status.Accepted? then
      Ok(AttendanceInput(employee.value, date.value, status.value))
    else
      Err(AttendanceErrors(employee, date, status))
  }

  // ---------------------------------------------------------------------
  // Object level: one record per (employee, date)
  // ---------------------------------------------------------------------

  /** The rows of `qs` other than the row being updated. */
  function ExcludeRecord(qs: seq<Attendance>, instance: Option<Attendance>): (r: seq<Attendance>)
    ensures forall i :: 0 <= i < |r| ==> r[i] in qs && (instance.None? || r[i].pk != instance.value.pk)
    ensures forall i :: 0 <= i < |qs| && (instance.None? || qs[i].pk != instance.value.pk) ==> qs[i] in r
    decreases |qs|
  {
    if qs == [] then []
    else (if instance.None? || qs[0].pk != instance.value.pk then [qs[0]] else []) + ExcludeRecord(qs[1..], instance)
  }

  /** Some row other than the instance has this employee and this date. */
  ghost predicate Clashes(rs: seq<Attendance>, instance: Option<Attendance>, employee: Pk, date: Date) {
    exists i :: 0 <= i < |rs| && rs[i].employee == employee && rs[i].date == date
                && (instance.None? || rs[i].pk != instance.value.pk)
  }

  /** The rows matching `employee` and `date`, minus the instance, as
      the query the validator runs. `None` in either place matches nothing
      (a filter on NULL against a non-null column). */
  function SameSlot(rs: seq<Attendance>, instance: Option<Attendance>, employee: Option<Pk>, date: Option<Date>): (r: seq<Attendance>)
    ensures |r| > 0 <==> employee.Some? && date.Some? && Clashes(rs, instance, employee.value, date.value)
  {
    var slot := (x: Attendance) => Some(x.employee) == employee && Some(x.date) == date;
    var qs := Filter(rs, slot);
    SameSlotNonEmpty(rs, qs, instance, employee, date, slot);
    ExcludeRecord(qs, instance)
  }

  lemma SameSlotNonEmpty(rs: seq<Attendance>, qs: seq<Attendance>, instance: Option<Attendance>,
                         employee: Option<Pk>, date: Option<Date>, p: Attendance -> bool)
    requires forall x :: p(x) <==> Some(x.employee) == employee && Some(x.date) == date
    requires qs == Filter(rs, p)
    ensures |ExcludeRecord(qs, instance)| > 0 <==>
              employee.Some? && date.Some? && Clashes(rs, instance, employee.value, date.value)
  {
    if |ExcludeRecord(qs, instance)| > 0 {
      SameSlotWitness(rs, qs, instance, p);
    }
    if employee.Some? && date.Some? && Clashes(rs, instance, employee.value, date.value) {
      var i :| 0 <= i < |rs| && rs[i].employee == employee.value && rs[i].date == date.value
               && (instance.None? || rs[i].pk != instance.value.pk);
      SameSlotKeeps(rs, qs, instance, p, i);
    }
  }

  lemma SameSlotWitness(rs: seq<Attendance>, qs: seq<Attendance>, instance: Option<Attendance>, p: Attendance -> bool)
    requires qs == Filter(rs, p) && |ExcludeRecord(qs, instance)| > 0
    ensures exists i :: 0 <= i < |rs| && p(rs[i]) && (instance.None? || rs[i].pk != instance.value.pk)
  {
    var x := ExcludeRecord(qs, instance)[0];
    assert x in qs;
    var i :| 0 <= i < |rs| && rs[i] == x;
  }

  lemma SameSlotKeeps(rs: seq<Attendance>, qs: seq<Attendance>, instance: Option<Attendance>, p: Attendance -> bool, i: nat)
    requires qs == Filter(rs, p) && i < |rs| && p(rs[i]) && (instance.None? || rs[i].pk != instance.value.pk)
    ensures |ExcludeRecord(qs, instance)| > 0
  {
    var k :| 0 <= k < |qs| && qs[k] == rs[i];
    assert qs[k] in ExcludeRecord(qs, instance);
  }

  /** validate() as written: the query uses only the employee and date that
      are in the request, so a partial update that leaves one of them out
      is never checked. */
  function ValidateUniqueAsWritten(rs: seq<Attendance>, instance: Option<Attendance>, input: AttendanceInput): (r: Result<AttendanceInput, FieldErrors>)
    ensures r.Ok? <==> !(input.employee.Some? && input.date.Some? && Clashes(rs, instance, input.employee.value, input.date.value))
  {
    if |SameSlot(rs, instance, input.employee, input.date)| > 0 then
      Err(map["date" := [DuplicateMsg(input.date)]])
    else Ok(input)
  }

  /** The employee a record will have once `input` is saved over `instance`
      (or as a new record). */
  function EffectiveEmployee(instance: Option<Attendance>, input: AttendanceInput): Option<Pk> {
    if input.employee.Some? then input.employee
    else if instance.Some? then Some(instance.value.employee)
    else None
  }

  function EffectiveDate(instance: Option<Attendance>, input: AttendanceInput): Option<Date> {
    if input.date.Some? then input.date
    else if instance.Some? then Some(instance.value.date)
    else None
  }

  /** validate() as intended: the employee and date the saved record will
      have, falling back to the instance's own values for fields a partial
      update leaves out. */
  function ValidateUnique(rs: seq<Attendance>, instance: Option<Attendance>, input: AttendanceInput): (r: Result<AttendanceInput, FieldErrors>)
    ensures r.Ok? ==> r.value == input
    ensures r.Err? ==> r.error == map["date" := [DuplicateMsg(EffectiveDate(instance, input))]]
    ensures r.Ok? <==>
      var employee := EffectiveEmployee(instance, input);
      var date := EffectiveDate(instance, input);
      !(employee.Some? && date.Some? && Clashes(rs, instance, employee.value, date.value))
  {
    var employee := EffectiveEmployee(instance, input);
    var date := EffectiveDate(instance, input);
    if |SameSlot(rs, instance, employee, date)| > 0 then
      Err(map["date" := [DuplicateMsg(date)]])
    else Ok(input)
  }

  /** The serializer's is_valid() for a create (`instance` None, every field
      required) or an update (`partial` true). */
  function ValidateAttendance(es: seq<Employee>, rs: seq<Attendance>, instance: Option<Attendance>, data: Body, partial: bool): (r: Result<AttendanceInput, FieldErrors>)
    ensures r.Ok? ==> ValidateFields(es, data, partial) == Ok(r.value)
    ensures ValidateFields(es, data, partial).Err? ==> r == ValidateFields(es, data, partial)
    ensures r.Err? <==>
              ValidateFields(es, data, partial).Err?
              || ValidateUnique(rs, instance, ValidateFields(es, data, partial).value).Err?
  {
    match ValidateFields(es, data, partial)
    case Err(e) => Err(e)
    case Ok(input) => ValidateUnique(rs, instance, input)
  }

  /** is_valid() with validate() as written. */
  function ValidateAttendanceAsWritten(es: seq<Employee>, rs: seq<Attendance>, instance: Option<Attendance>, data: Body, partial: bool): (r: Result<AttendanceInput, FieldErrors>)
    ensures r.Ok? ==> ValidateFields(es, data, partial) == Ok(r.value)
    ensures ValidateFields(es, data, partial).Err? ==> r == ValidateFields(es, data, partial)
    ensures r.Err? <==>
              ValidateFields(es, data, partial).Err?
              || ValidateUniqueAsWritten(rs, instance, ValidateFields(es, data, partial).value).Err?
  {
    match ValidateFields(es, data, partial)
    case Err(e) => Err(e)
    case Ok(input) => ValidateUniqueAsWritten(rs, instance, input)
  }

  // ---------------------------------------------------------------------
  // Saving
  // ---------------------------------------------------------------------

  /** The record a create saves. */
  function NewRecord(pk: Pk, input: AttendanceInput): Attendance
    requires input.employee.Some? && input.date.Some? && input.status.Some?
  {
    Attendance(pk, input.employee.value, input.date.value, input.status.value)
  }

  /** The record an update saves: the fields in the request replace the
      instance's, the others are kept. */
  function Updated(r: Attendance, input: AttendanceInput): (u: Attendance)
    ensures u.pk == r.pk
    ensures u.employee == EffectiveEmployee(Some(r), input).value
    ensures u.date == EffectiveDate(Some(r), input).value
    ensures input.status.None? ==> u.status == r.status
    ensures input.status.Some? ==> u.status == input.status.value
  {
    Attendance(r.pk,
      if input.employee.Some? then input.employee.value else r.employee,
      if input.date.Some? then input.date.value else r.date,
      if input.status.Some? then input.status.value else r.status)
  }

  // ---------------------------------------------------------------------
  // Properties of validation
  // ---------------------------------------------------------------------

  /** What the field pass accepts on create is a complete, well-formed
      record: an existing employee, an ISO date, Present or Absent. */
  lemma AcceptedCreateIsWellFormed(es: seq<Employee>, data: Body, pk: Pk)
    requires ValidateFields(es, data, false).Ok?
    ensures var v := ValidateFields(es, data, false).value;
            && v.employee.Some? && v.date.Some? && v.status.Some?
            && WellFormedRecord(es, NewRecord(pk, v))
  {
  }

  /** What the field pass accepts on a partial update keeps a well-formed
      record well formed. */
  lemma AcceptedUpdateIsWellFormed(es: seq<Employee>, data: Body, r: Attendance)
    requires ValidateFields(es, data, true).Ok? && WellFormedRecord(es, r)
    ensures WellFormedRecord(es, Updated(r, ValidateFields(es, data, true).value))
  {
  }

  /** A status other than Present or Absent is refused with the validator's
      message. */
  lemma BadStatusRejected(es: seq<Employee>, rs: seq<Attendance>, instance: Option<Attendance>, data: Body, partial: bool)
    requires "status" in data && data["status"].Str? && data["status"].s != "" && !IsStatus(data["status"].s)
    ensures var r := ValidateAttendance(es, rs, instance, data, partial);
            r.Err? && "status" in r.error && r.error["status"] == [STATUS_MSG]
  {
    assert CheckStatus(data, partial) == Rejected(STATUS_MSG);
  }

  /** Creating a record for an (employee, date) that already has one is
      refused, with the message keyed under 'date', whatever valid status is
      sent and whether the employee is sent as a number or as its decimal
      string and the date in any form parse_date reads. */
  lemma DuplicateCreateRejected(es: seq<Employee>, rs: seq<Attendance>, data: Body, k: nat)
    requires k < |rs| && HasEmployee(es, rs[k].employee)
    requires "employee" in data
    requires data["employee"] == Num(rs[k].employee) || data["employee"] == Str(NatToString(rs[k].employee))
    requires "date" in data && data["date"].Str? && ParseDate(data["date"].s) == Some(rs[k].date)
    requires "status" in data && data["status"].Str? && IsStatus(data["status"].s)
    ensures ValidateAttendance(es, rs, None, data, false)
            == Err(map["date" := [DuplicateMsg(Some(rs[k].date))]])
  {
    KeyAccepted(es, data["employee"], rs[k].employee);
    var input := AttendanceInput(Some(rs[k].employee), Some(rs[k].date), Some(data["status"].s));
    assert CheckEmployee(es, data, false) == Accepted(Some(rs[k].employee));
    assert CheckDate(data, false) == Accepted(Some(rs[k].date));
    assert CheckStatus(data, false) == Accepted(Some(data["status"].s));
    assert ValidateFields(es, data, false) == Ok(input);
    assert Clashes(rs, None, rs[k].employee, rs[k].date);
    assert ValidateUnique(rs, None, input).Err?;
  }

  /** An existing employee's key is accepted whether it is sent as a number
      or as its decimal string, and read as that key. */
  lemma KeyAccepted(es: seq<Employee>, v: Value, pk: Pk)
    requires HasEmployee(es, pk)
    requires v == Num(pk) || v == Str(NatToString(pk))
    ensures EmployeeField(es, v) == Accepted(pk)
  {
    PyIntRoundTrip(pk);
  }

  /** On update the record itself is left out of the check: an update that
      keeps a record's employee and date passes, given the table has one
      record per (employee, date). */
  lemma UpdateExcludesSelf(rs: seq<Attendance>, k: nat, input: AttendanceInput)
    requires UniqueRecords(rs) && k < |rs|
    requires input.employee.None? || input.employee == Some(rs[k].employee)
    requires input.date.None? || input.date == Some(rs[k].date)
    ensures ValidateUnique(rs, Some(rs[k]), input) == Ok(input)
  {
    forall i | 0 <= i < |rs| && rs[i].pk != rs[k].pk
      ensures !(rs[i].employee == rs[k].employee && rs[i].date == rs[k].date)
    {
      if i < k {
        assert rs[i].employee != rs[k].employee || rs[i].date != rs[k].date;
      } else {
        assert rs[k].employee != rs[i].employee || rs[k].date != rs[i].date;
      }
    }
  }

  /** A create accepted by the corrected check keeps one record per
      (employee, date), given a fresh primary key. */
  lemma CreateKeepsUnique(es: seq<Employee>, rs: seq<Attendance>, data: Body, pk: Pk)
    requires UniqueRecords(rs) && forall i :: 0 <= i < |rs| ==> rs[i].pk != pk
    requires ValidateAttendance(es, rs, None, data, false).Ok?
    ensures var v := ValidateAttendance(es, rs, None, data, false).value;
            && v.employee.Some? && v.date.Some? && v.status.Some?
            && UniqueRecords(rs + [NewRecord(pk, v)])
  {
    var v := ValidateFields(es, data, false).value;
    assert ValidateUnique(rs, None, v).Ok?;
    var n := NewRecord(pk, v);
    var rs' := rs + [n];
    forall i, j | 0 <= i < j < |rs'|
      ensures rs'[i].pk != rs'[j].pk && (rs'[i].employee != rs'[j].employee || rs'[i].date != rs'[j].date)
    {
      if j == |rs| {
        assert rs'[i] == rs[i] && rs'[j] == n;
        assert !(rs[i].employee == n.employee && rs[i].date == n.date);
      }
    }
  }

  /** An update accepted by the corrected check keeps one record per
      (employee, date). */
  lemma UpdateKeepsUnique(rs: seq<Attendance>, k: nat, input: AttendanceInput)
    requires UniqueRecords(rs) && k < |rs|
    requires ValidateUnique(rs, Some(rs[k]), input).Ok?
    ensures UniqueRecords(rs[k := Updated(rs[k], input)])
  {
    var u := Updated(rs[k], input);
    var rs' := rs[k := u];
    assert !Clashes(rs, Some(rs[k]), u.employee, u.date);
    forall i, j | 0 <= i < j < |rs'|
      ensures rs'[i].pk != rs'[j].pk && (rs'[i].employee != rs'[j].employee || rs'[i].date != rs'[j].date)
    {
      if i == k {
        assert rs'[j] == rs[j] && rs[j].pk != rs[k].pk;
      } else if j == k {
        assert rs'[i] == rs[i] && rs[i].pk != rs[k].pk;
      }
    }
  }

  /** A partial update that sends only a date the parser reads passes the
      field pass with that date and nothing else. */
  lemma DateOnlyPatch(es: seq<Employee>, d: Date)
    requires IsIsoDate(d)
    ensures ValidateFields(es, map["date" := Str(d)], true) == Ok(AttendanceInput(None, Some(d), None))
  {
    var data := map["date" := Str(d)];
    assert "employee" !in data && "status" !in data;
    assert CheckEmployee(es, data, true) == Accepted(None);
    assert CheckDate(data, true) == Accepted(Some(d));
    assert CheckStatus(data, true) == Accepted(None);
  }

  /** The check as written lets a partial update move a record onto the
      date of another record of the same employee: record 2 of employee 1
      is moved from 2024-01-02 onto 2024-01-01, which record 1 already
      holds. The corrected check refuses the same request. */
  lemma PartialUpdateMissesDuplicate()
    ensures var es := [Employee(1, "EMP-1", "Ann Lee", "ann@x.io", "HR")];
            var rs := [Attendance(1, 1, "2024-01-01", PRESENT), Attendance(2, 1, "2024-01-02", ABSENT)];
            var data := map["date" := Str("2024-01-01")];
            var input := AttendanceInput(None, Some("2024-01-01"), None);
            && ValidateFields(es, data, true) == Ok(input)
            && ValidateAttendanceAsWritten(es, rs, Some(rs[1]), data, true) == Ok(input)
            && !UniqueRecords(rs[1 := Updated(rs[1], input)])
            && ValidateAttendance(es, rs, Some(rs[1]), data, true).Err?
  {
    var es := [Employee(1, "EMP-1", "Ann Lee", "ann@x.io", "HR")];
    var rs := [Attendance(1, 1, "2024-01-01", PRESENT), Attendance(2, 1, "2024-01-02", ABSENT)];
    assert IsIsoDate("2024-01-01") by {
      var s := "2024-01-01";
      assert s[..4] == "2024" && s[5..7] == "01" && s[8..] == "01";
    }
    DateMoveMissed(es, rs, 0, 1);
  }

  /** The same for any two records of one employee: a partial update that
      moves the second onto the first one's date passes the check as
      written, breaks uniqueness, and is refused by the corrected check. */
  lemma DateMoveMissed(es: seq<Employee>, rs: seq<Attendance>, j: nat, k: nat)
    requires j < |rs| && k < |rs| && rs[j].pk != rs[k].pk && rs[j].employee == rs[k].employee
    requires IsIsoDate(rs[j].date)
    ensures var data := map["date" := Str(rs[j].date)];
            var input := AttendanceInput(None, Some(rs[j].date), None);
            && ValidateFields(es, data, true) == Ok(input)
            && ValidateAttendanceAsWritten(es, rs, Some(rs[k]), data, true) == Ok(input)
            && !UniqueRecords(rs[k := Updated(rs[k], input)])
            && ValidateAttendance(es, rs, Some(rs[k]), data, true).Err?
  {
    var d := rs[j].date;
    var input := AttendanceInput(None, Some(d), None);
    DateOnlyPatch(es, d);
    assert ValidateUniqueAsWritten(rs, Some(rs[k]), input) == Ok(input);
    var moved := rs[k := Updated(rs[k], input)];
    assert moved[j].employee == moved[k].employee && moved[j].date == moved[k].date;
    if j < k {
      assert !DistinctRecords(moved[j], moved[k]);
    } else {
      assert !DistinctRecords(moved[k], moved[j]);
    }
    assert Clashes(rs, Some(rs[k]), rs[k].employee, d);
  }

  /** id, created_at and the three copied owner fields are read-only: what
      the client sends under those keys makes no difference. */
  lemma ReadOnlyFieldsIgnored(es: seq<Employee>, rs: seq<Attendance>, instance: Option<Attendance>, data: Body, partial: bool)
    ensures var d := data - {"id", "created_at", "employee_name", "employee_id_code", "department"};
            ValidateAttendance(es, rs, instance, data, partial) == ValidateAttendance(es, rs, instance, d, partial)
  {
    var d := data - {"id", "created_at", "employee_name", "employee_id_code", "department"};
    SameWritableFields(es, data, d, partial);
  }

  /** Two bodies that agree on the three writable keys validate alike. */
  lemma SameWritableFields(es: seq<Employee>, data: Body, d: Body, partial: bool)
    requires forall k :: k in {"employee", "date", "status"} ==> (k in data <==> k in d) && (k in data ==> data[k] == d[k])
    ensures ValidateFields(es, data, partial) == ValidateFields(es, d, partial)
  {
    assert CheckEmployee(es, data, partial) == CheckEmployee(es, d, partial);
    assert CheckDate(data, partial) == CheckDate(d, partial);
    assert CheckStatus(data, partial) == CheckStatus(d, partial);
  }


  // ---------------------------------------------------------------------
  // Read side
  // ---------------------------------------------------------------------

  /** A record as the serializer writes it out: employee_name,
      employee_id_code and department are those of the owning employee. */
  function ToView(es: seq<Employee>, r: Attendance): (v: AttendanceView)
    requires HasEmployee(es, r.employee)
    ensures v.id == r.pk && v.employee == r.employee && v.date == r.date && v.status == r.status
    ensures exists i :: 0 <= i < |es| && es[i].pk == r.employee
              && v.employeeName == es[i].fullName && v.employeeIdCode == es[i].employeeId
              && v.department == es[i].department
  {
    var owner := FindEmployee(es, r.employee).value;
    AttendanceView(r.pk, r.employee, owner.fullName, owner.employeeId, owner.department, r.date, r.status)
  }

  /** The records of a query, written out in order. */
  function ToViews(es: seq<Employee>, rs: seq<Attendance>): (vs: seq<AttendanceView>)
    requires forall i :: 0 <= i < |rs| ==> HasEmployee(es, rs[i].employee)
    ensures |vs| == |rs|
    ensures forall i :: 0 <= i < |rs| ==> vs[i] == ToView(es, rs[i])
  {
    seq(|rs|, i requires 0 <= i < |rs| => ToView(es, rs[i]))
  }
}
