/** The attendance page: every record with three optional filters, the
    mark-attendance dialog and per-row deletion. */
module AttendancePage {
  import opened Outcomes
  import opened Text
  import opened Seqs
  import opened Records
  import opened PageState
  import AttendanceViews

  const EMPLOYEE: string := "employee"
  const DATE: string := "date"
  const STATUS: string := "status"
  const EMPLOYEE_ID_PARAM: string := "employee_id"

  const SELECT_EMPLOYEE_MSG: string := "Please select an employee."
  const MARK_FAILED_MSG: string := "Failed to mark attendance."
  const MARKED_MSG: string := "Attendance marked successfully!"
  const RECORD_DELETED_MSG: string := "Attendance record deleted."
  const DELETE_FAILED_MSG: string := "Failed to delete record."

  /** EMPTY_FORM: no employee, `today` (the date when the page module was
      loaded), Present. */
  function EmptyForm(today: Date): Form {
    map[EMPLOYEE := "", DATE := today, STATUS := PRESENT]
  }

  /** The query of the list request: a filter goes out exactly when it is
      non-empty, under its own parameter name. */
  function ListParams(filterDate: string, filterStatus: string, filterEmployee: string): (q: Query)
    ensures q.Keys <= {DATE, STATUS, EMPLOYEE_ID_PARAM}
    ensures DATE in q <==> filterDate != ""
    ensures STATUS in q <==> filterStatus != ""
    ensures EMPLOYEE_ID_PARAM in q <==> filterEmployee != ""
    ensures DATE in q ==> q[DATE] == filterDate
    ensures STATUS in q ==> q[STATUS] == filterStatus
    ensures EMPLOYEE_ID_PARAM in q ==> q[EMPLOYEE_ID_PARAM] == filterEmployee
  {
    var q1: Query := if filterDate != "" then map[DATE := filterDate] else map[];
    var q2 := if filterStatus != "" then q1[STATUS := filterStatus] else q1;
    if filterEmployee != "" then q2[EMPLOYEE_ID_PARAM := filterEmployee] else q2
  }

  /** The filters the list endpoint reads from the page's query: with the
      date filter empty or a date from the date input, and the employee
      filter empty or an option of the employee select (an id written in
      decimal), the request is accepted and filters exactly by what the page
      selected. */
  lemma PageFiltersReachServer(filterDate: string, filterStatus: string, employee: Option<Pk>)
    requires filterDate == "" || IsIsoDate(filterDate)
    ensures var filterEmployee := if employee.Some? then NatToString(employee.value) else "";
            AttendanceViews.ListCriteria(ListParams(filterDate, filterStatus, filterEmployee))
            == Ok(AttendanceViews.Criteria(
                 employee,
                 if filterDate == "" then None else Some(filterDate),
                 None, None,
                 if filterStatus == "" then None else Some(filterStatus)))
  {
    var filterEmployee := if employee.Some? then NatToString(employee.value) else "";
    var q := ListParams(filterDate, filterStatus, filterEmployee);
    if employee.Some? {
      PyIntRoundTrip(employee.value);
      assert NatToString(employee.value) != "";
      assert PyInt(q[EMPLOYEE_ID_PARAM]) == employee;
    }
    assert AttendanceViews.PkParam(q, "employee_id") == Ok(employee);
    if filterDate != "" {
      assert ParseDate(filterDate) == Some(filterDate);
    }
    assert AttendanceViews.DateParam(q, "date") == Ok(if filterDate == "" then None else Some(filterDate));
    assert "start_date" !in q && "end_date" !in q;
    assert AttendanceViews.DateParam(q, "start_date") == Ok(None);
    assert AttendanceViews.DateParam(q, "end_date") == Ok(None);
    assert AttendanceViews.Param(q, "status") == if filterStatus == "" then None else Some(filterStatus);
  }

  /** The create request: the draft with the employee replaced by its
      integer parse. */
  function CreateBody(form: Form): (b: Body)
    ensures EMPLOYEE in b && b[EMPLOYEE] == IntValue(FieldText(form, EMPLOYEE))
    ensures forall k :: k != EMPLOYEE ==> (k in b <==> k in form)
    ensures forall k :: k in form && k != EMPLOYEE ==> b[k] == Str(form[k])
  {
    var v := IntValue(FieldText(form, EMPLOYEE));
    FormBody(form)[EMPLOYEE := v]
  }

  /** An employee chosen in the select reaches the server as its key. */
  lemma CreateBodySendsChosenEmployee(form: Form, pk: Pk)
    requires EMPLOYEE in form && form[EMPLOYEE] == NatToString(pk)
    ensures CreateBody(form)[EMPLOYEE] == Num(pk)
  {
    ParseIntRoundTrip(pk);
  }

  /** `!form.employee`: no employee chosen. */
  predicate NoEmployeeChosen(form: Form) {
    EMPLOYEE !in form || form[EMPLOYEE] == ""
  }

  function IsPresent(r: AttendanceView): bool { r.status == PRESENT }
  function IsAbsent(r: AttendanceView): bool { r.status == ABSENT }

  /** The header's Present count: none exactly when no record shown is
      marked Present. */
  function PresentCount(records: seq<AttendanceView>): (n: nat)
    ensures n <= |records|
    ensures n == 0 <==> forall i :: 0 <= i < |records| ==> records[i].status != PRESENT
  {
    var f := Filter(records, IsPresent);
    assert |f| > 0 ==> f[0] in records;
    |f|
  }

  /** The header's Absent count, likewise. */
  function AbsentCount(records: seq<AttendanceView>): (n: nat)
    ensures n <= |records|
    ensures n == 0 <==> forall i :: 0 <= i < |records| ==> records[i].status != ABSENT
  {
    var f := Filter(records, IsAbsent);
    assert |f| > 0 ==> f[0] in records;
    |f|
  }

  /** The header's counts never exceed the number of records, and account
      for all of them when every status is Present or Absent. */
  lemma CountsAddUp(records: seq<AttendanceView>)
    ensures PresentCount(records) + AbsentCount(records) <= |records|
    ensures (forall i :: 0 <= i < |records| ==> IsStatus(records[i].status)) ==>
              PresentCount(records) + AbsentCount(records) == |records|
  {
    FilterDisjoint(records, IsPresent, IsAbsent);
    if forall i :: 0 <= i < |records| ==> IsStatus(records[i].status) {
      FilterPartition(records, IsPresent, IsAbsent);
    }
  }

  class Page {
    /** The date when the page module was loaded. */
    const today: Date
    var records: seq<AttendanceView>
    var employees: seq<EmployeeView>
    var loading: bool
    var error: Option<string>
    var showMark: bool
    var form: Form
    var formErrors: FormErrors
    var submitting: bool
    var alert: Option<Alert>
    var deleting: Option<Pk>
    var filterDate: string
    var filterStatus: string
    var filterEmployee: string

    /** The state before the first render; `today` is the date when the
        page module was loaded. */
    constructor(today: Date)
      ensures this.today == today
      ensures records == [] && employees == [] && loading && error == None
      ensures !showMark && form == EmptyForm(today) && formErrors == map[] && !submitting
      ensures alert == None && deleting == None
      ensures filterDate == "" && filterStatus == "" && filterEmployee == ""
    {
      this.today := today;
      records := [];
      employees := [];
      loading := true;
      error := None;
      showMark := false;
      form := EmptyForm(today);
      formErrors := map[];
      submitting := false;
      alert := None;
      deleting := None;
      filterDate := "";
      filterStatus := "";
      filterEmployee := "";
    }

    /** `hasFilters`: a filter is active exactly when the list request
        carries a query. */
    predicate HasFilters()
      reads this
      ensures HasFilters() <==> ListParams(filterDate, filterStatus, filterEmployee) != map[]
    {
      var q := ListParams(filterDate, filterStatus, filterEmployee);
      assert q != map[] ==> DATE in q || STATUS in q || EMPLOYEE_ID_PARAM in q;
      assert filterDate != "" ==> DATE in q;
      filterDate != "" || filterStatus != "" || filterEmployee != ""
    }

    /** load, up to the requests: the spinner is on, the error cleared, and
        the query is filled one filter at a time. */
    method BeginLoad() returns (params: Query)
      modifies this
      ensures loading && error == None
      ensures params == ListParams(filterDate, filterStatus, filterEmployee)
      ensures records == old(records) && employees == old(employees) && showMark == old(showMark)
      ensures form == old(form) && formErrors == old(formErrors) && submitting == old(submitting)
      ensures alert == old(alert) && deleting == old(deleting)
      ensures filterDate == old(filterDate) && filterStatus == old(filterStatus) && filterEmployee == old(filterEmployee)
    {
      loading := true;
      error := None;
      params := map[];
      if filterDate != "" {
        params := params[DATE := filterDate];
      }
      if filterStatus != "" {
        params := params[STATUS := filterStatus];
      }
      if filterEmployee != "" {
        params := params[EMPLOYEE_ID_PARAM := filterEmployee];
      }
    }

    /** load, once both requests settle: the records and the employees, or
        the error message; the spinner off. */
    method FinishLoad(outcome: Outcome<(seq<AttendanceView>, seq<EmployeeView>)>)
      modifies this
      ensures !loading
      ensures outcome.Success? ==>
                records == outcome.value.0 && employees == outcome.value.1 && error == old(error)
      ensures outcome.Failed? ==>
                records == old(records) && employees == old(employees) && error == Some(outcome.failure.message)
      ensures showMark == old(showMark) && form == old(form) && formErrors == old(formErrors)
      ensures submitting == old(submitting) && alert == old(alert) && deleting == old(deleting)
      ensures filterDate == old(filterDate) && filterStatus == old(filterStatus) && filterEmployee == old(filterEmployee)
    {
      match outcome {
        case Success((rs, es)) =>
          records := rs;
          employees := es;
        case Failed(f) =>
          error := Some(f.message);
      }
      loading := false;
    }

    method SetFilterDate(value: string)
      modifies this
      ensures filterDate == value
      ensures filterStatus == old(filterStatus) && filterEmployee == old(filterEmployee)
      ensures records == old(records) && employees == old(employees) && loading == old(loading)
      ensures error == old(error) && showMark == old(showMark) && form == old(form)
      ensures formErrors == old(formErrors) && submitting == old(submitting)
      ensures alert == old(alert) && deleting == old(deleting)
    {
      filterDate := value;
    }

    method SetFilterStatus(value: string)
      modifies this
      ensures filterStatus == value
      ensures filterDate == old(filterDate) && filterEmployee == old(filterEmployee)
      ensures records == old(records) && employees == old(employees) && loading == old(loading)
      ensures error == old(error) && showMark == old(showMark) && form == old(form)
      ensures formErrors == old(formErrors) && submitting == old(submitting)
      ensures alert == old(alert) && deleting == old(deleting)
    {
      filterStatus := value;
    }

    method SetFilterEmployee(value: string)
      modifies this
      ensures filterEmployee == value
      ensures filterDate == old(filterDate) && filterStatus == old(filterStatus)
      ensures records == old(records) && employees == old(employees) && loading == old(loading)
      ensures error == old(error) && showMark == old(showMark) && form == old(form)
      ensures formErrors == old(formErrors) && submitting == old(submitting)
      ensures alert == old(alert) && deleting == old(deleting)
    {
      filterEmployee := value;
    }

    /** clearFilters: afterwards no filter is active. */
    method ClearFilters()
      modifies this
      ensures !HasFilters()
      ensures filterDate == "" && filterStatus == "" && filterEmployee == ""
      ensures records == old(records) && employees == old(employees) && loading == old(loading)
      ensures error == old(error) && showMark == old(showMark) && form == old(form)
      ensures formErrors == old(formErrors) && submitting == old(submitting)
      ensures alert == old(alert) && deleting == old(deleting)
    {
      filterDate := "";
      filterStatus := "";
      filterEmployee := "";
    }

    /** The "Mark Attendance" button: a fresh draft, no errors, the dialog
        open. */
    method OpenMark()
      modifies this
      ensures form == EmptyForm(today) && formErrors == map[] && showMark
      ensures NoEmployeeChosen(form)
      ensures records == old(records) && employees == old(employees) && loading == old(loading)
      ensures error == old(error) && submitting == old(submitting)
      ensures alert == old(alert) && deleting == old(deleting)
      ensures filterDate == old(filterDate) && filterStatus == old(filterStatus) && filterEmployee == old(filterEmployee)
    {
      form := EmptyForm(today);
      formErrors := map[];
      showMark := true;
    }

    /** The mark dialog's Cancel button and close: the dialog is hidden, the
        draft and its errors are kept. */
    method CloseMark()
      modifies this
      ensures !showMark
      ensures form == old(form) && formErrors == old(formErrors)
      ensures records == old(records) && employees == old(employees) && loading == old(loading)
      ensures error == old(error) && submitting == old(submitting)
      ensures alert == old(alert) && deleting == old(deleting)
      ensures filterDate == old(filterDate) && filterStatus == old(filterStatus) && filterEmployee == old(filterEmployee)
    {
      showMark := false;
    }

    /** The alert's close button. */
    method DismissAlert()
      modifies this
      ensures alert == None
      ensures showMark == old(showMark) && form == old(form) && formErrors == old(formErrors)
      ensures records == old(records) && employees == old(employees) && loading == old(loading)
      ensures error == old(error) && submitting == old(submitting) && deleting == old(deleting)
      ensures filterDate == old(filterDate) && filterStatus == old(filterStatus) && filterEmployee == old(filterEmployee)
    {
      alert := None;
    }

    /** handleChange */
    method Change(name: string, value: string)
      modifies this
      ensures form == ChangeForm(old(form), name, value)
      ensures formErrors == ClearError(old(formErrors), name)
      ensures records == old(records) && employees == old(employees) && loading == old(loading)
      ensures error == old(error) && showMark == old(showMark) && submitting == old(submitting)
      ensures alert == old(alert) && deleting == old(deleting)
      ensures filterDate == old(filterDate) && filterStatus == old(filterStatus) && filterEmployee == old(filterEmployee)
    {
      form := form[name := value];
      formErrors := formErrors[name := None];
    }

    /** handleSubmit, up to the request. With no employee chosen only the
        employee error is set and nothing is sent; otherwise the create
        request goes out with the employee as an integer. */
    method BeginSubmit() returns (request: Option<Body>)
      modifies this
      ensures NoEmployeeChosen(form) ==>
                && request == None && !submitting
                && formErrors == map[EMPLOYEE := Some(SELECT_EMPLOYEE_MSG)]
      ensures !NoEmployeeChosen(form) ==>
                request == Some(CreateBody(form)) && submitting && formErrors == map[]
      ensures records == old(records) && employees == old(employees) && loading == old(loading)
      ensures error == old(error) && showMark == old(showMark) && form == old(form)
      ensures alert == old(alert) && deleting == old(deleting)
      ensures filterDate == old(filterDate) && filterStatus == old(filterStatus) && filterEmployee == old(filterEmployee)
    {
      submitting := true;
      formErrors := map[];
      if NoEmployeeChosen(form) {
        formErrors := map[EMPLOYEE := Some(SELECT_EMPLOYEE_MSG)];
        submitting := false;
        request := None;
        return;
      }
      request := Some(CreateBody(form));
    }

    /** handleSubmit, once the create request settles: on success the dialog
        closes and a reload starts (its query is returned); on failure the
        errors are flattened into the form. */
    method FinishSubmit(outcome: Outcome<()>) returns (reload: Option<Query>)
      modifies this
      ensures !submitting
      ensures outcome.Success? ==>
                && !showMark && alert == Some(Alert(SuccessAlert, MARKED_MSG))
                && loading && error == None
                && reload == Some(ListParams(filterDate, filterStatus, filterEmployee))
                && formErrors == old(formErrors)
      ensures outcome.Failed? ==>
                && showMark == old(showMark) && alert == old(alert)
                && loading == old(loading) && error == old(error) && reload == None
                && formErrors == SubmitErrors(outcome.failure, MARK_FAILED_MSG)
      ensures records == old(records) && employees == old(employees) && form == old(form)
      ensures deleting == old(deleting)
      ensures filterDate == old(filterDate) && filterStatus == old(filterStatus) && filterEmployee == old(filterEmployee)
    {
      match outcome {
        case Success(_) =>
          showMark := false;
          alert := Some(Alert(SuccessAlert, MARKED_MSG));
          var params := BeginLoad();
          reload := Some(params);
        case Failed(f) =>
          var errors := ServerErrors(f);
          if |errors| > 0 {
            formErrors := Flatten(errors);
          } else {
            formErrors := map[GENERAL := Some(DetailOr(f, MARK_FAILED_MSG))];
          }
          reload := None;
      }
      submitting := false;
    }

    /** handleDelete, up to the request: the row's marker is on. */
    method BeginDelete(id: Pk)
      modifies this
      ensures deleting == Some(id)
      ensures records == old(records) && employees == old(employees) && loading == old(loading)
      ensures error == old(error) && showMark == old(showMark) && form == old(form)
      ensures formErrors == old(formErrors) && submitting == old(submitting) && alert == old(alert)
      ensures filterDate == old(filterDate) && filterStatus == old(filterStatus) && filterEmployee == old(filterEmployee)
    {
      deleting := Some(id);
    }

    /** handleDelete, once the delete request settles: the marker is off
        whatever the outcome; success starts a reload. */
    method FinishDelete(outcome: Outcome<()>) returns (reload: Option<Query>)
      modifies this
      ensures deleting == None
      ensures outcome.Success? ==>
                && alert == Some(Alert(SuccessAlert, RECORD_DELETED_MSG))
                && loading && error == None
                && reload == Some(ListParams(filterDate, filterStatus, filterEmployee))
      ensures outcome.Failed? ==>
                && alert == Some(Alert(ErrorAlert, DELETE_FAILED_MSG))
                && loading == old(loading) && error == old(error) && reload == None
      ensures records == old(records) && employees == old(employees) && showMark == old(showMark)
      ensures form == old(form) && formErrors == old(formErrors) && submitting == old(submitting)
      ensures filterDate == old(filterDate) && filterStatus == old(filterStatus) && filterEmployee == old(filterEmployee)
    {
      if outcome.Success? {
        alert := Some(Alert(SuccessAlert, RECORD_DELETED_MSG));
        var params := BeginLoad();
        reload := Some(params);
      } else {
        alert := Some(Alert(ErrorAlert, DELETE_FAILED_MSG));
        reload := None;
      }
      deleting := None;
    }
  }
}
