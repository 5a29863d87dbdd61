/** The page of one employee's attendance: the employee's card, the totals
    and attendance rate, the records within an optional date range, the
    mark-attendance dialog and per-row deletion. */
module EmployeeAttendancePage {
  import opened Outcomes
  import opened Text
  import opened Seqs
  import opened Records
  import opened PageState
  import AttendanceViews

  const EMPLOYEE: string := "employee"
  const DATE: string := "date"
  const STATUS: string := "status"
  const START_DATE: string := "start_date"
  const END_DATE: string := "end_date"

  const MARK_FAILED_MSG: string := "Failed to mark attendance."
  const MARKED_MSG: string := "Attendance marked!"
  const RECORD_DELETED_MSG: string := "Record deleted."
  const DELETE_FAILED_MSG: string := "Failed to delete."

  /** The draft of the mark dialog: `today` and Present. */
  function MarkForm(today: Date): Form {
    map[DATE := today, STATUS := PRESENT]
  }

  /** The query of the attendance request: a bound goes out exactly when it
      is non-empty. */
  function RangeParams(startDate: string, endDate: string): (q: Query)
    ensures q.Keys <= {START_DATE, END_DATE}
    ensures START_DATE in q <==> startDate != ""
    ensures END_DATE in q <==> endDate != ""
    ensures START_DATE in q ==> q[START_DATE] == startDate
    ensures END_DATE in q ==> q[END_DATE] == endDate
  {
    var q1: Query := if startDate != "" then map[START_DATE := startDate] else map[];
    if endDate != "" then q1[END_DATE := endDate] else q1
  }

  /** Bounds taken from the date inputs (empty, or a date) are accepted by
      the endpoint and restrict the records to exactly that range. */
  lemma PageRangeReachesServer(pk: Pk, startDate: string, endDate: string)
    requires startDate == "" || IsIsoDate(startDate)
    requires endDate == "" || IsIsoDate(endDate)
    ensures AttendanceViews.RangeCriteria(pk, RangeParams(startDate, endDate))
            == Ok(AttendanceViews.Criteria(
                 Some(pk), None,
                 if startDate == "" then None else Some(startDate),
                 if endDate == "" then None else Some(endDate),
                 None))
  {
  }

  /** The create request: the draft with the employee set to the integer
      parse of the route's id (`routeEmployee`), whatever the draft holds. */
  function CreateBody(form: Form, routeEmployee: Value): (b: Body)
    ensures EMPLOYEE in b && b[EMPLOYEE] == routeEmployee
    ensures forall k :: k != EMPLOYEE ==> (k in b <==> k in form)
    ensures forall k :: k in form && k != EMPLOYEE ==> b[k] == Str(form[k])
  {
    FormBody(form)[EMPLOYEE := routeEmployee]
  }

  /** A route id in decimal reaches the server as the employee's key,
      whatever the draft holds. */
  lemma CreateBodySendsRouteEmployee(form: Form, pk: Pk)
    ensures CreateBody(form, IntValue(NatToString(pk)))[EMPLOYEE] == Num(pk)
  {
    ParseIntRoundTrip(pk);
  }

  // ---------------------------------------------------------------------
  // The attendance rate
  // ---------------------------------------------------------------------

  /** `Math.round(total_present / count * 100)`, 0 for no records; in
      integers, present/count*100 + 1/2 rounded down. */
  function Rate(totalPresent: nat, count: nat): (r: int)
    ensures count == 0 ==> r == 0
    ensures count > 0 ==> 2 * count * r - count <= 200 * totalPresent < 2 * count * r + count
  {
    if count > 0 then
      var a := 200 * totalPresent + count;
      var b := 2 * count;
      assert a == b * (a / b) + a % b && 0 <= a % b < b;
      a / b
    else 0
  }

  lemma MulLe(c: nat, x: int, y: int)
    requires x <= y
    ensures c * x <= c * y
  {
  }

  /** With no more present days than records the rate is a percentage. */
  lemma RateBounds(totalPresent: nat, count: nat)
    requires totalPresent <= count
    ensures 0 <= Rate(totalPresent, count) <= 100
  {
    if count > 0 {
      var r := Rate(totalPresent, count);
      if r < 0 {
        MulLe(2 * count, r, -1);
      } else if r > 100 {
        MulLe(2 * count, 101, r);
      }
    }
  }

  /** The colour of the rate card. */
  function RateColor(rate: int): (color: string)
    ensures color == "success" || color == "warning"
    ensures color == "success" <==> rate >= 75
  {
    if rate >= 75 then "success" else "warning"
  }

  /** The card is green exactly when at least 74.5% of the records are
      Present days. */
  lemma RateColorMeaning(totalPresent: nat, count: nat)
    requires count > 0
    ensures RateColor(Rate(totalPresent, count)) == "success" <==> 200 * totalPresent >= 149 * count
  {
    var r := Rate(totalPresent, count);
    if r >= 75 {
      MulLe(2 * count, 75, r);
    } else {
      MulLe(2 * count, r, 74);
    }
  }

  /** The figures the endpoint returns always give a rate between 0 and
      100. */
  lemma ServerRateInRange(es: seq<Employee>, rs: seq<Attendance>, pk: Pk, q: Query)
    requires AttendanceViews.OwnersExist(es, rs)
    requires AttendanceViews.EmployeeAttendance(es, rs, pk, q).status == HTTP_200_OK
    ensures var d := AttendanceViews.EmployeeAttendance(es, rs, pk, q).payload.data;
            0 <= Rate(d.totalPresent, d.count) <= 100
  {
    var d := AttendanceViews.EmployeeAttendance(es, rs, pk, q).payload.data;
    assert d.totalPresent <= d.count;
    RateBounds(d.totalPresent, d.count);
  }

  // ---------------------------------------------------------------------
  // The page
  // ---------------------------------------------------------------------

  class Page {
    /** The `:id` segment of the route. */
    const routeId: string
    /** `parseInt(id)`; the id does not change while the page is shown, so
        it is parsed once. */
    const routeEmployee: Value
    /** The date when the page module was loaded. */
    const today: Date
    var employee: Option<EmployeeView>
    var attendance: Option<EmployeeAttendanceData>
    var loading: bool
    var error: Option<string>
    var showMark: bool
    var form: Form
    var formErrors: FormErrors
    var submitting: bool
    var alert: Option<Alert>
    var deleting: Option<Pk>
    var startDate: string
    var endDate: string

    /** The state before the first render; `today` is the date when the
        page module was loaded. */
    constructor(id: string, today: Date)
      ensures routeId == id && routeEmployee == IntValue(id) && this.today == today
      ensures employee == None && attendance == None && loading && error == None
      ensures !showMark && form == MarkForm(today) && formErrors == map[] && !submitting
      ensures alert == None && deleting == None && startDate == "" && endDate == ""
    {
      routeId := id;
      routeEmployee := IntValue(id);
      this.today := today;
      employee := None;
      attendance := None;
      loading := true;
      error := None;
      showMark := false;
      form := MarkForm(today);
      formErrors := map[];
      submitting := false;
      alert := None;
      deleting := None;
      startDate := "";
      endDate := "";
    }

    /** load, up to the requests: the spinner is on, the error cleared, and
        the range query is filled one bound at a time. */
    method BeginLoad() returns (params: Query)
      modifies this
      ensures loading && error == None
      ensures params == RangeParams(startDate, endDate)
      ensures employee == old(employee) && attendance == old(attendance) && showMark == old(showMark)
      ensures form == old(form) && formErrors == old(formErrors) && submitting == old(submitting)
      ensures alert == old(alert) && deleting == old(deleting)
      ensures startDate == old(startDate) && endDate == old(endDate)
    {
      loading := true;
      error := None;
      params := map[];
      if startDate != "" {
        params := params[START_DATE := startDate];
      }
      if endDate != "" {
        params := params[END_DATE := endDate];
      }
    }

    /** load, once both requests settle: the employee and the attendance,
        or the error message; the spinner off. */
    method FinishLoad(outcome: Outcome<(EmployeeView, EmployeeAttendanceData)>)
      modifies this
      ensures !loading
      ensures outcome.Success? ==>
                && employee == Some(outcome.value.0) && attendance == Some(outcome.value.1)
                && error == old(error)
      ensures outcome.Failed? ==>
                && employee == old(employee) && attendance == old(attendance)
                && error == Some(outcome.failure.message)
      ensures showMark == old(showMark) && form == old(form) && formErrors == old(formErrors)
      ensures submitting == old(submitting) && alert == old(alert) && deleting == old(deleting)
      ensures startDate == old(startDate) && endDate == old(endDate)
    {
      match outcome {
        case Success((e, a)) =>
          employee := Some(e);
          attendance := Some(a);
        case Failed(f) =>
          error := Some(f.message);
      }
      loading := false;
    }

    method SetStartDate(value: string)
      modifies this
      ensures startDate == value && endDate == old(endDate)
      ensures employee == old(employee) && attendance == old(attendance) && loading == old(loading)
      ensures error == old(error) && showMark == old(showMark) && form == old(form)
      ensures formErrors == old(formErrors) && submitting == old(submitting)
      ensures alert == old(alert) && deleting == old(deleting)
    {
      startDate := value;
    }

    method SetEndDate(value: string)
      modifies this
      ensures endDate == value && startDate == old(startDate)
      ensures employee == old(employee) && attendance == old(attendance) && loading == old(loading)
      ensures error == old(error) && showMark == old(showMark) && form == old(form)
      ensures formErrors == old(formErrors) && submitting == old(submitting)
      ensures alert == old(alert) && deleting == old(deleting)
    {
      endDate := value;
    }

    /** The "Clear" button of the range: afterwards no bound is sent. */
    method ClearRange()
      modifies this
      ensures startDate == "" && endDate == "" && RangeParams(startDate, endDate) == map[]
      ensures employee == old(employee) && attendance == old(attendance) && loading == old(loading)
      ensures error == old(error) && showMark == old(showMark) && form == old(form)
      ensures formErrors == old(formErrors) && submitting == old(submitting)
      ensures alert == old(alert) && deleting == old(deleting)
    {
      startDate := "";
      endDate := "";
    }

    /** The "Mark Attendance" button: the draft is today and Present, no
        errors, the dialog open. */
    method OpenMark()
      modifies this
      ensures form == MarkForm(today) && formErrors == map[] && showMark
      ensures employee == old(employee) && attendance == old(attendance) && loading == old(loading)
      ensures error == old(error) && submitting == old(submitting)
      ensures alert == old(alert) && deleting == old(deleting)
      ensures startDate == old(startDate) && endDate == old(endDate)
    {
      form := MarkForm(today);
      formErrors := map[];
      showMark := true;
    }

    /** The mark dialog's Cancel button and close: the dialog is hidden, the
        draft and its errors are kept. */
    method CloseMark()
      modifies this
      ensures !showMark
      ensures form == old(form) && formErrors == old(formErrors)
      ensures employee == old(employee) && attendance == old(attendance) && loading == old(loading)
      ensures error == old(error) && submitting == old(submitting)
      ensures alert == old(alert) && deleting == old(deleting)
      ensures startDate == old(startDate) && endDate == old(endDate)
    {
      showMark := false;
    }

    /** The alert's close button. */
    method DismissAlert()
      modifies this
      ensures alert == None
      ensures showMark == old(showMark) && form == old(form) && formErrors == old(formErrors)
      ensures employee == old(employee) && attendance == old(attendance) && loading == old(loading)
      ensures error == old(error) && submitting == old(submitting) && deleting == old(deleting)
      ensures startDate == old(startDate) && endDate == old(endDate)
    {
      alert := None;
    }

    /** handleChange */
    method Change(name: string, value: string)
      modifies this
      ensures form == ChangeForm(old(form), name, value)
      ensures formErrors == ClearError(old(formErrors), name)
      ensures employee == old(employee) && attendance == old(attendance) && loading == old(loading)
      ensures error == old(error) && showMark == old(showMark) && submitting == old(submitting)
      ensures alert == old(alert) && deleting == old(deleting)
      ensures startDate == old(startDate) && endDate == old(endDate)
    {
      form := form[name := value];
      formErrors := formErrors[name := None];
    }

    /** handleSubmit, up to the request: the draft goes out with the
        employee taken from the route. */
    method BeginSubmit() returns (body: Body)
      modifies this
      ensures submitting && formErrors == map[]
      ensures body == CreateBody(form, routeEmployee)
      ensures employee == old(employee) && attendance == old(attendance) && loading == old(loading)
      ensures error == old(error) && showMark == old(showMark) && form == old(form)
      ensures alert == old(alert) && deleting == old(deleting)
      ensures startDate == old(startDate) && endDate == old(endDate)
    {
      body := CreateBody(form, routeEmployee);
      submitting := true;
      formErrors := map[];
    }

    /** handleSubmit, once the create request settles. On failure the
        errors are flattened first and the flattened object is tested for
        keys, which yields what the other pages show. */
    method FinishSubmit(outcome: Outcome<()>) returns (reload: Option<Query>)
      modifies this
      ensures !submitting
      ensures outcome.Success? ==>
                && !showMark && alert == Some(Alert(SuccessAlert, MARKED_MSG))
                && loading && error == None
                && reload == Some(RangeParams(startDate, endDate))
                && formErrors == old(formErrors)
      ensures outcome.Failed? ==>
                && showMark == old(showMark) && alert == old(alert)
                && loading == old(loading) && error == old(error) && reload == None
                && formErrors == SubmitErrorsViaFlat(outcome.failure, MARK_FAILED_MSG)
                && formErrors == SubmitErrors(outcome.failure, MARK_FAILED_MSG)
      ensures employee == old(employee) && attendance == old(attendance) && form == old(form)
      ensures deleting == old(deleting) && startDate == old(startDate) && endDate == old(endDate)
    {
      match outcome {
        case Success(_) =>
          showMark := false;
          alert := Some(Alert(SuccessAlert, MARKED_MSG));
          var params := BeginLoad();
          reload := Some(params);
        case Failed(f) =>
          var flat := Flatten(ServerErrors(f));
          if |flat.Keys| > 0 {
            formErrors := flat;
          } else {
            formErrors := map[GENERAL := Some(DetailOr(f, MARK_FAILED_MSG))];
          }
          SubmitErrorsAgree(f, MARK_FAILED_MSG);
          reload := None;
      }
      submitting := false;
    }

    /** handleDelete, up to the request: the row's marker is on. */
    method BeginDelete(recId: Pk)
      modifies this
      ensures deleting == Some(recId)
      ensures employee == old(employee) && attendance == old(attendance) && loading == old(loading)
      ensures error == old(error) && showMark == old(showMark) && form == old(form)
      ensures formErrors == old(formErrors) && submitting == old(submitting) && alert == old(alert)
      ensures startDate == old(startDate) && endDate == old(endDate)
    {
      deleting := Some(recId);
    }

    /** handleDelete, once the delete request settles: the marker is off
        whatever the outcome; success starts a reload. */
    method FinishDelete(outcome: Outcome<()>) returns (reload: Option<Query>)
      modifies this
      ensures deleting == None
      ensures outcome.Success? ==>
                && alert == Some(Alert(SuccessAlert, RECORD_DELETED_MSG))
                && loading && error == None
                && reload == Some(RangeParams(startDate, endDate))
      ensures outcome.Failed? ==>
                && alert == Some(Alert(ErrorAlert, DELETE_FAILED_MSG))
                && loading == old(loading) && error == old(error) && reload == None
      ensures employee == old(employee) && attendance == old(attendance) && showMark == old(showMark)
      ensures form == old(form) && formErrors == old(formErrors) && submitting == old(submitting)
      ensures startDate == old(startDate) && endDate == old(endDate)
    {
      if outcome.Success? {
        alert := Some(Alert(SuccessAlert, RECORD_DELETED_MSG));
        var params := BeginLoad();
        reload := Some(params);
      } else {
        alert := Some(Alert(ErrorAlert, DELETE_FAILED_MSG));
        reload := None;
      }
      deleting := None;
    }
  }
}
