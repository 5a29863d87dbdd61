/** The employees page: the employee list with its search box, the add
    dialog and the delete confirmation. Each state hook is a field; each
    async handler is split at its `await` into a Begin step (up to the
    request) and a Finish step (given the settled outcome). */
module EmployeesPage {
  import opened Outcomes
  import opened Text
  import opened Seqs
  import opened Records
  import opened PageState

  const EMPLOYEE_ID: string := "employee_id"
  const FULL_NAME: string := "full_name"
  const EMAIL: string := "email"
  const DEPARTMENT: string := "department"

  const EMPTY_FORM: Form := map[EMPLOYEE_ID := "", FULL_NAME := "", EMAIL := "", DEPARTMENT := ""]

  const ADD_FAILED_MSG: string := "Failed to add employee."
  const DELETE_FAILED_MSG: string := "Failed to delete employee."

  function AddedMsg(name: string): string {
    "Employee \"" + name + "\" added successfully!"
  }

  function DeletedMsg(name: string): string {
    "Employee \"" + name + "\" deleted."
  }

  // ---------------------------------------------------------------------
  // The search filter
  // ---------------------------------------------------------------------

  /** The row test of `filtered`: an empty search keeps every row; otherwise
      the lower-cased search text must occur in the lower-cased name,
      employee ID, department or email. */
  predicate SearchMatches(e: EmployeeView, search: string)
    ensures SearchMatches(e, search) <==>
              || search == ""
              || Mentions(e.fullName, search) || Mentions(e.employeeId, search)
              || Mentions(e.department, search) || Mentions(e.email, search)
  {
    var q := ToLower(search);
    ContainsIff(ToLower(e.fullName), q);
    ContainsIff(ToLower(e.employeeId), q);
    ContainsIff(ToLower(e.department), q);
    ContainsIff(ToLower(e.email), q);
    || search == ""
    || Contains(ToLower(e.fullName), q)
    || Contains(ToLower(e.employeeId), q)
    || Contains(ToLower(e.department), q)
    || Contains(ToLower(e.email), q)
  }

  function Matching(search: string): EmployeeView -> bool {
    (e: EmployeeView) => SearchMatches(e, search)
  }

  /** The rows the table shows for a search text. */
  function Filtered(employees: seq<EmployeeView>, search: string): (r: seq<EmployeeView>)
    ensures |r| <= |employees|
    ensures forall i :: 0 <= i < |r| ==> r[i] in employees && SearchMatches(r[i], search)
    ensures forall i :: 0 <= i < |employees| && SearchMatches(employees[i], search) ==> employees[i] in r
  {
    Filter(employees, Matching(search))
  }

  /** `text` mentions `search` ignoring case: the lower-cased search text
      starts at some index of the lower-cased text. */
  ghost predicate Mentions(text: string, search: string) {
    exists i: nat :: OccursAt(ToLower(text), ToLower(search), i)
  }

  /** An empty search shows every employee, in the order loaded. */
  lemma EmptySearchShowsAll(employees: seq<EmployeeView>)
    ensures Filtered(employees, "") == employees
  {
    FilterAll(employees, Matching(""));
  }

  /** A non-empty search shows a loaded employee exactly when one of the four
      fields mentions it. */
  lemma SearchShowsExactly(employees: seq<EmployeeView>, search: string, e: EmployeeView)
    requires search != ""
    ensures e in Filtered(employees, search) <==>
              && e in employees
              && (Mentions(e.fullName, search) || Mentions(e.employeeId, search)
                  || Mentions(e.department, search) || Mentions(e.email, search))
  {
    var q := ToLower(search);
    ContainsIff(ToLower(e.fullName), q);
    ContainsIff(ToLower(e.employeeId), q);
    ContainsIff(ToLower(e.department), q);
    ContainsIff(ToLower(e.email), q);
    if e in employees && SearchMatches(e, search) {
      var i :| 0 <= i < |employees| && employees[i] == e;
      assert Matching(search)(employees[i]);
    }
  }

  /** The rows shown keep the order of the loaded list. */
  lemma FilteredKeepsOrder(employees: seq<EmployeeView>, search: string)
    ensures SubsequenceOf(Filtered(employees, search), employees)
  {
    FilterIsSubsequence(employees, Matching(search));
  }

  /** The search ignores the case of the search text. */
  lemma SearchIgnoresCase(employees: seq<EmployeeView>, search: string)
    ensures Filtered(employees, ToLower(search)) == Filtered(employees, search)
  {
    ToLowerIdempotent(search);
    FilterSame(employees, Matching(ToLower(search)), Matching(search));
  }

  // ---------------------------------------------------------------------
  // The page
  // ---------------------------------------------------------------------

  class Page {
    var employees: seq<EmployeeView>
    var loading: bool
    var error: Option<string>
    var showAdd: bool
    var form: Form
    var formErrors: FormErrors
    var submitting: bool
    var alert: Option<Alert>
    var deleteConfirm: Option<EmployeeView>
    var deleting: bool
    var search: string

    /** The state before the first render. */
    constructor()
      ensures employees == [] && loading && error == None && !showAdd
      ensures form == EMPTY_FORM && formErrors == map[] && !submitting
      ensures alert == None && deleteConfirm == None && !deleting && search == ""
    {
      employees := [];
      loading := true;
      error := None;
      showAdd := false;
      form := EMPTY_FORM;
      formErrors := map[];
      submitting := false;
      alert := None;
      deleteConfirm := None;
      deleting := false;
      search := "";
    }

    /** The rows the table shows (`filtered`). */
    function Shown(): (r: seq<EmployeeView>)
      reads this
      ensures SubsequenceOf(r, employees)
      ensures search == "" ==> r == employees
    {
      FilteredKeepsOrder(employees, search);
      EmptySearchShowsAll(employees);
      Filtered(employees, search)
    }

    /** load, up to the request: the spinner is on and the error cleared. */
    method BeginLoad()
      modifies this
      ensures loading && error == None
      ensures employees == old(employees) && showAdd == old(showAdd) && form == old(form)
      ensures formErrors == old(formErrors) && submitting == old(submitting) && alert == old(alert)
      ensures deleteConfirm == old(deleteConfirm) && deleting == old(deleting) && search == old(search)
    {
      loading := true;
      error := None;
    }

    /** load, once the list request settles: the list or the error message,
        and the spinner off. */
    method FinishLoad(outcome: Outcome<seq<EmployeeView>>)
      modifies this
      ensures !loading
      ensures outcome.Success? ==> employees == outcome.value && error == old(error)
      ensures outcome.Failed? ==> employees == old(employees) && error == Some(outcome.failure.message)
      ensures showAdd == old(showAdd) && form == old(form) && formErrors == old(formErrors)
      ensures submitting == old(submitting) && alert == old(alert)
      ensures deleteConfirm == old(deleteConfirm) && deleting == old(deleting) && search == old(search)
    {
      match outcome {
        case Success(results) =>
          employees := results;
        case Failed(f) =>
          error := Some(f.message);
      }
      loading := false;
    }

    /** The search box's onChange. */
    method SetSearch(text: string)
      modifies this
      ensures search == text && Shown() == Filtered(employees, text)
      ensures employees == old(employees) && loading == old(loading) && error == old(error)
      ensures showAdd == old(showAdd) && form == old(form) && formErrors == old(formErrors)
      ensures submitting == old(submitting) && alert == old(alert)
      ensures deleteConfirm == old(deleteConfirm) && deleting == old(deleting)
    {
      search := text;
    }

    /** The add dialog's Cancel button and close: the dialog is hidden, the
        draft and its errors are kept. */
    method CloseAdd()
      modifies this
      ensures !showAdd
      ensures form == old(form) && formErrors == old(formErrors)
      ensures employees == old(employees) && loading == old(loading) && error == old(error)
      ensures submitting == old(submitting) && alert == old(alert) && search == old(search)
      ensures deleteConfirm == old(deleteConfirm) && deleting == old(deleting)
    {
      showAdd := false;
    }

    /** The delete dialog's Cancel button and close: nothing is awaiting
        confirmation any more. */
    method CancelDelete()
      modifies this
      ensures deleteConfirm == None
      ensures employees == old(employees) && loading == old(loading) && error == old(error)
      ensures showAdd == old(showAdd) && form == old(form) && formErrors == old(formErrors)
      ensures submitting == old(submitting) && alert == old(alert) && search == old(search)
      ensures deleting == old(deleting)
    {
      deleteConfirm := None;
    }

    /** The alert's close button. */
    method DismissAlert()
      modifies this
      ensures alert == None
      ensures employees == old(employees) && loading == old(loading) && error == old(error)
      ensures showAdd == old(showAdd) && form == old(form) && formErrors == old(formErrors)
      ensures submitting == old(submitting) && search == old(search)
      ensures deleteConfirm == old(deleteConfirm) && deleting == old(deleting)
    {
      alert := None;
    }

    /** handleAddOpen: an empty draft, no errors, the dialog open. */
    method OpenAdd()
      modifies this
      ensures form == EMPTY_FORM && formErrors == map[] && showAdd
      ensures forall k :: k in form ==> form[k] == ""
      ensures employees == old(employees) && loading == old(loading) && error == old(error)
      ensures submitting == old(submitting) && alert == old(alert)
      ensures deleteConfirm == old(deleteConfirm) && deleting == old(deleting) && search == old(search)
    {
      form := EMPTY_FORM;
      formErrors := map[];
      showAdd := true;
    }

    /** handleChange: one input takes the new text and its error is
        cleared; nothing else changes. */
    method Change(name: string, value: string)
      modifies this
      ensures form == ChangeForm(old(form), name, value)
      ensures formErrors == ClearError(old(formErrors), name)
      ensures employees == old(employees) && loading == old(loading) && error == old(error)
      ensures showAdd == old(showAdd) && submitting == old(submitting) && alert == old(alert)
      ensures deleteConfirm == old(deleteConfirm) && deleting == old(deleting) && search == old(search)
    {
      form := form[name := value];
      formErrors := formErrors[name := None];
    }

    /** handleSubmit, up to the request: the form goes out as the request
        body and the handler keeps its own copy of the draft. */
    method BeginSubmit() returns (body: Body, sent: Form)
      modifies this
      ensures submitting && formErrors == map[]
      ensures sent == form && body == FormBody(form)
      ensures employees == old(employees) && loading == old(loading) && error == old(error)
      ensures showAdd == old(showAdd) && form == old(form) && alert == old(alert)
      ensures deleteConfirm == old(deleteConfirm) && deleting == old(deleting) && search == old(search)
    {
      submitting := true;
      formErrors := map[];
      sent := form;
      body := FormBody(form);
    }

    /** handleSubmit, once the create request settles. On success the
        dialog closes, the alert names the employee from the draft that was
        sent and a reload starts; on failure the errors are flattened into
        the form and the draft is kept. */
    method FinishSubmit(sent: Form, outcome: Outcome<()>) returns (reload: bool)
      modifies this
      ensures !submitting && reload == outcome.Success?
      ensures outcome.Success? ==>
                && !showAdd && loading && error == None
                && alert == Some(Alert(SuccessAlert, AddedMsg(FieldText(sent, FULL_NAME))))
                && formErrors == old(formErrors)
      ensures outcome.Failed? ==>
                && showAdd == old(showAdd) && loading == old(loading) && error == old(error)
                && alert == old(alert)
                && formErrors == SubmitErrors(outcome.failure, ADD_FAILED_MSG)
      ensures employees == old(employees) && form == old(form)
      ensures deleteConfirm == old(deleteConfirm) && deleting == old(deleting) && search == old(search)
    {
      match outcome {
        case Success(_) =>
          showAdd := false;
          alert := Some(Alert(SuccessAlert, AddedMsg(FieldText(sent, FULL_NAME))));
          BeginLoad();
          reload := true;
        case Failed(f) =>
          var errors := ServerErrors(f);
          if |errors| > 0 {
            formErrors := Flatten(errors);
          } else {
            formErrors := map[GENERAL := Some(DetailOr(f, ADD_FAILED_MSG))];
          }
          reload := false;
      }
      submitting := false;
    }

    /** The delete button of a row. */
    method AskDelete(e: EmployeeView)
      modifies this
      ensures deleteConfirm == Some(e)
      ensures employees == old(employees) && loading == old(loading) && error == old(error)
      ensures showAdd == old(showAdd) && form == old(form) && formErrors == old(formErrors)
      ensures submitting == old(submitting) && alert == old(alert)
      ensures deleting == old(deleting) && search == old(search)
    {
      deleteConfirm := Some(e);
    }

    /** handleDelete, up to the request. The handler works on the employee
        awaiting confirmation; with none, reading its id throws inside the
        try, so the handler ends at once on its failure path. */
    method BeginDelete() returns (target: Option<EmployeeView>)
      modifies this
      ensures target == old(deleteConfirm)
      ensures target.Some? ==> deleting && deleteConfirm == old(deleteConfirm) && alert == old(alert)
      ensures target.None? ==>
                && !deleting && deleteConfirm == None
                && alert == Some(Alert(ErrorAlert, DELETE_FAILED_MSG))
      ensures employees == old(employees) && loading == old(loading) && error == old(error)
      ensures showAdd == old(showAdd) && form == old(form) && formErrors == old(formErrors)
      ensures submitting == old(submitting) && search == old(search)
    {
      target := deleteConfirm;
      deleting := true;
      if target.None? {
        alert := Some(Alert(ErrorAlert, DELETE_FAILED_MSG));
        deleteConfirm := None;
        deleting := false;
      }
    }

    /** handleDelete, once the delete request for `target` settles: whatever
        the outcome the confirmation closes and the marker is off; success
        names the employee and starts a reload. */
    method FinishDelete(target: EmployeeView, outcome: Outcome<()>) returns (reload: bool)
      modifies this
      ensures deleteConfirm == None && !deleting && reload == outcome.Success?
      ensures outcome.Success? ==>
                && alert == Some(Alert(SuccessAlert, DeletedMsg(target.fullName)))
                && loading && error == None
      ensures outcome.Failed? ==>
                && alert == Some(Alert(ErrorAlert, DELETE_FAILED_MSG))
                && loading == old(loading) && error == old(error)
      ensures employees == old(employees) && showAdd == old(showAdd) && form == old(form)
      ensures formErrors == old(formErrors) && submitting == old(submitting) && search == old(search)
    {
      if outcome.Success? {
        alert := Some(Alert(SuccessAlert, DeletedMsg(target.fullName)));
        deleteConfirm := None;
        BeginLoad();
        reload := true;
      } else {
        alert := Some(Alert(ErrorAlert, DELETE_FAILED_MSG));
        deleteConfirm := None;
        reload := false;
      }
      deleting := false;
    }
  }
}
