# hrms-lite in Dafny

hrms-lite is a small human-resources system. A Django REST back end keeps two
tables, employees and their daily attendance records. A React front end has
four pages:

- **Employees:** list, search, add and delete employees.
- **Attendance:** every record, three filters, mark and delete.
- **Employee attendance:** one employee's records in a date range, their totals and attendance rate, mark and delete.
- **Dashboard:** the summary cards, the first five employees in name order, today's attendance and the greeting.

This project models that core in Dafny and proves properties of the model.

The back end is modelled on values:

- `Records` holds the two tables as sequences of rows, the invariant the
  database keeps over them (`Consistent`), the default ordering of employees
  by full name, and the JSON shapes of requests and replies.
- `EmployeeSerializer` and `AttendanceSerializer` are the validators, written
  as functions from the tables and a request body to either the validated
  values or the per-field error map. `Fields` holds the framework's own field
  checks they rely on: required, null, blank and maximum length.
- `EmployeeViews` and `AttendanceViews` are the read endpoints, written as
  functions from the tables and the query string to a `Response`.
- `Store.Database` is a class whose fields are the two tables and the next
  primary keys. Its methods are the write endpoints: create and delete an
  employee; create, partially update and delete a record. Each keeps the
  table invariant and states its whole new state and its reply.

Each page is a class whose fields are the page's state hooks. Each
asynchronous handler is split at its `await`:

- a `Begin` method does the work up to the request and returns the request
  it sends;
- a `Finish` method takes the settled outcome of the request as a parameter.

`PageState` holds what the pages share: the outcome of a call, the
flattening of a server error reply into one message per form field, and the
form helpers. `Text` and `Seqs` hold the string and sequence operations the
source relies on:

- Python's `strip` and `lower`, JavaScript's `includes` and `parseInt`;
- the ordering of text columns, decimal numbers and ISO dates;
- query-set filtering and array slicing.

## Model

| member | source | states |
|---|---|---|
| Text.Strip | backend/employees/serializers.py:17-25 | the result is leading whitespace dropped, then trailing whitespace dropped; it has no whitespace at either end and is empty exactly when the input is blank |
| Text.TrimStart | backend/employees/serializers.py:17-25 | the result is a suffix of the input that does not start with whitespace, and everything dropped before it is whitespace |
| Text.TrimEnd | backend/employees/serializers.py:17-25 | the result is a prefix of the input that does not end with whitespace, and everything dropped after it is whitespace |
| Text.StripIdempotent | backend/employees/serializers.py:25 | stripping a stripped value changes nothing |
| Records.NormalizedIsStripped | backend/employees/serializers.py:25 | a stored, normalised value is its own strip, so a later update stores it unchanged |
| Text.ToLower | backend/employees/serializers.py:29-34 | lower-casing keeps the length, leaves no capital letter and keeps each character up to case |
| Text.ToLowerIdempotent | backend/employees/serializers.py:34 | a lower-cased email lower-cases to itself |
| Text.ToLowerIgnoresCase | backend/employees/serializers.py:29 | two strings that differ only in letter case lower-case to the same string |
| Text.ContainsIff | frontend/src/pages/Employees.js:53-56 | `includes` holds exactly when the pattern occurs at some index of the text |
| Text.ContainsEmpty | frontend/src/pages/Employees.js:53-56 | the empty pattern occurs in every text |
| Text.LexLessIrreflexive | backend/employees/models.py:12-13 | the text ordering of the name column is irreflexive |
| Text.LexLessTransitive | backend/employees/models.py:12-13 | the text ordering is transitive |
| Text.LexLessTotal | backend/employees/models.py:12-13 | any two different names are ordered one way or the other |
| Text.LexLessAsymmetric | backend/employees/models.py:12-13 | no two names come before each other |
| Text.PyInt | backend/attendance/views.py:21-22 | `int()` reads a plain run of digits as its decimal value, and reads no number from a blank string |
| Text.DigitsRoundTrip | backend/attendance/views.py:21-22 | reading back the decimal form of n gives n |
| Text.PyIntRoundTrip | backend/attendance/views.py:21-22 | `int()` of the decimal form of a key gives the key back |
| Text.PyIntIgnoresSpace | backend/attendance/views.py:21-22 | whitespace around the text does not change what `int()` reads |
| Text.PyIntPlus | backend/attendance/views.py:21-22 | a leading plus sign does not change what `int()` reads |
| Text.PyIntUnderscore | backend/attendance/views.py:21-22 | an underscore between two digits is read through |
| Text.ParseDate | backend/attendance/views.py:23-28 | a date the date parser reads is held in ISO form and keeps its year; an ISO date is read as itself |
| Text.ParseDatePads | backend/attendance/views.py:23-24 | a one-digit month and day are read and zero-padded: 2024-1-5 is 2024-01-05 |
| Text.ParseIntPrefix | frontend/src/pages/Attendance.js:69 | `parseInt` skips leading whitespace, takes an optional sign, then the longest run of digits; NaN exactly when that run is empty, otherwise the run's value, negated after a minus |
| Text.ParseIntIgnoresTail | frontend/src/pages/Attendance.js:69 | whatever follows a run of digits, from its first non-digit on, does not change what `parseInt` reads |
| Text.ParseIntNegative | frontend/src/pages/Attendance.js:69 | a minus sign before the digits gives the negated value |
| PageState.IntValue | frontend/src/pages/EmployeeAttendance.js:62 | the employee sent in the JSON body is the number `parseInt` reads, or null exactly when it reads NaN; never a string |
| Text.ParseIntOfDigits | frontend/src/pages/Attendance.js:69 | `parseInt` reads a plain run of digits as its decimal value |
| Text.ParseIntRoundTrip | frontend/src/pages/Attendance.js:69 | `parseInt` of the decimal form of a key gives the key back |
| Seqs.Filter | backend/attendance/views.py:21-30 | a filter keeps only matching elements, keeps every matching one, and is no longer than its input |
| Seqs.FilterIsSubsequence | backend/attendance/views.py:21-30 | a filter keeps the order of the rows it keeps |
| Seqs.Take | frontend/src/pages/Dashboard.js:27 | `slice(0, n)` is the prefix of length min(n, length) |
| Records.EmployeeLabel | backend/employees/models.py:15-16 | the label is the employee ID, then " - ", then the full name, and nothing else |
| Records.FindEmployee | backend/employees/views.py:28 | an employee is found exactly when one has the key, and the one found has it |
| Records.IndexOfEmployee | backend/employees/views.py:33 | a position is found exactly when some employee has the key, and the row there has it |
| Records.IndexOfRecord | backend/attendance/views.py:48 | a position is found exactly when some record has the key, and the row there has it |
| Records.InsertByName | backend/employees/models.py:12-13 | insertion adds exactly one employee and loses none |
| Records.SortByName | backend/employees/models.py:12-13 | the default order is a permutation of the table |
| Records.SortByNameSorted | backend/employees/models.py:12-13 | the default order is sorted by full name |
| Fields.CharValue | backend/employees/models.py:5-8 | a character value is accepted exactly when it is not null, not empty and within the column limit, and is kept as its text |
| Fields.RequiredChar | backend/employees/models.py:5-8 | a missing field is "required"; a present one is checked as a character value |
| Fields.RequiredCharAccepts | backend/employees/models.py:5-8 | a non-empty string within the limit is accepted unchanged |
| EmployeeSerializer.ExcludeInstance | backend/employees/serializers.py:19-22 | `.exclude(pk=instance.pk)` keeps exactly the rows other than the instance |
| EmployeeSerializer.ExcludeInstanceNonEmpty | backend/employees/serializers.py:20-23 | `qs.exists()` holds exactly when some row other than the instance matches |
| EmployeeSerializer.ValidateEmployeeId | backend/employees/serializers.py:16-25 | blank is refused; an ID held by another employee is refused; otherwise the stripped ID is kept, and it is normalised |
| EmployeeSerializer.ValidateEmail | backend/employees/serializers.py:27-34 | refused exactly when another employee has the lower-cased email; otherwise the lower-cased email is kept |
| EmployeeSerializer.ValidateNonBlank | backend/employees/serializers.py:36-44 | full name and department are refused exactly when blank, with the given message, and are otherwise kept stripped |
| EmployeeSerializer.EmployeeErrors | backend/employees/serializers.py:16-44 | every rejected field gets its one message, an accepted field has no key, and no other key appears |
| EmployeeSerializer.ValidateEmployee | backend/employees/serializers.py:5-44 | a refused request names at least one of the four writable fields and no other key |
| EmployeeSerializer.ValidateEmployeeErrors | backend/employees/serializers.py:16-44 | a refused request gets exactly the error map of its four field checks |
| EmployeeSerializer.ValidateEmployeeAccepted | backend/employees/serializers.py:16-44 | an accepted request is made of the four field checks' values |
| EmployeeSerializer.AcceptedIsWellFormed | backend/employees/serializers.py:16-44 | what validation accepts is stripped, non-empty, lower-case in the email and within the column limits |
| EmployeeSerializer.AcceptedEmailIsFree | backend/employees/serializers.py:27-34 | an accepted email is held by no other employee |
| EmployeeSerializer.BlankIdRejected | backend/employees/serializers.py:16-18 | an all-whitespace ID is refused with "Employee ID cannot be empty." |
| EmployeeSerializer.DuplicateIdRejected | backend/employees/serializers.py:19-24 | an ID equal to a stored one is refused as a duplicate |
| EmployeeSerializer.PaddedIdPassesDuplicateCheck | backend/employees/serializers.py:20-25 | " EMP-1" passes the duplicate check against a stored "EMP-1" and is returned as "EMP-1" |
| EmployeeSerializer.EmailCaseCollision | backend/employees/serializers.py:29-33 | an email that differs from a stored one only in case is refused |
| EmployeeSerializer.ValidateEmployeeFromChecks | backend/employees/serializers.py:16-44 | the outcome depends on nothing but the four field checks |
| EmployeeSerializer.ValidateEmployeeAllAccepted | backend/employees/serializers.py:16-44 | when the four checks accept, the request is accepted with their values |
| EmployeeSerializer.OwnIdAccepted | backend/employees/serializers.py:19-22 | a stored employee's ID passes the check for its own row |
| EmployeeSerializer.OwnEmailAccepted | backend/employees/serializers.py:28-31 | a stored employee's email passes the check for its own row |
| EmployeeSerializer.ResaveChecksAccepted | backend/employees/serializers.py:16-44 | each check accepts an unchanged stored employee for its own row |
| EmployeeSerializer.ResaveUnchangedAccepted | backend/employees/serializers.py:16-44 | an unchanged stored employee sent back for its own row is accepted with the same values |
| EmployeeSerializer.ReadOnlyFieldsIgnored | backend/employees/serializers.py:11 | id, created_at and total_present_days in a request make no difference |
| EmployeeSerializer.ToView | backend/employees/serializers.py:5-14 | the output copies the row's fields, and its present-day count is the employee's records marked Present (at most the number of records) |
| EmployeeSerializer.PresentDays | backend/employees/serializers.py:13-14 | at most the number of records, and positive only when the employee has a record marked Present |
| EmployeeSerializer.PresentDaysAppend | backend/employees/serializers.py:13-14 | one more record raises the count by one exactly when it is the employee's and Present |
| EmployeeSerializer.PresentDaysNone | backend/employees/serializers.py:13-14 | an employee without records has no present days |
| AttendanceSerializer.ValidateStatus | backend/attendance/serializers.py:16-19 | accepted, unchanged, exactly when Present or Absent; otherwise the validator's message |
| AttendanceSerializer.EmployeeField | backend/attendance/serializers.py:13 | accepted only as the key of an existing employee; a number or a string `int()` reads is that key; a string `int()` refuses is of the wrong type; a key with no employee does not exist, quoted as sent; null, and the empty string the related field takes for null, are refused as null |
| AttendanceSerializer.DateField | backend/attendance/serializers.py:13 | accepted exactly when the value is a string the date parser reads, and held in ISO form; an ISO date is kept as is; anything else gets the format message |
| AttendanceSerializer.StatusField | backend/attendance/serializers.py:13-19 | the status is accepted exactly when its text is Present or Absent |
| AttendanceSerializer.AttendanceErrors | backend/attendance/serializers.py:13-19 | every rejected field gets its one message, an accepted field has no key, and no other key appears |
| AttendanceSerializer.ValidateFields | backend/attendance/serializers.py:13-19 | accepted exactly when the three field checks accept, with their values; otherwise a non-empty map of their errors; an accepted create has all three fields |
| AttendanceSerializer.ExcludeRecord | backend/attendance/serializers.py:27-28 | `.exclude(pk=instance.pk)` keeps exactly the rows other than the instance |
| AttendanceSerializer.SameSlot | backend/attendance/serializers.py:26-29 | the query finds a row exactly when employee and date are given and another record has both |
| AttendanceSerializer.SameSlotNonEmpty | backend/attendance/serializers.py:26-29 | the filtered rows minus the instance are non-empty exactly when there is a clash |
| AttendanceSerializer.ValidateUniqueAsWritten | backend/attendance/serializers.py:21-33 | the check as written passes exactly when the employee or the date is missing from the request or no other record has both |
| AttendanceSerializer.ValidateUnique | backend/attendance/serializers.py:21-33 | the corrected check passes exactly when no other record has the employee and date the saved record will have; on failure the one error is keyed under 'date' |
| AttendanceSerializer.ValidateAttendance | backend/attendance/serializers.py:21-33 | refused exactly when the field pass fails (with its errors) or the one-record-per-day check refuses; an accepted request is what the field pass produced |
| AttendanceSerializer.ValidateAttendanceAsWritten | backend/attendance/serializers.py:21-33 | the same with the duplicate check as written: refused exactly when the field pass fails or that check refuses |
| AttendanceSerializer.Updated | backend/attendance/views.py:49 | a partial update keeps the key and replaces exactly the fields that were sent |
| AttendanceSerializer.AcceptedCreateIsWellFormed | backend/attendance/serializers.py:13-19 | an accepted create is complete, with an existing employee, an ISO date and Present or Absent |
| AttendanceSerializer.AcceptedUpdateIsWellFormed | backend/attendance/serializers.py:13-19 | an accepted update keeps a well-formed record well formed |
| AttendanceSerializer.BadStatusRejected | backend/attendance/serializers.py:16-18 | any other non-empty status is refused with the validator's message |
| AttendanceSerializer.DuplicateCreateRejected | backend/attendance/serializers.py:26-32 | a second record for the same employee and date is refused under 'date', whatever valid status is sent, with the employee sent as a number or its decimal string and the date in any form the parser reads |
| AttendanceSerializer.UpdateExcludesSelf | backend/attendance/serializers.py:27-28 | an update that keeps a record's employee and date passes the duplicate check |
| AttendanceSerializer.CreateKeepsUnique | backend/attendance/serializers.py:21-33 | an accepted create keeps one record per employee and date |
| AttendanceSerializer.UpdateKeepsUnique | backend/attendance/serializers.py:21-33 | an update accepted by the corrected check keeps one record per employee and date |
| AttendanceSerializer.PartialUpdateMissesDuplicate | backend/attendance/serializers.py:22-29 | the check as written accepts a partial update that makes two records share an employee and date; the corrected check refuses it |
| AttendanceSerializer.DateMoveMissed | backend/attendance/serializers.py:22-29 | for any two records of one employee, a partial update sending only the first one's date to the second passes the check as written and breaks uniqueness, and the corrected check refuses it |
| AttendanceSerializer.ReadOnlyFieldsIgnored | backend/attendance/serializers.py:14 | id, created_at and the three copied owner fields in a request make no difference |
| AttendanceSerializer.ToView | backend/attendance/serializers.py:7-9 | the output copies the record and the owner's name, employee ID and department |
| AttendanceSerializer.ToViews | backend/attendance/serializers.py:7-14 | a query set is written out record by record, in order |
| AttendanceViews.Param | backend/attendance/views.py:15-19 | a filter is on exactly when its key is present and not empty |
| AttendanceViews.DateParam | backend/attendance/views.py:23-28 | a missing or empty filter is no filter; a given one is accepted exactly when the date parser reads it, as that date in ISO form |
| AttendanceViews.PkParam | backend/attendance/views.py:21-22 | a missing or empty filter is no filter; a given one is accepted exactly when `int()` reads it, as that number |
| AttendanceViews.ListCriteria | backend/attendance/views.py:15-30 | the list filters are read exactly when each given one converts, each as converted; otherwise the error names a failing parameter |
| AttendanceViews.FilterChain | backend/attendance/views.py:21-30 | the chain of filters selects, in table order, exactly the records matching every filter given |
| AttendanceViews.FilterChainMeaning | backend/attendance/views.py:21-30 | applying the five filters one after another equals filtering once by their conjunction |
| AttendanceViews.FilterChainExact | backend/attendance/views.py:21-30 | a record is listed exactly when it matches, and the list keeps table order |
| AttendanceViews.ListAttendance | backend/attendance/views.py:11-36 | 200 with exactly the matching records and their count; a filter that cannot be converted is a server error |
| AttendanceViews.NoFilterListsAll | backend/attendance/views.py:11-36 | with no filter the whole table is listed |
| AttendanceViews.BadFilterIsServerError | backend/attendance/views.py:23-24 | a date filter the date parser cannot read is not caught and fails with a server error |
| AttendanceViews.BadEmployeeFilterIsServerError | backend/attendance/views.py:21-22 | an employee filter `int()` cannot read fails with a server error |
| AttendanceViews.SignedEmployeeFilter | backend/attendance/views.py:21-22 | an employee filter written with a plus sign lists that employee's records |
| AttendanceViews.RangeCriteria | backend/attendance/views.py:66-71 | the range is read exactly when each given bound converts; the owner is the employee in the route |
| AttendanceViews.EmployeeAttendance | backend/attendance/views.py:62-84 | 404 for an unknown employee; a server error for a bound that cannot be converted; otherwise 200 with the employee's name, the records in the range, their count and how many of them are marked Present and Absent |
| AttendanceViews.ViewsKeepStatus | backend/attendance/views.py:73-75 | writing records out keeps how many have a given status |
| AttendanceViews.EmployeeAttendanceExact | backend/attendance/views.py:64-71 | a record is returned exactly when it is the employee's and within the inclusive range |
| AttendanceViews.TotalsAddUp | backend/attendance/views.py:73-82 | with statuses Present or Absent, the two totals add up to the count |
| EmployeeViews.ToViews | backend/employees/views.py:12 | a query set is written out employee by employee, in order |
| EmployeeViews.ListEmployees | backend/employees/views.py:10-16 | 200 with every employee in name order and the count |
| EmployeeViews.ListEmployeesOrderedAndComplete | backend/employees/views.py:10-16 | the list holds every employee exactly once, sorted by full name |
| EmployeeViews.GetEmployee | backend/employees/views.py:27-30 | 404 for an unknown key; otherwise the employee with that key |
| EmployeeViews.AddDeptCounts | backend/employees/views.py:49-53 | counting one more employee raises exactly that department's count, and the total, by one |
| EmployeeViews.GroupByDepartmentCorrect | backend/employees/views.py:49-53 | the breakdown is in department order, one entry per department, each count the head count, the counts summing to the employees |
| EmployeeViews.GroupByDepartment | backend/employees/views.py:49-53 | the breakdown is in strict department order with positive counts, and the counts sum to the number of employees |
| EmployeeViews.CountInListed | backend/employees/views.py:49-53 | a department has an entry exactly when someone works in it |
| EmployeeViews.Dashboard | backend/employees/views.py:39-60 | 200 with the employee count; the Present count is the number of records dated today and marked Present, the Absent count likewise, and the two together are at most the number of records; the department breakdown is the grouped one |
| EmployeeViews.DashboardDepartments | backend/employees/views.py:49-59 | the reply's breakdown is correct and sums to total_employees |
| Store.AddEmployeeKeepsConsistent | backend/employees/views.py:18-22 | a well-formed employee distinct from all others keeps the tables consistent |
| Store.AcceptedEmployeeFits | backend/employees/views.py:18-22 | a validated employee with an unused ID, saved under a fresh key, keeps the tables consistent |
| Store.AcceptedCreateFits | backend/attendance/views.py:38-43 | an accepted record saved under the next key keeps the tables consistent |
| Store.AcceptedUpdateFits | backend/attendance/views.py:47-53 | an accepted partial update keeps the tables consistent |
| Store.RemoveEmployeeKeepsConsistent | backend/employees/views.py:32-36 | removing an employee with their records keeps the tables consistent |
| Store.RemoveRecordKeepsConsistent | backend/attendance/views.py:55-58 | removing a record keeps the tables consistent |
| Store.DeleteEmployeeRow | backend/employees/views.py:33-35 | deleting by key removes that one employee and nothing else |
| Store.DeleteRecordRow | backend/attendance/views.py:56-57 | deleting by key removes that one record and nothing else |
| Store.AddRecordKeepsConsistent | backend/attendance/views.py:38-43 | a well-formed record that keeps the records unique keeps the tables consistent |
| Store.ReplaceRecordKeepsConsistent | backend/attendance/views.py:47-53 | a well-formed replacement that keeps the records unique keeps the tables consistent |
| Store.Database.PostEmployee | backend/employees/views.py:18-23 | 400 with the errors and no change; a stripped ID already in use is a server error; otherwise the employee is appended under a fresh key and returned with 201 |
| Store.Database.DeleteEmployee | backend/employees/views.py:32-36 | 404 and no change for an unknown key; otherwise exactly that employee and their records are removed, and the reply names them |
| Store.Database.PostAttendance | backend/attendance/views.py:38-43 | 400 with the errors and no change; otherwise the record is appended under a fresh key and returned with 201 |
| Store.Database.PutAttendance | backend/attendance/views.py:47-53 | 404 for an unknown key; 400 with no change; otherwise the record is replaced by its update and returned |
| Store.Database.DeleteAttendance | backend/attendance/views.py:55-58 | 404 for an unknown key; otherwise exactly that record is removed |
| PageState.FirstMessage | frontend/src/pages/Employees.js:84 | the first element of a list, the string itself, or nothing for an empty list |
| PageState.FlatOfKeys | frontend/src/pages/Employees.js:82-85 | the flattened object has exactly the keys of the server's errors |
| PageState.FlatOfValues | frontend/src/pages/Employees.js:82-85 | each key holds the first message of its value |
| PageState.Flatten | frontend/src/pages/Employees.js:82-85 | the forEach loop builds the flattened object |
| PageState.DetailOr | frontend/src/pages/Employees.js:88 | the server's detail when there is one, otherwise the fallback |
| PageState.SubmitErrors | frontend/src/pages/Employees.js:80-89 | after a failed write the form shows at least one message: under exactly the server's keys when there are any, otherwise under the general key |
| PageState.SubmitErrorsShown | frontend/src/pages/Employees.js:80-89 | after a failed write the form shows exactly the server's keys with their first messages, or only the general message |
| PageState.SubmitErrorsAgree | frontend/src/pages/EmployeeAttendance.js:67-73 | testing the flattened object for keys gives the same form errors as testing the server's object |
| PageState.ChangeForm | frontend/src/pages/Employees.js:66 | the named input takes the new text; every other input is unchanged |
| PageState.ClearError | frontend/src/pages/Employees.js:67 | the named input's error is cleared; every other error is unchanged |
| PageState.FormBody | frontend/src/pages/Employees.js:75 | the request body has exactly the form's inputs, each as a string |
| EmployeesPage.EmptySearchShowsAll | frontend/src/pages/Employees.js:51-52 | an empty search shows every employee in the order loaded |
| EmployeesPage.SearchMatches | frontend/src/pages/Employees.js:51-57 | a row matches exactly when the search is empty or name, ID, department or email mentions it, ignoring case |
| EmployeesPage.Filtered | frontend/src/pages/Employees.js:51-57 | the rows shown are exactly the loaded rows that match |
| EmployeesPage.SearchShowsExactly | frontend/src/pages/Employees.js:51-57 | a non-empty search shows an employee exactly when name, ID, department or email mentions it, ignoring case |
| EmployeesPage.FilteredKeepsOrder | frontend/src/pages/Employees.js:51-57 | the rows shown keep the loaded order |
| EmployeesPage.SearchIgnoresCase | frontend/src/pages/Employees.js:53-56 | the case of the search text makes no difference |
| EmployeesPage.Page.constructor | frontend/src/pages/Employees.js:23-33 | the initial state of every hook |
| EmployeesPage.Page.Shown | frontend/src/pages/Employees.js:51-57 | the rows shown are a subsequence of the list, all of it for an empty search |
| EmployeesPage.Page.BeginLoad | frontend/src/pages/Employees.js:36-40 | the spinner is on and the error cleared; nothing else changes |
| EmployeesPage.Page.FinishLoad | frontend/src/pages/Employees.js:40-46 | the list or the error message, the spinner off, the old list kept on failure |
| EmployeesPage.Page.SetSearch | frontend/src/pages/Employees.js:132 | the search text is set and the rows shown are its filter |
| EmployeesPage.Page.OpenAdd | frontend/src/pages/Employees.js:59-63 | an empty draft, no errors, the dialog open |
| EmployeesPage.Page.CloseAdd | frontend/src/pages/Employees.js:199-203 | the add dialog closes; the draft and its errors are kept |
| EmployeesPage.Page.Change | frontend/src/pages/Employees.js:65-68 | one input changes and its error clears |
| EmployeesPage.Page.BeginSubmit | frontend/src/pages/Employees.js:70-75 | the submitting flag is on, errors cleared, the form sent as the body |
| EmployeesPage.Page.FinishSubmit | frontend/src/pages/Employees.js:75-92 | success closes the dialog, names the employee sent and reloads; failure shows the flattened errors or the general message |
| EmployeesPage.Page.AskDelete | frontend/src/pages/Employees.js:185 | the row's employee awaits confirmation |
| EmployeesPage.Page.CancelDelete | frontend/src/pages/Employees.js:257-261 | nothing awaits confirmation any more; nothing else changes |
| EmployeesPage.Page.BeginDelete | frontend/src/pages/Employees.js:95-98 | the target is the employee awaiting confirmation; with none, the handler fails at once |
| EmployeesPage.Page.FinishDelete | frontend/src/pages/Employees.js:98-107 | the confirmation closes either way; success names the employee and reloads, failure shows the error alert |
| EmployeesPage.Page.DismissAlert | frontend/src/pages/Employees.js:121 | the alert is cleared; nothing else changes |
| AttendancePage.ListParams | frontend/src/pages/Attendance.js:34-37 | a filter is sent, under its own name, exactly when it is not empty |
| AttendancePage.PageFiltersReachServer | frontend/src/pages/Attendance.js:34-40 | the filters the page sends are accepted by the list endpoint and filter by exactly what the page selected |
| AttendancePage.CreateBody | frontend/src/pages/Attendance.js:69 | the body is the draft with the employee replaced by its integer parse |
| AttendancePage.CreateBodySendsChosenEmployee | frontend/src/pages/Attendance.js:69 | an employee chosen in the select reaches the server as its key |
| AttendancePage.CountsAddUp | frontend/src/pages/Attendance.js:109-110 | the header's counts are at most the records, and account for all of them when every status is Present or Absent |
| AttendancePage.PresentCount | frontend/src/pages/Attendance.js:109 | at most the records shown, and zero exactly when none of them is marked Present |
| AttendancePage.AbsentCount | frontend/src/pages/Attendance.js:110 | at most the records shown, and zero exactly when none of them is marked Absent |
| AttendancePage.Page.constructor | frontend/src/pages/Attendance.js:14-28 | the initial state of every hook |
| AttendancePage.Page.BeginLoad | frontend/src/pages/Attendance.js:30-42 | the spinner is on, the error cleared, and the query holds the active filters |
| AttendancePage.Page.FinishLoad | frontend/src/pages/Attendance.js:43-48 | the records and employees, or the error message; the spinner off |
| AttendancePage.Page.SetFilterDate | frontend/src/pages/Attendance.js:139 | only the date filter changes |
| AttendancePage.Page.SetFilterStatus | frontend/src/pages/Attendance.js:147 | only the status filter changes |
| AttendancePage.Page.SetFilterEmployee | frontend/src/pages/Attendance.js:159 | only the employee filter changes |
| AttendancePage.Page.ClearFilters | frontend/src/pages/Attendance.js:102-106 | afterwards no filter is active |
| AttendancePage.Page.HasFilters | frontend/src/pages/Attendance.js:108 | a filter is active exactly when the list request carries a query |
| AttendancePage.Page.OpenMark | frontend/src/pages/Attendance.js:121 | a fresh draft with no employee and the page's load date, no errors, the dialog open |
| AttendancePage.Page.CloseMark | frontend/src/pages/Attendance.js:234-238 | the mark dialog closes; the draft and its errors are kept |
| AttendancePage.Page.DismissAlert | frontend/src/pages/Attendance.js:127 | the alert is cleared; nothing else changes |
| AttendancePage.Page.Change | frontend/src/pages/Attendance.js:54-57 | one input changes and its error clears |
| AttendancePage.Page.BeginSubmit | frontend/src/pages/Attendance.js:59-69 | with no employee chosen only the employee error is set and nothing is sent; otherwise the create body goes out |
| AttendancePage.Page.FinishSubmit | frontend/src/pages/Attendance.js:69-86 | success closes the dialog and reloads with the current filters; failure shows the flattened errors |
| AttendancePage.Page.BeginDelete | frontend/src/pages/Attendance.js:89-92 | the row's marker is on |
| AttendancePage.Page.FinishDelete | frontend/src/pages/Attendance.js:92-99 | the marker is off either way; success reloads, failure shows the error alert |
| EmployeeAttendancePage.RangeParams | frontend/src/pages/EmployeeAttendance.js:34-36 | a bound is sent exactly when it is not empty |
| EmployeeAttendancePage.PageRangeReachesServer | frontend/src/pages/EmployeeAttendance.js:34-39 | the range the page sends is accepted and restricts the records to exactly that range |
| EmployeeAttendancePage.CreateBody | frontend/src/pages/EmployeeAttendance.js:62 | the body is the draft with the employee set to the route's employee |
| EmployeeAttendancePage.CreateBodySendsRouteEmployee | frontend/src/pages/EmployeeAttendance.js:62 | a decimal route id reaches the server as the employee's key, whatever the draft holds |
| EmployeeAttendancePage.Rate | frontend/src/pages/EmployeeAttendance.js:98-100 | 0 with no records; otherwise the whole percentage nearest to present/count, a half rounding up |
| EmployeeAttendancePage.RateBounds | frontend/src/pages/EmployeeAttendance.js:98-100 | with no more present days than records the rate is between 0 and 100 |
| EmployeeAttendancePage.RateColor | frontend/src/pages/EmployeeAttendance.js:135 | green exactly from 75 up, amber below |
| EmployeeAttendancePage.RateColorMeaning | frontend/src/pages/EmployeeAttendance.js:135 | the rate card is green exactly when at least 74.5% of the records are Present |
| EmployeeAttendancePage.ServerRateInRange | frontend/src/pages/EmployeeAttendance.js:98-100 | the figures the endpoint returns always give a rate between 0 and 100 |
| EmployeeAttendancePage.Page.constructor | frontend/src/pages/EmployeeAttendance.js:13-28 | the initial state, with the route id parsed once |
| EmployeeAttendancePage.Page.BeginLoad | frontend/src/pages/EmployeeAttendance.js:30-39 | the spinner is on, the error cleared, and the query holds the bounds given |
| EmployeeAttendancePage.Page.FinishLoad | frontend/src/pages/EmployeeAttendance.js:40-47 | the employee and attendance, or the error message; the spinner off |
| EmployeeAttendancePage.Page.SetStartDate | frontend/src/pages/EmployeeAttendance.js:149 | only the start bound changes |
| EmployeeAttendancePage.Page.SetEndDate | frontend/src/pages/EmployeeAttendance.js:158 | only the end bound changes |
| EmployeeAttendancePage.Page.ClearRange | frontend/src/pages/EmployeeAttendance.js:162 | afterwards no bound is sent |
| EmployeeAttendancePage.Page.OpenMark | frontend/src/pages/EmployeeAttendance.js:124 | the draft is the page's load date and Present, no errors, the dialog open |
| EmployeeAttendancePage.Page.CloseMark | frontend/src/pages/EmployeeAttendance.js:210-214 | the mark dialog closes; the draft and its errors are kept |
| EmployeeAttendancePage.Page.DismissAlert | frontend/src/pages/EmployeeAttendance.js:108 | the alert is cleared; nothing else changes |
| EmployeeAttendancePage.Page.Change | frontend/src/pages/EmployeeAttendance.js:52-55 | one input changes and its error clears |
| EmployeeAttendancePage.Page.BeginSubmit | frontend/src/pages/EmployeeAttendance.js:57-62 | the draft goes out with the route's employee |
| EmployeeAttendancePage.Page.FinishSubmit | frontend/src/pages/EmployeeAttendance.js:62-76 | success closes the dialog and reloads the range; failure shows the same errors the other pages would |
| EmployeeAttendancePage.Page.BeginDelete | frontend/src/pages/EmployeeAttendance.js:79-82 | the row's marker is on |
| EmployeeAttendancePage.Page.FinishDelete | frontend/src/pages/EmployeeAttendance.js:82-89 | the marker is off either way; success reloads, failure shows the error alert |
| DashboardPage.TodayShown | frontend/src/pages/Dashboard.js:132 | at most six of today's records are drawn, a prefix, all of them when there are at most six |
| DashboardPage.TodayListAccountsForAll | frontend/src/pages/Dashboard.js:132-145 | "+k more" appears exactly when rows were left out, and the rows drawn plus k are all of today's records |
| DashboardPage.MoreCount | frontend/src/pages/Dashboard.js:144-145 | "+k more" appears exactly when there are more than six records today, with k positive and the rows drawn plus k all of them |
| DashboardPage.LoadError | frontend/src/pages/Dashboard.js:30 | the error shown is never empty, and is the exception's message when it has one |
| DashboardPage.Greeting | frontend/src/pages/Dashboard.js:187-191 | morning before 12, afternoon from 12 to 16, evening from 17, each an if-and-only-if |
| DashboardPage.TodayRequestFiltersByDate | frontend/src/pages/Dashboard.js:24 | today's request filters by that date and nothing else |
| DashboardPage.OneRecordPerEmployeeADay | backend/attendance/serializers.py:26-32 | with one record per employee and date, a day has no more records than employees |
| DashboardPage.NotMarkedNonNegative | frontend/src/pages/Dashboard.js:47 | with the tables the server keeps, the "Not Marked" card is never negative, though the page does not clamp it |
| DashboardPage.NotMarked | frontend/src/pages/Dashboard.js:47 | the three cards, Not Marked, Present and Absent, add up to the employee count |
| DashboardPage.Page.constructor | frontend/src/pages/Dashboard.js:8-12 | the initial state of every hook |
| DashboardPage.Page.BeginLoad | frontend/src/pages/Dashboard.js:17-25 | the spinner is on, the error cleared, and the attendance request asks for today |
| DashboardPage.Page.FinishLoad | frontend/src/pages/Dashboard.js:26-33 | the summary, the first five employees and today's records, or the error with its fallback; the spinner off |

## Left out

- HTTP, axios and the routing layer are left out. Each call's settled result is a parameter of the page's `Finish` method.
- `Promise.all`, `useEffect` scheduling and races between overlapping loads are left out. Each load is one Begin/Finish pair.
- The clock is a parameter. `today` and the hour are passed in, both on the pages and for the server's `date.today()`.
- Rendering, styles and navigation are left out. The only drawn figures modelled are the counts, the rate, its colour, the "+k more" line and the greeting.
- The creation and update timestamps (`created_at`, `updated_at`) are not modelled.
- `Records.Consistent` is an assumed property of the attendance table, because backend/attendance/models.py is not part of this model:
  - every record's owner exists;
  - deleting an employee removes that employee's records.
- The order of attendance records is taken to be table order. backend/attendance/models.py is not part of this model, so its default ordering is unknown.
- Only the ASCII range of whitespace, letter case and digits is modelled. `Text.PyInt` does not read the non-ASCII digits and whitespace that Python's `int()` also accepts.
- `Fields.CharValue` does not model the framework's default `trim_whitespace`. Values reach the custom validators as sent.
- The e-mail format check is not modelled.
- The uniqueness validators the framework generates from `unique=True` are left out. The database's unique constraint on `employee_id` appears as a server error in `Store.Database.PostEmployee`.
- Calendar validity of dates is not modelled. A date is read when it has the shape the date parser reads, four digits, then a month and a day of one or two digits each; it is held zero-padded as YYYY-MM-DD, and such dates compare as strings in calendar order.
- `Text.ParseDate` reads only that shape. It does not read the other forms that recent Python versions' `date.fromisoformat` accepts (such as 20240105 or the week form 2024-W01-1), and it refuses 2024-01-05 followed by a line feed, which the parser's pattern lets through; it accepts impossible dates such as 2024-02-30, which the parser refuses.
- `AttendanceViews.DateParam`, `AttendanceViews.ListAttendance` and `AttendanceViews.RangeCriteria` read date filters with `Text.ParseDate`, so they differ from the server on the inputs just listed: a compact or week-form date is a server error in the model, an impossible date is a filter.
- `AttendanceSerializer.DateField` reads dates with `Text.ParseDate` and differs on the same inputs.
- `AttendanceViews.BadFilterIsServerError` covers the date filters `Text.ParseDate` refuses; for the forms listed above the server answers 200.
- `AttendanceSerializer.EmployeeField` and `AttendanceViews.PkParam` read a key given as a string with `Text.PyInt`, so they differ from `int()` only on non-ASCII digits and whitespace. The empty string does not reach `Text.PyInt` in either: the related field takes it for null, and the query filter treats it as absent.
- `Text.ParseIntPrefix` reads decimal digits only. `parseInt` without a radix reads text starting with "0x" or "0X" as hexadecimal ("0x1A" is 26, where the model reads 0). On the attendance page the text comes from a select box of decimal keys. On the employee page it is the address's id; an id such as 0x1A fails the load through the server's `<int:pk>` route with 404, and the page then shows only its error state, with no form to submit.
- `EmployeeAttendancePage.Rate` computes `Math.round` in integers, as present·200 + count divided by 2·count. The page computes `Math.round((present / count) * 100)` in floating point, which can round the other way at an exact half: for 29 of 200 the float product is 14.499999999999998 and the page shows 14%, where `Rate(29, 200)` is 15. The float width of the progress bars is not modelled.
- `Records.SortByName`, `EmployeeViews.ListEmployees` and `EmployeeViews.GroupByDepartment` order text by character code. The database orders the `full_name` and `department` columns by its collation, which may differ (for example, a case-insensitive collation puts "adam" before "Bob").
- `Records.SortByName` puts employees with equal full names in one fixed order, the reverse of table order. The database leaves the order of such ties unspecified, so the model picks one of the orders it may return.
- `EmployeeAttendancePage.Page.constructor` parses the route id once into `routeEmployee`. The source calls `parseInt(id)` on every submit; the id does not change while the page is shown.
- The employee serializer's update path (an `instance`) is modelled in its validators. No endpoint updates an employee, so `Store.Database` has no such method.
- `AttendanceSerializer.ValidateAttendance`: `Store.Database` uses the corrected duplicate check described under Findings. The check as written is `AttendanceSerializer.ValidateAttendanceAsWritten`.

## Findings

| source | as written | input that shows it | evidently intended | confidence | as-written member | corrected member |
|---|---|---|---|---|---|---|
| backend/attendance/serializers.py:22-29 | the duplicate check uses `data.get('employee')` and `data.get('date')`. A partial update (backend/attendance/views.py:49) that leaves one of them out filters on None and finds nothing | records 1 (employee 1, 2024-01-01) and 2 (employee 1, 2024-01-02); PUT record 2 with only `{"date": "2024-01-01"}` is accepted, and employee 1 then has two records on 2024-01-01 | check the employee and date the saved record will have, taking the instance's own values for fields left out | not executed; a unique constraint in backend/attendance/models.py, which is not part of this model, would stop the save with an integrity error instead | AttendanceSerializer.PartialUpdateMissesDuplicate | AttendanceSerializer.UpdateKeepsUnique |
