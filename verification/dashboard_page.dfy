/** The dashboard page: the summary cards, the first five employees of the
    list (which the server orders by full name), today's attendance with an
    overflow count, and the greeting. */
module DashboardPage {
  import opened Outcomes
  import opened Text
  import opened Seqs
  import opened Records
  import opened PageState
  import AttendanceViews
  import EmployeeViews

  const RECENT_LIMIT: nat := 5
  const TODAY_LIMIT: nat := 6
  const LOAD_FAILED_MSG: string := "Failed to load dashboard"

  /** The "Not Marked" card: employees minus today's Present and Absent
      counts, with no clamp at zero. */
  function NotMarked(s: DashboardSummary): (n: int)
    ensures n + s.totalPresentToday + s.totalAbsentToday == s.totalEmployees
  {
    s.totalEmployees - s.totalPresentToday - s.totalAbsentToday
  }

  /** The rows of today's list that are drawn. */
  function TodayShown(today: seq<AttendanceView>): (r: seq<AttendanceView>)
    ensures r <= today && |r| <= TODAY_LIMIT
    ensures |today| <= TODAY_LIMIT ==> r == today
  {
    Take(today, TODAY_LIMIT)
  }

  /** The "+k more" line: present only when rows were left out. */
  function MoreCount(today: seq<AttendanceView>): (more: Option<nat>)
    ensures more.Some? <==> |today| > TODAY_LIMIT
    ensures more.Some? ==> more.value > 0 && |TodayShown(today)| + more.value == |today|
  {
    if |today| > TODAY_LIMIT then Some(|today| - TODAY_LIMIT) else None
  }

  /** The rows drawn and the "+k more" count account for every record of
      today, and the line appears only when rows were left out. */
  lemma TodayListAccountsForAll(today: seq<AttendanceView>)
    ensures MoreCount(today).Some? <==> |TodayShown(today)| < |today|
    ensures |TodayShown(today)| + (if MoreCount(today).Some? then MoreCount(today).value else 0) == |today|
    ensures MoreCount(today).Some? ==> today == TodayShown(today) + today[TODAY_LIMIT..]
  {
  }

  /** `e.message || 'Failed to load dashboard'` */
  function LoadError(message: string): (r: string)
    ensures r != ""
    ensures message != "" ==> r == message
  {
    if message != "" then message else LOAD_FAILED_MSG
  }

  /** getGreeting, given the hour of the local clock. */
  function Greeting(hour: nat): (g: string)
    ensures hour < 12 <==> g == "morning"
    ensures 12 <= hour < 17 <==> g == "afternoon"
    ensures 17 <= hour <==> g == "evening"
  {
    if hour < 12 then "morning"
    else if hour < 17 then "afternoon"
    else "evening"
  }

  /** The query of today's attendance request. */
  function TodayParams(today: Date): Query {
    map["date" := today]
  }

  /** The today request filters the records by that date and nothing else. */
  lemma TodayRequestFiltersByDate(today: Date)
    requires IsIsoDate(today)
    ensures AttendanceViews.ListCriteria(TodayParams(today))
            == Ok(AttendanceViews.Criteria(None, Some(today), None, None, None))
  {
    var q := TodayParams(today);
    assert "employee_id" !in q && "start_date" !in q && "end_date" !in q && "status" !in q;
    assert AttendanceViews.PkParam(q, "employee_id") == Ok(None);
    assert ParseDate(today) == Some(today);
    assert AttendanceViews.DateParam(q, "date") == Ok(Some(today));
    assert AttendanceViews.DateParam(q, "start_date") == Ok(None);
    assert AttendanceViews.DateParam(q, "end_date") == Ok(None);
    assert AttendanceViews.Param(q, "status") == None;
  }

  function DatedOn(today: Date): Attendance -> bool {
    (r: Attendance) => r.date == today
  }

  /** No two records of one day belong to the same employee, and each
      belongs to an employee, so a day has at most one record per
      employee. */
  lemma OneRecordPerEmployeeADay(es: seq<Employee>, rs: seq<Attendance>, today: Date)
    requires UniqueRecords(rs) && AttendanceViews.OwnersExist(es, rs)
    ensures |Filter(rs, DatedOn(today))| <= |es|
  {
    var t := Filter(rs, DatedOn(today));
    FilterPairwise(rs, DatedOn(today), (a: Attendance, b: Attendance) => DistinctRecords(a, b));
    var owners := seq(|t|, i requires 0 <= i < |t| => t[i].employee);
    forall i, j | 0 <= i < j < |owners| ensures owners[i] != owners[j] {
      assert DistinctRecords(t[i], t[j]);
      assert DatedOn(today)(t[i]) && DatedOn(today)(t[j]);
    }
    ElementsCount(owners);
    var pks := seq(|es|, i requires 0 <= i < |es| => es[i].pk);
    ElementsCount(pks);
    forall x | x in owners ensures x in pks {
      var i :| 0 <= i < |owners| && owners[i] == x;
      assert t[i] in rs;
      var m :| 0 <= m < |rs| && rs[m] == t[i];
      assert HasEmployee(es, rs[m].employee);
      var k :| 0 <= k < |es| && es[k].pk == x;
      assert pks[k] == x;
    }
    SubsetCount(set x | x in owners, set x | x in pks);
  }

  /** With the tables the server keeps, the "Not Marked" card is never
      negative, although the page does not clamp it. */
  lemma NotMarkedNonNegative(es: seq<Employee>, rs: seq<Attendance>, today: Date)
    requires UniqueRecords(rs) && AttendanceViews.OwnersExist(es, rs)
    ensures NotMarked(EmployeeViews.Dashboard(es, rs, today).payload.summary) >= 0
  {
    FilterDisjointWithin(rs, EmployeeViews.PresentOn(today), EmployeeViews.AbsentOn(today), DatedOn(today));
    OneRecordPerEmployeeADay(es, rs, today);
  }

  class Page {
    var summary: Option<DashboardSummary>
    var recentEmployees: seq<EmployeeView>
    var todayAttendance: seq<AttendanceView>
    var loading: bool
    var error: Option<string>

    constructor()
      ensures summary == None && recentEmployees == [] && todayAttendance == []
      ensures loading && error == None
    {
      summary := None;
      recentEmployees := [];
      todayAttendance := [];
      loading := true;
      error := None;
    }

    /** load, up to the three requests: the spinner is on, the error
        cleared; the attendance request asks for `today` (the page's
        current date). */
    method BeginLoad(today: Date) returns (params: Query)
      modifies this
      ensures loading && error == None && params == TodayParams(today)
      ensures summary == old(summary) && recentEmployees == old(recentEmployees)
      ensures todayAttendance == old(todayAttendance)
    {
      loading := true;
      error := None;
      params := TodayParams(today);
    }

    /** load, once the requests settle: the summary, the first five
        employees in server order and today's records; or the error
        message with its fallback. The spinner is off either way. */
    method FinishLoad(outcome: Outcome<(DashboardSummary, seq<EmployeeView>, seq<AttendanceView>)>)
      modifies this
      ensures !loading
      ensures outcome.Success? ==>
                && summary == Some(outcome.value.0)
                && recentEmployees <= outcome.value.1
                && |recentEmployees| == (if |outcome.value.1| < RECENT_LIMIT then |outcome.value.1| else RECENT_LIMIT)
                && todayAttendance == outcome.value.2
                && error == old(error)
      ensures outcome.Failed? ==>
                && summary == old(summary) && recentEmployees == old(recentEmployees)
                && todayAttendance == old(todayAttendance)
                && error == Some(LoadError(outcome.failure.message))
    {
      match outcome {
        case Success((s, es, rs)) =>
          summary := Some(s);
          recentEmployees := Take(es, RECENT_LIMIT);
          todayAttendance := rs;
        case Failed(f) =>
          error := Some(LoadError(f.message));
      }
      loading := false;
    }
  }
}
