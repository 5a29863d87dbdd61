/** The write endpoints of the REST API over the two tables: creating and
    deleting employees, creating, updating and deleting attendance records.
    The tables are fields of one object whose invariant (unique keys,
    normalised employees, well-formed records with existing owners) every
    operation keeps. */
module Store {
  import opened Outcomes
  import opened Text
  import opened Seqs
  import opened Records
  import EmployeeSerializer
  import AttendanceSerializer

  const RECORD_DELETED_MSG: string := "Attendance record deleted."

  /** The confirmation, naming the employee as they were before deletion. */
  function EmployeeDeletedMsg(name: string): string {
    "Employee \"" + name + "\" deleted successfully."
  }

  /** The database's own unique constraint on employee_id, checked at save. */
  predicate IdInUse(es: seq<Employee>, id: string) {
    exists i :: 0 <= i < |es| && es[i].employeeId == id
  }

  function NotOwnedBy(pk: Pk): Attendance -> bool {
    (r: Attendance) => r.employee != pk
  }

  function OtherEmployee(pk: Pk): Employee -> bool {
    (e: Employee) => e.pk != pk
  }

  function OtherRecord(pk: Pk): Attendance -> bool {
    (r: Attendance) => r.pk != pk
  }

  // ---------------------------------------------------------------------
  // The invariant under each change
  // ---------------------------------------------------------------------

  /** The tables are consistent and every key handed out so far is below
      the next one to be handed out. */
  ghost predicate Tables(es: seq<Employee>, rs: seq<Attendance>, nextEmployeePk: Pk, nextRecordPk: Pk) {
    && Consistent(es, rs)
    && (forall i :: 0 <= i < |es| ==> es[i].pk < nextEmployeePk)
    && (forall i :: 0 <= i < |rs| ==> rs[i].pk < nextRecordPk)
  }

  lemma AddEmployeeKeepsConsistent(es: seq<Employee>, rs: seq<Attendance>, e: Employee)
    requires Consistent(es, rs) && WellFormedEmployee(e)
    requires forall i :: 0 <= i < |es| ==> DistinctEmployees(es[i], e)
    ensures Consistent(es + [e], rs)
  {
    var es' := es + [e];
    forall i, j | 0 <= i < j < |es'| ensures DistinctEmployees(es'[i], es'[j]) {
      if j < |es| {
        assert es'[i] == es[i] && es'[j] == es[j];
      }
    }
    forall i | 0 <= i < |rs| ensures HasEmployee(es', rs[i].employee) {
      var k :| 0 <= k < |es| && es[k].pk == rs[i].employee;
      assert es'[k] == es[k];
    }
  }

  /** An employee the validator accepts, whose ID is not in use, saved
      under a key above every stored one, keeps the tables consistent. */
  lemma AcceptedEmployeeFits(es: seq<Employee>, rs: seq<Attendance>, data: Body, pk: Pk, nr: Pk)
    requires Tables(es, rs, pk, nr)
    requires EmployeeSerializer.ValidateEmployee(es, None, data).Ok?
    requires !IdInUse(es, EmployeeSerializer.ValidateEmployee(es, None, data).value.employeeId)
    ensures var v := EmployeeSerializer.ValidateEmployee(es, None, data).value;
            Tables(es + [Employee(pk, v.employeeId, v.fullName, v.email, v.department)], rs, pk + 1, nr)
  {
    var v := EmployeeSerializer.ValidateEmployee(es, None, data).value;
    var e := Employee(pk, v.employeeId, v.fullName, v.email, v.department);
    EmployeeSerializer.AcceptedIsWellFormed(es, None, data, pk);
    EmployeeSerializer.AcceptedEmailIsFree(es, None, data);
    AddEmployeeKeepsConsistent(es, rs, e);
  }

  /** An accepted new record, saved under the next key, keeps the tables
      consistent. */
  lemma AcceptedCreateFits(es: seq<Employee>, rs: seq<Attendance>, data: Body, ne: Pk, nr: Pk)
    requires Tables(es, rs, ne, nr)
    requires AttendanceSerializer.ValidateAttendance(es, rs, None, data, false).Ok?
    ensures var v := AttendanceSerializer.ValidateAttendance(es, rs, None, data, false).value;
            && v.employee.Some? && v.date.Some? && v.status.Some?
            && HasEmployee(es, v.employee.value)
            && Tables(es, rs + [AttendanceSerializer.NewRecord(nr, v)], ne, nr + 1)
  {
    var v := AttendanceSerializer.ValidateAttendance(es, rs, None, data, false).value;
    AttendanceSerializer.AcceptedCreateIsWellFormed(es, data, nr);
    AttendanceSerializer.CreateKeepsUnique(es, rs, data, nr);
    AppendFits(es, rs, AttendanceSerializer.NewRecord(nr, v), ne, nr);
  }

  /** A well-formed record under the next key that keeps the records
      unique fits the tables. */
  lemma AppendFits(es: seq<Employee>, rs: seq<Attendance>, r: Attendance, ne: Pk, nr: Pk)
    requires Tables(es, rs, ne, nr) && r.pk == nr
    requires WellFormedRecord(es, r) && UniqueRecords(rs + [r])
    ensures Tables(es, rs + [r], ne, nr + 1)
  {
    AddRecordKeepsConsistent(es, rs, r);
    forall i | 0 <= i < |rs + [r]| ensures (rs + [r])[i].pk < nr + 1 {
      if i < |rs| { assert (rs + [r])[i] == rs[i]; }
    }
  }

  /** An accepted update of the record at index k keeps the tables
      consistent. */
  lemma AcceptedUpdateFits(es: seq<Employee>, rs: seq<Attendance>, k: nat, data: Body, ne: Pk, nr: Pk)
    requires Tables(es, rs, ne, nr) && k < |rs|
    requires AttendanceSerializer.ValidateAttendance(es, rs, Some(rs[k]), data, true).Ok?
    ensures var v := AttendanceSerializer.ValidateAttendance(es, rs, Some(rs[k]), data, true).value;
            Tables(es, rs[k := AttendanceSerializer.Updated(rs[k], v)], ne, nr)
  {
    var v := AttendanceSerializer.ValidateAttendance(es, rs, Some(rs[k]), data, true).value;
    var u := AttendanceSerializer.Updated(rs[k], v);
    AttendanceSerializer.AcceptedUpdateIsWellFormed(es, data, rs[k]);
    AttendanceSerializer.UpdateKeepsUnique(rs, k, v);
    ReplaceRecordKeepsConsistent(es, rs, k, u);
  }

  lemma RemoveEmployeeKeepsConsistent(es: seq<Employee>, rs: seq<Attendance>, pk: Pk)
    requires Consistent(es, rs)
    ensures Consistent(Filter(es, OtherEmployee(pk)), Filter(rs, NotOwnedBy(pk)))
  {
    var es' := Filter(es, OtherEmployee(pk));
    var rs' := Filter(rs, NotOwnedBy(pk));
    FilterPairwise(es, OtherEmployee(pk), (a, b) => DistinctEmployees(a, b));
    FilterPairwise(rs, NotOwnedBy(pk), (a, b) => DistinctRecords(a, b));
    forall i | 0 <= i < |es'| ensures WellFormedEmployee(es'[i]) {
      assert es'[i] in es;
    }
    forall i | 0 <= i < |rs'| ensures WellFormedRecord(es', rs'[i]) {
      assert rs'[i] in rs;
      var m :| 0 <= m < |rs| && rs[m] == rs'[i];
      var k :| 0 <= k < |es| && es[k].pk == rs[m].employee;
      assert es[k] in es';
    }
  }

  lemma RemoveRecordKeepsConsistent(es: seq<Employee>, rs: seq<Attendance>, k: nat)
    requires Consistent(es, rs) && k < |rs|
    ensures Consistent(es, rs[..k] + rs[k + 1..])
  {
    var rs' := rs[..k] + rs[k + 1..];
    forall i, j | 0 <= i < j < |rs'| ensures DistinctRecords(rs'[i], rs'[j]) {
      var a := if i < k then i else i + 1;
      var b := if j < k then j else j + 1;
      assert rs'[i] == rs[a] && rs'[j] == rs[b];
    }
    forall i | 0 <= i < |rs'| ensures WellFormedRecord(es, rs'[i]) {
      assert rs'[i] == rs[if i < k then i else i + 1];
    }
  }

  /** With unique primary keys, the filter on `pk <> k` drops the one row
      with that key. */
  /** Removing an employee and that employee's records keeps the tables
      consistent. */
  lemma RemoveEmployeeFits(es: seq<Employee>, rs: seq<Attendance>, pk: Pk, ne: Pk, nr: Pk)
    requires Tables(es, rs, ne, nr)
    ensures Tables(Filter(es, OtherEmployee(pk)), Filter(rs, NotOwnedBy(pk)), ne, nr)
  {
    RemoveEmployeeKeepsConsistent(es, rs, pk);
    var es' := Filter(es, OtherEmployee(pk));
    var rs' := Filter(rs, NotOwnedBy(pk));
    assert forall i :: 0 <= i < |es'| ==> es'[i] in es;
    assert forall i :: 0 <= i < |rs'| ==> rs'[i] in rs;
  }

  lemma DeleteEmployeeRow(es: seq<Employee>, k: nat)
    requires UniqueEmployees(es) && k < |es|
    ensures Filter(es, OtherEmployee(es[k].pk)) == es[..k] + es[k + 1..]
  {
    forall i | 0 <= i < |es| && i != k ensures OtherEmployee(es[k].pk)(es[i]) {
      assert DistinctEmployees(es[i], es[k]) || DistinctEmployees(es[k], es[i]);
    }
    FilterRemoveAt(es, OtherEmployee(es[k].pk), k);
  }

  lemma DeleteRecordRow(rs: seq<Attendance>, k: nat)
    requires UniqueRecords(rs) && k < |rs|
    ensures Filter(rs, OtherRecord(rs[k].pk)) == rs[..k] + rs[k + 1..]
  {
    forall i | 0 <= i < |rs| && i != k ensures OtherRecord(rs[k].pk)(rs[i]) {
      assert DistinctRecords(rs[i], rs[k]) || DistinctRecords(rs[k], rs[i]);
    }
    FilterRemoveAt(rs, OtherRecord(rs[k].pk), k);
  }

  lemma AddRecordKeepsConsistent(es: seq<Employee>, rs: seq<Attendance>, r: Attendance)
    requires Consistent(es, rs) && WellFormedRecord(es, r) && UniqueRecords(rs + [r])
    ensures Consistent(es, rs + [r])
  {
    var rs' := rs + [r];
    forall i | 0 <= i < |rs'| ensures WellFormedRecord(es, rs'[i]) {
      if i < |rs| {
        assert rs'[i] == rs[i];
      }
    }
  }

  lemma ReplaceRecordKeepsConsistent(es: seq<Employee>, rs: seq<Attendance>, k: nat, r: Attendance)
    requires Consistent(es, rs) && k < |rs| && WellFormedRecord(es, r) && UniqueRecords(rs[k := r])
    ensures Consistent(es, rs[k := r])
  {
  }

  // ---------------------------------------------------------------------
  // The database
  // ---------------------------------------------------------------------

  class Database {
    var employees: seq<Employee>
    var records: seq<Attendance>
    var nextEmployeePk: Pk
    var nextRecordPk: Pk

    /** The tables are consistent and every key handed out so far is below
        the next one. */
    ghost predicate Valid()
      reads this
    {
      Tables(employees, records, nextEmployeePk, nextRecordPk)
    }

    constructor()
      ensures Valid() && employees == [] && records == []
    {
      employees := [];
      records := [];
      nextEmployeePk := 1;
      nextRecordPk := 1;
    }

    /** POST /employees/: 400 with the field errors, leaving the table as it
        was; otherwise the validated employee is saved under a fresh key and
        returned with 201. A stripped ID that collides with a stored one
        passes the validator and is stopped by the unique constraint. */
    method PostEmployee(data: Body) returns (resp: Response)
      requires Valid()
      modifies this
      ensures Valid()
      ensures records == old(records) && nextRecordPk == old(nextRecordPk)
      ensures match EmployeeSerializer.ValidateEmployee(old(employees), None, data)
        case Err(errors) =>
          resp == Response(HTTP_400_BAD_REQUEST, ErrorsBody(errors)) && employees == old(employees)
        case Ok(v) =>
          if IdInUse(old(employees), v.employeeId) then
            resp == ServerError && employees == old(employees)
          else
            var e := Employee(old(nextEmployeePk), v.employeeId, v.fullName, v.email, v.department);
            && employees == old(employees) + [e]
            && resp == Response(HTTP_201_CREATED, EmployeeBody(EmployeeSerializer.ToView(e, records)))
    {
      var checked := EmployeeSerializer.ValidateEmployee(employees, None, data);
      if checked.Err? {
        resp := Response(HTTP_400_BAD_REQUEST, ErrorsBody(checked.error));
        return;
      }
      var v := checked.value;
      if IdInUse(employees, v.employeeId) {
        resp := ServerError;
        return;
      }
      var e := Employee(nextEmployeePk, v.employeeId, v.fullName, v.email, v.department);
      AcceptedEmployeeFits(employees, records, data, nextEmployeePk, nextRecordPk);
      employees := employees + [e];
      nextEmployeePk := nextEmployeePk + 1;
      resp := Response(HTTP_201_CREATED, EmployeeBody(EmployeeSerializer.ToView(e, records)));
    }

    /** DELETE /employees/<pk>/: 404 for an unknown key; otherwise that one
        employee is removed together with their attendance records, and the
        reply names them. */
    method DeleteEmployee(pk: Pk) returns (resp: Response)
      requires Valid()
      modifies this
      ensures Valid()
      ensures !HasEmployee(old(employees), pk) ==>
                resp == NotFound && employees == old(employees) && records == old(records)
      ensures HasEmployee(old(employees), pk) ==>
                exists k :: 0 <= k < |old(employees)| && old(employees)[k].pk == pk
                  && employees == old(employees)[..k] + old(employees)[k + 1..]
                  && resp == Response(HTTP_200_OK, MessageBody(EmployeeDeletedMsg(old(employees)[k].fullName)))
      ensures HasEmployee(old(employees), pk) ==> records == Filter(old(records), NotOwnedBy(pk))
      ensures nextEmployeePk == old(nextEmployeePk) && nextRecordPk == old(nextRecordPk)
    {
      var found := IndexOfEmployee(employees, pk);
      if found.None? {
        resp := NotFound;
        return;
      }
      var k := found.value;
      var name := employees[k].fullName;
      RemoveEmployeeAt(k);
      resp := Response(HTTP_200_OK, MessageBody(EmployeeDeletedMsg(name)));
      assert old(employees)[k].pk == pk;
    }

    /** Removes the employee at index k and, by the cascade, that
        employee's records. */
    method RemoveEmployeeAt(k: nat)
      requires Valid() && k < |employees|
      modifies this
      ensures Valid()
      ensures employees == old(employees)[..k] + old(employees)[k + 1..]
      ensures records == Filter(old(records), NotOwnedBy(old(employees)[k].pk))
      ensures nextEmployeePk == old(nextEmployeePk) && nextRecordPk == old(nextRecordPk)
    {
      var pk := employees[k].pk;
      DeleteEmployeeRow(employees, k);
      RemoveEmployeeFits(employees, records, pk, nextEmployeePk, nextRecordPk);
      employees := Filter(employees, OtherEmployee(pk));
      records := Filter(records, NotOwnedBy(pk));
    }

    /** POST /attendance/: 400 with the errors, leaving the table as it was;
        otherwise the record is saved under a fresh key and returned with
        201. */
    method PostAttendance(data: Body) returns (resp: Response)
      requires Valid()
      modifies this
      ensures Valid()
      ensures employees == old(employees) && nextEmployeePk == old(nextEmployeePk)
      ensures match AttendanceSerializer.ValidateAttendance(old(employees), old(records), None, data, false)
        case Err(errors) =>
          resp == Response(HTTP_400_BAD_REQUEST, ErrorsBody(errors)) && records == old(records)
        case Ok(v) =>
          var r := AttendanceSerializer.NewRecord(old(nextRecordPk), v);
          && records == old(records) + [r]
          && resp == Response(HTTP_201_CREATED, AttendanceBody(AttendanceSerializer.ToView(employees, r)))
    {
      var checked := AttendanceSerializer.ValidateAttendance(employees, records, None, data, false);
      if checked.Err? {
        resp := Response(HTTP_400_BAD_REQUEST, ErrorsBody(checked.error));
        return;
      }
      AcceptedCreateFits(employees, records, data, nextEmployeePk, nextRecordPk);
      resp := AppendRecord(AttendanceSerializer.NewRecord(nextRecordPk, checked.value));
    }

    /** Saves a new record under the next key and answers 201 with it. */
    method AppendRecord(r: Attendance) returns (resp: Response)
      requires Valid() && r.pk == nextRecordPk && HasEmployee(employees, r.employee)
      requires Tables(employees, records + [r], nextEmployeePk, nextRecordPk + 1)
      modifies this
      ensures Valid()
      ensures employees == old(employees) && nextEmployeePk == old(nextEmployeePk)
      ensures records == old(records) + [r] && nextRecordPk == old(nextRecordPk) + 1
      ensures resp == Response(HTTP_201_CREATED, AttendanceBody(AttendanceSerializer.ToView(employees, r)))
    {
      records := records + [r];
      nextRecordPk := nextRecordPk + 1;
      resp := Response(HTTP_201_CREATED, AttendanceBody(AttendanceSerializer.ToView(employees, r)));
    }

    /** PUT /attendance/<pk>/ (a partial update): 404 for an unknown key;
        400 with the errors, leaving the table as it was; otherwise the
        fields sent replace the record's and the record is returned. */
    method PutAttendance(pk: Pk, data: Body) returns (resp: Response)
      requires Valid()
      modifies this
      ensures Valid()
      ensures employees == old(employees) && nextEmployeePk == old(nextEmployeePk) && nextRecordPk == old(nextRecordPk)
      ensures IndexOfRecord(old(records), pk).None? ==> resp == NotFound && records == old(records)
      ensures IndexOfRecord(old(records), pk).Some? ==>
        var k := IndexOfRecord(old(records), pk).value;
        match AttendanceSerializer.ValidateAttendance(old(employees), old(records), Some(old(records)[k]), data, true)
        case Err(errors) =>
          resp == Response(HTTP_400_BAD_REQUEST, ErrorsBody(errors)) && records == old(records)
        case Ok(v) =>
          var u := AttendanceSerializer.Updated(old(records)[k], v);
          && records == old(records)[k := u]
          && resp == Response(HTTP_200_OK, AttendanceBody(AttendanceSerializer.ToView(employees, u)))
    {
      var found := IndexOfRecord(records, pk);
      if found.None? {
        resp := NotFound;
        return;
      }
      var k := found.value;
      var checked := AttendanceSerializer.ValidateAttendance(employees, records, Some(records[k]), data, true);
      if checked.Err? {
        resp := Response(HTTP_400_BAD_REQUEST, ErrorsBody(checked.error));
        return;
      }
      var u := AttendanceSerializer.Updated(records[k], checked.value);
      AcceptedUpdateFits(employees, records, k, data, nextEmployeePk, nextRecordPk);
      resp := ReplaceRecord(k, u);
    }

    /** Saves `u` over the record at index k and answers 200 with it. */
    method ReplaceRecord(k: nat, u: Attendance) returns (resp: Response)
      requires Valid() && k < |records|
      requires Tables(employees, records[k := u], nextEmployeePk, nextRecordPk)
      modifies this
      ensures Valid()
      ensures employees == old(employees) && nextEmployeePk == old(nextEmployeePk) && nextRecordPk == old(nextRecordPk)
      ensures records == old(records)[k := u]
      ensures HasEmployee(employees, u.employee)
      ensures resp == Response(HTTP_200_OK, AttendanceBody(AttendanceSerializer.ToView(employees, u)))
    {
      records := records[k := u];
      assert WellFormedRecord(employees, records[k]);
      resp := Response(HTTP_200_OK, AttendanceBody(AttendanceSerializer.ToView(employees, u)));
    }

    /** DELETE /attendance/<pk>/: 404 for an unknown key; otherwise that one
        record is removed and nothing else. */
    method DeleteAttendance(pk: Pk) returns (resp: Response)
      requires Valid()
      modifies this
      ensures Valid()
      ensures employees == old(employees) && nextEmployeePk == old(nextEmployeePk) && nextRecordPk == old(nextRecordPk)
      ensures IndexOfRecord(old(records), pk).None? ==> resp == NotFound && records == old(records)
      ensures IndexOfRecord(old(records), pk).Some? ==>
                var k := IndexOfRecord(old(records), pk).value;
                && records == old(records)[..k] + old(records)[k + 1..]
                && resp == Response(HTTP_200_OK, MessageBody(RECORD_DELETED_MSG))
    {
      var found := IndexOfRecord(records, pk);
      if found.None? {
        resp := NotFound;
        return;
      }
      var k := found.value;
      DeleteRecordRow(records, k);
      RemoveRecordKeepsConsistent(employees, records, k);
      records := Filter(records, OtherRecord(pk));
      resp := Response(HTTP_200_OK, MessageBody(RECORD_DELETED_MSG));
    }
  }
}
