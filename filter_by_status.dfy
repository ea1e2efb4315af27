/** `filterByStatus`: keep the employees whose status the chosen filter admits. */
module StatusFilter {
  import opened Types
  import opened KeyedFilter

  /** The `continue` condition of the loop: a specific status is chosen and differs. */
  predicate SkippedByStatus(e: Employee, activeFilter: EmployeeStatusFilter)
  {
    activeFilter != AllStatus && Only(e.status) != activeFilter
  }

  function StatusGuard(activeFilter: EmployeeStatusFilter): Employee -> bool
  {
    e => !SkippedByStatus(e, activeFilter)
  }

  /** The rows `filterByStatus(employees, activeFilter)` returns. */
  function ByStatus(employees: seq<Employee>, activeFilter: EmployeeStatusFilter): seq<Row>
  {
    FilterKeyed(employees, StatusGuard(activeFilter))
  }

  /** The loop itself: a fresh result array, records pushed in input order. */
  method FilterByStatus(employees: seq<Employee>, activeFilter: EmployeeStatusFilter) returns (result: seq<Row>)
    ensures result == ByStatus(employees, activeFilter)
  {
    result := [];
    for i := 0 to |employees|
      invariant result == ByStatus(employees[..i], activeFilter)
    {
      var employee := employees[i];
      assert employees[..i + 1] == employees[..i] + [employee];
      FilterKeyedSnoc(employees[..i], employee, StatusGuard(activeFilter));
      if SkippedByStatus(employee, activeFilter) {
        continue;
      }
      result := result + [Keyed(employee)];
    }
    assert employees[..|employees|] == employees;
  }

  /** With `'all-status'` every employee comes back, keyed, in input order. */
  lemma AllStatusKeepsEverything(employees: seq<Employee>)
    ensures ByStatus(employees, AllStatus) == AllKeyed(employees)
    ensures Ids(ByStatus(employees, AllStatus)) == seq(|employees|, k requires 0 <= k < |employees| => employees[k].id)
  {
    FilterKeyedKeepAll(employees, StatusGuard(AllStatus));
  }

  /** With `'active'` or `'inactive'`, a record is returned iff its status is the chosen one. */
  lemma OnlyStatusKeepsExactly(employees: seq<Employee>, status: EmployeeStatus, e: Employee)
    ensures Keyed(e) in ByStatus(employees, Only(status)) <==> e in employees && e.status == status
  {
    FilterKeyedMembership(employees, StatusGuard(Only(status)), e);
  }

  /** Each returned row is an input record of an admitted status, with key == id. */
  lemma ByStatusRows(employees: seq<Employee>, activeFilter: EmployeeStatusFilter)
    ensures forall r :: r in ByStatus(employees, activeFilter) ==>
      r.key == r.id && r.AsEmployee() in employees &&
      (activeFilter == AllStatus || activeFilter == Only(r.status))
  {
    FilterKeyedRowsFromInput(employees, StatusGuard(activeFilter));
  }

  /** Filtering the result again by the same status returns it unchanged. */
  lemma ByStatusIdempotent(employees: seq<Employee>, activeFilter: EmployeeStatusFilter)
    ensures ByStatus(Strip(ByStatus(employees, activeFilter)), activeFilter) == ByStatus(employees, activeFilter)
  {
    FilterKeyedIdempotent(employees, StatusGuard(activeFilter));
  }
}
