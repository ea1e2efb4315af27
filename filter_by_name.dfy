/** `filterByName`: keep the employees whose name contains the search text, ignoring case. */
module NameFilter {
  import opened Types
  import opened Text
  import opened KeyedFilter

  /**
   * The `continue` condition of the loop: the search text is non-empty (a
   * truthy string) and the lower-cased name does not include it lower-cased.
   */
  predicate SkippedByName(e: Employee, searchText: string)
  {
    searchText != "" && !Includes(ToLowerCase(e.name), ToLowerCase(searchText))
  }

  function NameGuard(searchText: string): Employee -> bool
  {
    e => !SkippedByName(e, searchText)
  }

  /** The rows `filterByName(employees, searchText)` returns. */
  function ByName(employees: seq<Employee>, searchText: string): seq<Row>
  {
    FilterKeyed(employees, NameGuard(searchText))
  }

  /** The loop itself: a fresh result array, records pushed in input order. */
  method FilterByName(employees: seq<Employee>, searchText: string) returns (result: seq<Row>)
    ensures result == ByName(employees, searchText)
  {
    result := [];
    for i := 0 to |employees|
      invariant result == ByName(employees[..i], searchText)
    {
      var employee := employees[i];
      assert employees[..i + 1] == employees[..i] + [employee];
      FilterKeyedSnoc(employees[..i], employee, NameGuard(searchText));
      if SkippedByName(employee, searchText) {
        continue;
      }
      result := result + [Keyed(employee)];
    }
    assert employees[..|employees|] == employees;
  }

  /** An empty search text lets every employee through, keyed, in input order. */
  lemma EmptySearchKeepsEverything(employees: seq<Employee>)
    ensures ByName(employees, "") == AllKeyed(employees)
  {
    FilterKeyedKeepAll(employees, NameGuard(""));
  }

  /**
   * With a non-empty search text a record is returned iff its lower-cased name
   * has the lower-cased search text at some position.
   */
  lemma {:induction false} NonEmptySearchKeepsExactly(employees: seq<Employee>, searchText: string, e: Employee)
    requires searchText != ""
    ensures Keyed(e) in ByName(employees, searchText) <==>
      e in employees && exists i: nat :: OccursAt(ToLowerCase(e.name), ToLowerCase(searchText), i)
  {
    FilterKeyedMembership(employees, NameGuard(searchText), e);
    var hay, needle := ToLowerCase(e.name), ToLowerCase(searchText);
    assert NameGuard(searchText)(e) == Includes(hay, needle);
    if Includes(hay, needle) {
      var i: nat :| OccursAt(hay, needle, i);
      assert OccursAt(ToLowerCase(e.name), ToLowerCase(searchText), i);
      assert exists j: nat :: OccursAt(ToLowerCase(e.name), ToLowerCase(searchText), j);
      assert Keyed(e) in ByName(employees, searchText) <==> e in employees;
    }
  }

  /** Search texts that lower-case alike select the same rows: matching ignores case. */
  lemma {:induction false} ByNameIgnoresCase(employees: seq<Employee>, s: string, t: string)
    requires ToLowerCase(s) == ToLowerCase(t)
    ensures ByName(employees, s) == ByName(employees, t)
  {
    assert (s == "") == (t == "") by {
      assert |s| == |ToLowerCase(s)| == |ToLowerCase(t)| == |t|;
    }
    FilterKeyedSameGuard(employees, NameGuard(s), NameGuard(t));
  }

  /** Each returned row is an input record with key == id. */
  lemma ByNameRows(employees: seq<Employee>, searchText: string)
    ensures forall r :: r in ByName(employees, searchText) ==> r.key == r.id && r.AsEmployee() in employees
  {
    FilterKeyedRowsFromInput(employees, NameGuard(searchText));
  }

  /** Searching the result again with the same text returns it unchanged. */
  lemma ByNameIdempotent(employees: seq<Employee>, searchText: string)
    ensures ByName(Strip(ByName(employees, searchText)), searchText) == ByName(employees, searchText)
  {
    FilterKeyedIdempotent(employees, NameGuard(searchText));
  }
}
