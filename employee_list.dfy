/**
 * The employee list view: its state (status filter, search text, selected
 * keys, the loaded data) and the table rows it derives from that state with
 * one loop that applies the status guard and then the name guard.
 */
module EmployeeListView {
  import opened Types
  import opened Text
  import opened KeyedFilter
  import opened StatusFilter
  import opened NameFilter
  import SelectionBarView

  /** `data || []`: data not loaded yet reads as no employees. */
  function OrEmpty(data: Option<seq<Employee>>): seq<Employee>
  {
    match data
    case None => []
    case Some(employees) => employees
  }

  /** A record reaches the table iff neither `continue` of the loop fires. */
  function DisplayGuard(activeFilter: EmployeeStatusFilter, searchText: string): Employee -> bool
  {
    e => !SkippedByStatus(e, activeFilter) && !SkippedByName(e, searchText)
  }

  /** The rows of `dataSource`. */
  function DisplayRows(data: Option<seq<Employee>>, activeFilter: EmployeeStatusFilter, searchText: string): seq<Row>
  {
    FilterKeyed(OrEmpty(data), DisplayGuard(activeFilter, searchText))
  }

  class EmployeeList {
    var activeFilter: EmployeeStatusFilter
    var searchText: string
    var checkedEmployees: seq<string>
    /** The query's data: `None` until the employees are loaded. */
    var data: Option<seq<Employee>>

    /** First render: all statuses, no search text, nothing selected. */
    constructor (data: Option<seq<Employee>>)
      ensures activeFilter == AllStatus && searchText == "" && checkedEmployees == []
      ensures this.data == data
    {
      activeFilter := AllStatus;
      searchText := "";
      checkedEmployees := [];
      this.data := data;
    }

    /** The status radio group changed. */
    method SetActiveFilter(value: EmployeeStatusFilter)
      modifies this`activeFilter
      ensures activeFilter == value
    {
      activeFilter := value;
    }

    /** The search input changed. */
    method SetSearchText(value: string)
      modifies this`searchText
      ensures searchText == value
    {
      searchText := value;
    }

    /** The table's row selection changed. */
    method SetCheckedEmployees(keys: seq<string>)
      modifies this`checkedEmployees
      ensures checkedEmployees == keys
    {
      checkedEmployees := keys;
    }

    /** The employees query produced data (or was reset to none). */
    method ReceiveData(value: Option<seq<Employee>>)
      modifies this`data
      ensures data == value
    {
      data := value;
    }

    /** The render-time loop that builds the table's `dataSource`. */
    method DataSource() returns (dataSource: seq<Row>)
      ensures dataSource == DisplayRows(data, activeFilter, searchText)
      ensures data == None ==> dataSource == []
    {
      var employees, filter, search := OrEmpty(data), activeFilter, searchText;
      dataSource := [];
      for i := 0 to |employees|
        invariant dataSource == FilterKeyed(employees[..i], DisplayGuard(filter, search))
      {
        var employee := employees[i];
        assert employees[..i + 1] == employees[..i] + [employee];
        FilterKeyedSnoc(employees[..i], employee, DisplayGuard(filter, search));
        if SkippedByStatus(employee, filter) {
          continue;
        }
        if SkippedByName(employee, search) {
          continue;
        }
        dataSource := dataSource + [Keyed(employee)];
      }
      assert employees[..|employees|] == employees;
    }

    /** The inline selection bar: shown iff something is selected, with that count. */
    function SelectionBar(): (v: SelectionBarView.BarView)
      reads this
      ensures v.Hidden? <==> |checkedEmployees| == 0
      ensures v.Bar? ==> v.count == |checkedEmployees| && !v.statusActionsLoading
    {
      if |checkedEmployees| > 0 then SelectionBarView.Bar(|checkedEmployees|, false)
      else SelectionBarView.Hidden
    }
  }

  /** The fused loop yields exactly `filterByName(filterByStatus(data || [], f), s)`. */
  lemma FusedLoopIsComposition(data: Option<seq<Employee>>, activeFilter: EmployeeStatusFilter, searchText: string)
    ensures DisplayRows(data, activeFilter, searchText) == ByName(Strip(ByStatus(OrEmpty(data), activeFilter)), searchText)
  {
    FilterKeyedTwice(OrEmpty(data), StatusGuard(activeFilter), NameGuard(searchText), DisplayGuard(activeFilter, searchText));
  }

  /** Filtering by status then by name gives the same rows as by name then by status. */
  lemma StatusAndNameCommute(employees: seq<Employee>, activeFilter: EmployeeStatusFilter, searchText: string)
    ensures ByName(Strip(ByStatus(employees, activeFilter)), searchText)
         == ByStatus(Strip(ByName(employees, searchText)), activeFilter)
  {
    FilterKeyedCommute(employees, StatusGuard(activeFilter), NameGuard(searchText));
  }

  /** A record is a row of the table iff it is loaded and passes both guards. */
  lemma DisplayMembership(data: Option<seq<Employee>>, activeFilter: EmployeeStatusFilter, searchText: string, e: Employee)
    ensures Keyed(e) in DisplayRows(data, activeFilter, searchText) <==>
      e in OrEmpty(data) && !SkippedByStatus(e, activeFilter) && !SkippedByName(e, searchText)
  {
    FilterKeyedMembership(OrEmpty(data), DisplayGuard(activeFilter, searchText), e);
  }

  /** Every row is a loaded record in server order with key == id (see `Origins`). */
  lemma DisplayRowsAreKeyedRecords(data: Option<seq<Employee>>, activeFilter: EmployeeStatusFilter, searchText: string)
    ensures forall r :: r in DisplayRows(data, activeFilter, searchText) ==> r.key == r.id && r.AsEmployee() in OrEmpty(data)
  {
    FilterKeyedRowsFromInput(OrEmpty(data), DisplayGuard(activeFilter, searchText));
  }

  /** In the initial state every loaded employee is a row, keyed, in server order. */
  lemma InitialStateShowsEverything(employees: seq<Employee>)
    ensures DisplayRows(Some(employees), AllStatus, "") == AllKeyed(employees)
  {
    FilterKeyedKeepAll(employees, DisplayGuard(AllStatus, ""));
  }

  /** The first render of the list over loaded data shows every employee. */
  method FirstRender(employees: seq<Employee>) returns (dataSource: seq<Row>, bar: SelectionBarView.BarView)
    ensures dataSource == AllKeyed(employees)
    ensures bar == SelectionBarView.Hidden
  {
    var view := new EmployeeList(Some(employees));
    dataSource := view.DataSource();
    bar := view.SelectionBar();
    InitialStateShowsEverything(employees);
  }

  /** The inline bar agrees with the selection bar component when no mutation runs. */
  lemma InlineBarMatchesComponent(v: EmployeeList)
    ensures v.SelectionBar() == SelectionBarView.RenderBar(v.checkedEmployees, false)
  {
  }

  /**
   * The two-employee fixture of the view's tests. The names are written as
   * concatenations so that the verifier does not evaluate every string
   * function on them eagerly.
   */
  const TestName1: Employee := Employee("1", "Test Name " + "1", "Tester", "Core", Active)
  const TestName2: Employee := Employee("2", "Test Name " + "2", "Productivity", "Branch", Inactive)

  /** The search text the tests type into the search box. */
  const NameTwo: string := "name " + "2"

  /** Lower-casing the fixture's names and the search text of the tests. */
  lemma FixtureLowerCase(d: char)
    requires '0' <= d <= '9'
    ensures ToLowerCase("Test Name " + [d]) == "test name " + [d]
    ensures ToLowerCase("name " + [d]) == "name " + [d]
  {
    var name, lowerName := "Test Name " + [d], "test name " + [d];
    forall i | 0 <= i < |name|
      ensures ToLowerCase(name)[i] == lowerName[i]
    {
    }
    var query := "name " + [d];
    forall i | 0 <= i < |query|
      ensures ToLowerCase(query)[i] == query[i]
    {
    }
  }

  /** Search "name <d'>" matches "Test Name <d>" exactly when the digits agree. */
  lemma FixtureSearch(d: char, d': char)
    requires '0' <= d <= '9' && '0' <= d' <= '9'
    ensures Includes(ToLowerCase("Test Name " + [d]), ToLowerCase("name " + [d'])) <==> d == d'
  {
    FixtureLowerCase(d);
    FixtureLowerCase(d');
    var name, query := "test name " + [d], "name " + [d'];
    if d == d' {
      assert name[5..11] == query;
      assert OccursAt(name, query, 5);
    } else {
      forall i: nat
        ensures !OccursAt(name, query, i)
      {
        if i + 6 <= 11 {
          assert name[i..i + 6][5] == name[i + 5] && query[5] == d';
        }
      }
    }
  }

  /** Search "name 2" keeps "Test Name 2" and drops "Test Name 1". */
  lemma NameTwoMatchesOnlySecond()
    ensures !SkippedByName(TestName2, NameTwo)
    ensures SkippedByName(TestName1, NameTwo)
  {
    FixtureSearch('1', '2');
    FixtureSearch('2', '2');
    assert NameTwo == "name " + ['2'];
  }

  /** The worked examples: the status and search choices the tests make, on the fixture. */
  lemma FixtureExamples()
    ensures DisplayRows(Some([TestName1, TestName2]), Only(Active), "") == [Keyed(TestName1)]
    ensures DisplayRows(Some([TestName1, TestName2]), Only(Inactive), "") == [Keyed(TestName2)]
    ensures DisplayRows(Some([TestName1, TestName2]), AllStatus, NameTwo) == [Keyed(TestName2)]
    ensures DisplayRows(Some([TestName1, TestName2]), Only(Active), NameTwo) == []
    ensures ByStatus([TestName1, TestName2], Only(Active)) == [Keyed(TestName1)]
    ensures ByStatus([TestName1, TestName2], Only(Inactive)) == [Keyed(TestName2)]
    ensures ByName([TestName1, TestName2], NameTwo) == [Keyed(TestName2)]
  {
    NameTwoMatchesOnlySecond();
    FilterKeyedPair(TestName1, TestName2, StatusGuard(Only(Active)));
    FilterKeyedPair(TestName1, TestName2, StatusGuard(Only(Inactive)));
    FilterKeyedPair(TestName1, TestName2, NameGuard(NameTwo));
    FilterKeyedPair(TestName1, TestName2, DisplayGuard(Only(Active), ""));
    FilterKeyedPair(TestName1, TestName2, DisplayGuard(Only(Inactive), ""));
    FilterKeyedPair(TestName1, TestName2, DisplayGuard(AllStatus, NameTwo));
    FilterKeyedPair(TestName1, TestName2, DisplayGuard(Only(Active), NameTwo));
  }
}
