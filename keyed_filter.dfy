/**
 * The loop shared by both filters and by the list view: walk the employees in
 * order, skip those a guard rejects, and push `{ key: employee.id, ...employee }`
 * for the rest. Everything the three loops have in common is proved here once,
 * for an arbitrary guard.
 */
module KeyedFilter {
  import opened Types

  /** `{ key: employee.id, ...employee }`: an employee with a table-row key. */
  datatype Row = Row(
    key: string,
    id: string,
    name: string,
    title: string,
    organization: string,
    status: EmployeeStatus)
  {
    /** The row seen as an `Employee` (structural typing drops nothing but `key`). */
    function AsEmployee(): Employee
    {
      Employee(id, name, title, organization, status)
    }
  }

  /** The row pushed for `e`: its key is its id and every other field is `e`'s. */
  function Keyed(e: Employee): (r: Row)
    ensures r.key == r.id == e.id
    ensures r.AsEmployee() == e
  {
    Row(e.id, e.id, e.name, e.title, e.organization, e.status)
  }

  lemma KeyedInjective(a: Employee, b: Employee)
    requires Keyed(a) == Keyed(b)
    ensures a == b
  {
    assert Keyed(a).AsEmployee() == Keyed(b).AsEmployee();
  }

  /** What the loop leaves in its result array after visiting all of `es`. */
  function FilterKeyed(es: seq<Employee>, keep: Employee -> bool): (r: seq<Row>)
    ensures |r| <= |es|
    ensures forall k :: 0 <= k < |r| ==> r[k].key == r[k].id
    ensures es == [] ==> r == []
  {
    if es == [] then []
    else
      var last := es[|es| - 1];
      FilterKeyed(es[..|es| - 1], keep) + (if keep(last) then [Keyed(last)] else [])
  }

  /** Every record, keyed, in input order. */
  function AllKeyed(es: seq<Employee>): (r: seq<Row>)
    ensures |r| == |es|
    ensures forall k :: 0 <= k < |es| ==> r[k] == Keyed(es[k])
  {
    seq(|es|, k requires 0 <= k < |es| => Keyed(es[k]))
  }

  /** The rows handed on as employees, the way the next filter receives them. */
  function Strip(rows: seq<Row>): (es: seq<Employee>)
    ensures |es| == |rows|
    ensures forall k :: 0 <= k < |rows| ==> es[k] == rows[k].AsEmployee()
  {
    seq(|rows|, k requires 0 <= k < |rows| => rows[k].AsEmployee())
  }

  function Ids(rows: seq<Row>): (ids: seq<string>)
    ensures |ids| == |rows|
    ensures forall k :: 0 <= k < |rows| ==> ids[k] == rows[k].id
  {
    seq(|rows|, k requires 0 <= k < |rows| => rows[k].id)
  }

  /** One more step of the loop: the record at the end is skipped or pushed. */
  lemma FilterKeyedSnoc(es: seq<Employee>, e: Employee, keep: Employee -> bool)
    ensures FilterKeyed(es + [e], keep) == FilterKeyed(es, keep) + (if keep(e) then [Keyed(e)] else [])
  {
    assert (es + [e])[..|es|] == es;
  }

  /** The loop over two records. */
  lemma FilterKeyedPair(a: Employee, b: Employee, keep: Employee -> bool)
    ensures FilterKeyed([a, b], keep) == (if keep(a) then [Keyed(a)] else []) + (if keep(b) then [Keyed(b)] else [])
  {
    FilterKeyedSnoc([], a, keep);
    FilterKeyedSnoc([a], b, keep);
  }

  /**
   * The positions of the kept records: strictly increasing, each a record the
   * guard accepts and whose keyed row stands at that place of the result, and
   * every accepted position listed. So the result is the subsequence of the
   * input made of exactly the accepted records, in input order.
   */
  function Origins(es: seq<Employee>, keep: Employee -> bool): (idx: seq<nat>)
    ensures |idx| == |FilterKeyed(es, keep)|
    ensures forall k :: 0 <= k < |idx| ==>
      idx[k] < |es| && keep(es[idx[k]]) && FilterKeyed(es, keep)[k] == Keyed(es[idx[k]])
    ensures forall j, k :: 0 <= j < k < |idx| ==> idx[j] < idx[k]
    ensures forall i :: 0 <= i < |es| && keep(es[i]) ==> i in idx
  {
    if es == [] then []
    else
      var n := |es| - 1;
      var front := es[..n];
      var before := Origins(front, keep);
      assert es == front + [es[n]];
      FilterKeyedSnoc(front, es[n], keep);
      if keep(es[n]) then before + [n] else before
  }

  /** A row is in the result iff its employee is in the input and the guard accepts it. */
  lemma {:induction false} FilterKeyedMembership(es: seq<Employee>, keep: Employee -> bool, e: Employee)
    ensures Keyed(e) in FilterKeyed(es, keep) <==> e in es && keep(e)
  {
    var r, idx := FilterKeyed(es, keep), Origins(es, keep);
    if Keyed(e) in r {
      var k :| 0 <= k < |r| && r[k] == Keyed(e);
      KeyedInjective(e, es[idx[k]]);
    }
    if e in es && keep(e) {
      var i :| 0 <= i < |es| && es[i] == e;
      var k :| 0 <= k < |idx| && idx[k] == i;
      assert r[k] == Keyed(e);
    }
  }

  /** Every row of the result is a keyed input record. */
  lemma FilterKeyedRowsFromInput(es: seq<Employee>, keep: Employee -> bool)
    ensures forall r :: r in FilterKeyed(es, keep) ==> r.key == r.id && r.AsEmployee() in es && keep(r.AsEmployee())
  {
    var rows, idx := FilterKeyed(es, keep), Origins(es, keep);
    forall r | r in rows
      ensures r.key == r.id && r.AsEmployee() in es && keep(r.AsEmployee())
    {
      var k :| 0 <= k < |rows| && rows[k] == r;
      assert r == Keyed(es[idx[k]]);
    }
  }

  /** A guard that accepts everything lets every record through, keyed, in order. */
  lemma {:induction false} FilterKeyedKeepAll(es: seq<Employee>, keep: Employee -> bool)
    requires forall e :: keep(e)
    ensures FilterKeyed(es, keep) == AllKeyed(es)
  {
    if es != [] {
      var n := |es| - 1;
      FilterKeyedKeepAll(es[..n], keep);
      assert AllKeyed(es) == AllKeyed(es[..n]) + [Keyed(es[n])];
    }
  }

  /** Guards that agree on every record give the same result. */
  lemma {:induction false} FilterKeyedSameGuard(es: seq<Employee>, p: Employee -> bool, q: Employee -> bool)
    requires forall e :: p(e) == q(e)
    ensures FilterKeyed(es, p) == FilterKeyed(es, q)
  {
    if es != [] {
      FilterKeyedSameGuard(es[..|es| - 1], p, q);
    }
  }

  /**
   * Filtering the rows of a first pass again is one pass with both guards:
   * the second pass re-keys each row with the same key, since key == id.
   */
  lemma {:induction false} FilterKeyedTwice(es: seq<Employee>, p: Employee -> bool, q: Employee -> bool, both: Employee -> bool)
    requires forall e :: both(e) == (p(e) && q(e))
    ensures FilterKeyed(Strip(FilterKeyed(es, p)), q) == FilterKeyed(es, both)
  {
    if es != [] {
      var n := |es| - 1;
      var front, last := es[..n], es[n];
      FilterKeyedTwice(front, p, q, both);
      var first := FilterKeyed(front, p);
      if p(last) {
        assert Strip(first + [Keyed(last)]) == Strip(first) + [last];
        FilterKeyedSnoc(Strip(first), last, q);
      } else {
        assert FilterKeyed(es, p) == first;
      }
    }
  }

  /** Applying the same filter again changes nothing. */
  lemma FilterKeyedIdempotent(es: seq<Employee>, keep: Employee -> bool)
    ensures FilterKeyed(Strip(FilterKeyed(es, keep)), keep) == FilterKeyed(es, keep)
  {
    FilterKeyedTwice(es, keep, keep, keep);
  }

  /** The order in which two filters run does not matter. */
  lemma FilterKeyedCommute(es: seq<Employee>, p: Employee -> bool, q: Employee -> bool)
    ensures FilterKeyed(Strip(FilterKeyed(es, p)), q) == FilterKeyed(Strip(FilterKeyed(es, q)), p)
  {
    var both := e => p(e) && q(e);
    FilterKeyedTwice(es, p, q, both);
    FilterKeyedTwice(es, q, p, both);
  }
}
