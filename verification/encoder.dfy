/** The tail of `make_roster`: maps the solver's terminal status to the
    response record and, on success, turns the first collected snapshot into
    one shift list per employee by filtering the items with value 1 and
    grouping them by employee. */
module RosterEncoder {
  import opened VariableSpace
  import opened Constraints
  import opened SolutionObserver
  import Decimal

  /** The terminal statuses of the CP-SAT solver. */
  datatype SolverStatus = Unknown | ModelInvalid | Feasible | Infeasible | Optimal

  /** The statuses for which the code reports a roster. */
  predicate FoundSolution(status: SolverStatus) {
    status == Optimal || status == Feasible
  }

  /** Response codes as the code writes them: 0 on success, 1 on failure. */
  const SuccessCode: int := 0
  const FailureCode: int := 1
  /** Week length reported when there is no roster. */
  const NoWeekLength: int := -1

  /** One `data` entry: the employee's label and the shift code of each day. */
  datatype EmployeeShifts = EmployeeShifts(employeeName: string, shifts: seq<int>)

  /** The response dictionary `{status, week_length, data}`. */
  datatype RosterResponse = RosterResponse(status: int, weekLength: int, data: seq<EmployeeShifts>)

  /** The keys whose value is 1, in snapshot order. */
  function AssignedKeys(snap: Snapshot): seq<Key> {
    if |snap| == 0 then []
    else (if snap[0].value then [snap[0].key] else []) + AssignedKeys(snap[1..])
  }

  /** The shift codes of employee i's keys, in the order given. */
  function ShiftsOf(taken: seq<Key>, i: int): seq<int> {
    if |taken| == 0 then []
    else (if taken[0].i == i then [taken[0].k] else []) + ShiftsOf(taken[1..], i)
  }

  /** The label `f"Employee {i}"`. */
  function EmployeeName(i: nat): string {
    "Employee " + Decimal.NatToString(i)
  }

  /** Models the result-building part of `make_roster`: on OPTIMAL or FEASIBLE
      a success record of week length d with one entry per employee, in
      ascending employee order, read off the first collected snapshot; on any
      other status the failure record. The code indexes the first snapshot
      without a check, so on success it demands that one exists. */
  function EncodeRoster(status: SolverStatus, solutions: seq<Snapshot>, e: nat, d: nat): (r: RosterResponse)
    requires FoundSolution(status) ==> |solutions| > 0
    ensures r.status == SuccessCode <==> FoundSolution(status)
    ensures r.status == SuccessCode || r.status == FailureCode
    ensures r.status == FailureCode ==> r.weekLength == NoWeekLength && r.data == []
    ensures r.status == SuccessCode ==> r.weekLength == d && |r.data| == e
    ensures r.status == SuccessCode ==>
      forall n :: 0 <= n < e ==> r.data[n].employeeName == EmployeeName(n + 1)
  {
    if FoundSolution(status) then
      var taken := AssignedKeys(solutions[0]);
      RosterResponse(SuccessCode, d,
        seq(e, n requires 0 <= n < e => EmployeeShifts(EmployeeName(n + 1), ShiftsOf(taken, n + 1))))
    else
      RosterResponse(FailureCode, NoWeekLength, [])
  }

  /** Distinct employees get distinct labels. */
  lemma EmployeeNamesDistinct(m: nat, n: nat)
    requires m != n
    ensures EmployeeName(m) != EmployeeName(n)
  {
    if EmployeeName(m) == EmployeeName(n) {
      var prefix := |"Employee "|;
      assert EmployeeName(m)[prefix..] == Decimal.NatToString(m);
      assert EmployeeName(n)[prefix..] == Decimal.NatToString(n);
      Decimal.NatToStringInjective(m, n);
    }
  }

  /** Reference reading of one cell: the shifts employee i takes on day j,
      ascending. */
  function DayShifts(a: Assignment, i: int, j: int, s: nat): seq<int> {
    if s == 0 then [] else DayShifts(a, i, j, s - 1) + (if a(Key(i, j, s)) then [s] else [])
  }

  /** Reference reading of one employee: the day lists of days 1..d in order. */
  function WeekShifts(a: Assignment, i: int, d: nat, s: nat): seq<int> {
    if d == 0 then [] else WeekShifts(a, i, d - 1, s) + DayShifts(a, i, d, s)
  }

  lemma {:induction false} AssignedKeysAppend(x: Snapshot, y: Snapshot)
    ensures AssignedKeys(x + y) == AssignedKeys(x) + AssignedKeys(y)
  {
    if |x| > 0 {
      assert (x + y)[0] == x[0];
      assert (x + y)[1..] == x[1..] + y;
      AssignedKeysAppend(x[1..], y);
    } else {
      assert x + y == y;
    }
  }

  lemma {:induction false} ShiftsOfAppend(x: seq<Key>, y: seq<Key>, i: int)
    ensures ShiftsOf(x + y, i) == ShiftsOf(x, i) + ShiftsOf(y, i)
  {
    if |x| > 0 {
      assert (x + y)[0] == x[0];
      assert (x + y)[1..] == x[1..] + y;
      ShiftsOfAppend(x[1..], y, i);
    } else {
      assert x + y == y;
    }
  }

  /** The filter-and-group encoding of employee i over a run of keys. */
  function Encoded(a: Assignment, keys: seq<Key>, i: int): seq<int> {
    ShiftsOf(AssignedKeys(Record(a, keys)), i)
  }

  lemma EncodedAppend(a: Assignment, x: seq<Key>, y: seq<Key>, i: int)
    ensures Encoded(a, x + y, i) == Encoded(a, x, i) + Encoded(a, y, i)
  {
    RecordAppend(a, x, y);
    AssignedKeysAppend(Record(a, x), Record(a, y));
    ShiftsOfAppend(AssignedKeys(Record(a, x)), AssignedKeys(Record(a, y)), i);
  }

  lemma EncodedSingle(a: Assignment, key: Key, i: int)
    ensures Encoded(a, [key], i) == if a(key) && key.i == i then [key.k] else []
  {
    var snap := Record(a, [key]);
    assert snap[0].value == a(key) && snap[0].key == key;
    assert |snap[1..]| == 0;
    assert AssignedKeys(snap[1..]) == [];
    var taken := AssignedKeys(snap);
    assert taken == if a(key) then [key] else [];
    if a(key) {
      assert taken[0] == key;
      assert |taken[1..]| == 0;
      assert ShiftsOf(taken[1..], i) == [];
    }
  }

  lemma {:induction false} EncodedCell(a: Assignment, i': int, j: int, s: nat, i: int)
    ensures Encoded(a, CellKeys(i', j, s), i) == if i' == i then DayShifts(a, i, j, s) else []
  {
    if s > 0 {
      EncodedCell(a, i', j, s - 1, i);
      EncodedAppend(a, CellKeys(i', j, s - 1), [Key(i', j, s)], i);
      EncodedSingle(a, Key(i', j, s), i);
    }
  }

  lemma {:induction false} EncodedRow(a: Assignment, i': int, d: nat, s: nat, i: int)
    ensures Encoded(a, RowKeys(i', d, s), i) == if i' == i then WeekShifts(a, i, d, s) else []
  {
    if d > 0 {
      EncodedRow(a, i', d - 1, s, i);
      EncodedAppend(a, RowKeys(i', d - 1, s), CellKeys(i', d, s), i);
      EncodedCell(a, i', d, s, i);
    }
  }

  /** Filtering a snapshot for the value 1 and keeping employee i's shift codes
      lists, day by day in ascending order, the shifts employee i takes that
      day; employees outside 1..e get the empty list. This relies on the
      snapshot being filled in employee-day-shift order. */
  lemma {:induction false} EncodingListsTakenShifts(a: Assignment, e: nat, d: nat, s: nat, i: int)
    ensures ShiftsOf(AssignedKeys(TakeSnapshot(a, e, d, s)), i) == if 1 <= i <= e then WeekShifts(a, i, d, s) else []
  {
    if e > 0 {
      EncodingListsTakenShifts(a, e - 1, d, s, i);
      EncodedAppend(a, AllKeys(e - 1, d, s), RowKeys(e, d, s), i);
      EncodedRow(a, e, d, s, i);
    }
  }

  /** The day list has one entry per shift taken, each a taken shift in 1..s. */
  lemma {:induction false} DayShiftsShape(a: Assignment, i: int, j: int, s: nat)
    ensures |DayShifts(a, i, j, s)| == ShiftCount(a, i, j, s)
    ensures forall t :: 0 <= t < |DayShifts(a, i, j, s)| ==>
      1 <= DayShifts(a, i, j, s)[t] <= s && a(Key(i, j, DayShifts(a, i, j, s)[t]))
  {
    if s > 0 {
      DayShiftsShape(a, i, j, s - 1);
    }
  }

  /** Under exactly-one, the week list has one entry per day, the unique
      shift of that day. */
  lemma {:induction false} WeekShiftsUnique(a: Assignment, i: int, d: nat, s: nat)
    requires forall j :: 1 <= j <= d ==> ShiftCount(a, i, j, s) == 1
    ensures |WeekShifts(a, i, d, s)| == d
    ensures forall j :: 0 <= j < d ==> UniqueShift(a, i, j + 1, s, WeekShifts(a, i, d, s)[j])
  {
    if d > 0 {
      WeekShiftsUnique(a, i, d - 1, s);
      DayShiftsShape(a, i, d, s);
      ExactlyOneMeansUnique(a, i, d, s);
      var day := DayShifts(a, i, d, s);
      var k :| UniqueShift(a, i, d, s, k);
      assert day == [day[0]];
      assert UniqueShift(a, i, d, s, day[0]);
    }
  }

  /** The key property of the encoding: for a snapshot of an assignment with
      exactly one shift per employee and day, employee i's list has one entry
      per day, and entry j is the one shift the employee takes on day j + 1. */
  lemma EncodingIsUniqueShiftPerDay(a: Assignment, e: nat, d: nat, s: nat, i: int)
    requires ExactlyOneShift(a, e, d, s)
    requires 1 <= i <= e
    ensures var shifts := ShiftsOf(AssignedKeys(TakeSnapshot(a, e, d, s)), i);
      && |shifts| == d
      && forall j :: 0 <= j < d ==> UniqueShift(a, i, j + 1, s, shifts[j])
  {
    EncodingListsTakenShifts(a, e, d, s, i);
    WeekShiftsUnique(a, i, d, s);
  }
}
