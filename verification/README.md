# Roster generator core, modelled in Dafny

The roster generator assigns each of `e` employees one shift code per day for
`d` days, out of `s` shift codes. Code 1 means "day off". Codes 2..s are
working shifts. `RosterProblem` builds a 0/1 variable grid indexed by
(employee, day, shift). It then adds three rules:

- exactly one shift per employee and day;
- the days-off rule: exactly 2 days off per employee in hard mode, at most 2
  in soft mode, where the solver also maximises the total days off;
- coverage: every working shift of every day has at least one employee.

The CP-SAT solver then searches for solutions. The callback
`SolutionPrinter` stores a snapshot of the grid for each solution and prints
it. It asks the solver to stop once 5 snapshots exist. `make_roster` turns
the first snapshot into one shift list per employee, or builds a failure
record.

Two inputs make `make_roster` raise instead of returning:

- Employees and days but no shift codes. The days-off rule looks up the
  variable of shift 1, which was never created, and raises a KeyError
  before the solver starts.
- A week of more than seven days, with at least one solution reported. The
  printout labels days with the seven letters `M T W T F S S`. The lookup
  for day 8 raises an IndexError inside the callback, after the snapshot is
  stored and before the stop check.

The model has one module per component:

- `VariableSpace` (variables.dfy): the keys of the grid, in creation order.
- `Constraints` (constraints.dfy): the rules as predicates over a total
  valuation `Key -> bool`, the soft-mode objective, and the lookups the
  rules make.
- `SolutionObserver` (observer.dfy): snapshots, the capped callback and the
  exception raised by its printout, and a solver that honours the stop
  request.
- `RosterEncoder` (encoder.dfy): the status mapping, and the
  filter-and-group encoding of a snapshot.
- `Decimal` (decimal.dfy): the `Employee {i}` label.
- `Roster` (roster.dfy): `make_roster` end to end, as an outcome that is
  either a response or an exception. Here the solver is an oracle: a
  terminal status plus the assignments it reported, in order.

Facts about the code that its comments and docstrings do not make plain:

- The days-off quota is the literal 2 in both modes. It is not a parameter.
- Success is `status: 0` and failure is `status: 1`.
- The first rule is "exactly one", not the "at most one" its comment says.
- The label field is `employee_name`, with value `Employee i`.
- Parameters are not validated. There is no outcome for invalid parameters
  beyond the two exceptions above.
- The response always shows the first solution found. There is no random
  selection.
- In soft mode the response need not maximise the total days off, because
  `make_roster` shows the first solution reported, not the optimum.
  `Roster.SoftResponseNeedNotBeOptimal` shows a solver run allowed by the
  contract where the status is OPTIMAL and the response has no day off,
  although a roster with one day off exists.
- Two employees, seven days and three shifts in hard mode is infeasible. On
  a day employee 1 is off, employee 2 would have to cover shifts 2 and 3
  alone (`Constraints.TwoEmployeesThreeShiftsInfeasible`). Three employees
  over seven days is solvable (`Constraints.SampleWeekAcceptable`).

## Model

| member | source | states |
|---|---|---|
| VariableSpace.CreateVariables | roster_solver.py:19-31 | The three nested loops create e·d·s keys. A key is created iff it is in range. The keys come in strictly increasing employee-day-shift order, so none repeats. |
| VariableSpace.AllKeysShape | roster_solver.py:24-31 | The creation order holds exactly the in-range keys, e·d·s of them, each once, in employee-day-shift order. |
| Constraints.ExactlyOneMeansUnique | roster_solver.py:39-44 | The exactly-one sum constraint on a cell holds iff there is one and only one shift in 1..s set for that employee and day. |
| Constraints.StaffedMeansSomeone | roster_solver.py:64-74 | The coverage sum is positive iff some employee in 1..e takes that shift on that day. |
| Constraints.AllDaysOff | roster_solver.py:58-63 | An employee has d days off over d days iff every day has the day-off shift set. |
| Constraints.SoftModeObjectiveAtMostQuota | roster_solver.py:46-57 | In soft mode every acceptable assignment has objective (total days off) at most 2·e. |
| Constraints.HardIsSoftAtTheBound | roster_solver.py:46-63 | Every hard-mode assignment is acceptable in soft mode and reaches the objective bound 2·e. |
| Constraints.FullObjectiveMeetsQuota | roster_solver.py:46-63 | If every employee has at most 2 days off and the total is 2·e, then every employee has exactly 2. |
| Constraints.SoftOptimumMeetsHardQuota | roster_solver.py:46-63 | If hard mode is satisfiable, every soft optimum has objective 2·e and is itself a hard-mode assignment. |
| Constraints.MissingOffKeyIff | roster_solver.py:46-63 | The days-off rule looks up a variable that was never created iff there is at least one employee and one day but no shift code. |
| Constraints.RuleLookupsExist | roster_solver.py:39-74 | Every variable the exactly-one and coverage rules look up, (i, j, k) with i in 1..e, j in 1..d and k in 1..s, was created. |
| Constraints.HardModeNeedsTwoDays | roster_solver.py:58-63 | With at least one employee and fewer than 2 days, hard mode admits no assignment. |
| Constraints.OneShiftMeansAlwaysOff | roster_solver.py:39-74 | With a single shift code, exactly-one sends every employee off every day, and coverage holds vacuously. |
| Constraints.OffExcludesWork | roster_solver.py:39-44 | Under exactly-one, an employee on the day-off shift takes no working shift that day. |
| Constraints.HardModeTwoDaysInfeasible | roster_solver.py:58-74 | Hard mode over 2 days with a working shift admits no assignment, for any number of employees. |
| Constraints.SingleEmployeeTwoDaysInfeasible | roster_solver.py:58-74 | One employee, two days, three shifts, hard mode: no assignment is acceptable. |
| Constraints.TwoEmployeesThreeShiftsInfeasible | roster_solver.py:39-74 | Two employees and three shifts in hard mode admit no assignment, for any number of days. |
| Constraints.SampleWeekAcceptable | roster_solver.py:39-74 | A concrete week for three employees, seven days and three shifts meets all hard-mode rules. |
| Constraints.SampleSoftOptimumTakesFullQuota | roster_solver.py:46-63 | For three employees, seven days and three shifts, every soft optimum gives each employee exactly 2 days off. |
| SolutionObserver.SnapshotRecordsAssignment | roster_solver.py:145-149 | A snapshot has e·d·s items. Looking up an in-range key gives the solver's value for it. Any other key is absent. |
| SolutionObserver.HeaderInRangeIff | roster_solver.py:156-164 | The printout finds a label for every day iff the week has at most seven days. |
| SolutionObserver.OnSolution | roster_solver.py:141-164 | One invocation appends exactly one snapshot and leaves earlier snapshots unchanged. It raises iff the week is longer than seven days. It requests a stop iff it does not raise and the new count reaches the limit. |
| SolutionObserver.StopIsSticky | roster_solver.py:152-154 | Once a stop has been requested, every later invocation requests it again. |
| SolutionObserver.Deliver | roster_solver.py:150-164 | Feeding the callback keeps the earlier snapshots as a prefix. It adds at least one snapshot when the stream is non-empty. It ends with an exception iff the stream is non-empty and the week is longer than seven days. |
| SolutionObserver.DeliverTakesCappedPrefix | roster_solver.py:150-164 | From any state, a solver that honours the stop adds the snapshots of the first min(n, max(limit − count, 1)) assignments, in discovery order. On a week longer than seven days it adds only the first. |
| SolutionObserver.CollectedSolutionsAreCapped | roster_solver.py:97-102 | From a fresh callback on a week of at most seven days, the collected snapshots are those of the first min(n, max(limit, 1)) assignments. So there are never more than `limit` when the limit is positive. On a longer week only the first is collected, and the callback raises iff a solution was reported. |
| RosterEncoder.EncodeRoster | roster_solver.py:103-124 | OPTIMAL or FEASIBLE gives status 0, week length d and e entries labelled `Employee 1`..`Employee e`. Any other status gives status 1, week length −1 and no data. |
| RosterEncoder.EmployeeNamesDistinct | roster_solver.py:116 | Different employee numbers get different labels. |
| Decimal.NatToString | roster_solver.py:116 | The label number is a non-empty string of decimal digits with no leading zero. |
| Decimal.ParseNatToString | roster_solver.py:116 | Parsing the rendered label number gives the number back. |
| RosterEncoder.EncodingListsTakenShifts | roster_solver.py:110-114 | Filter-then-group over the snapshot lists, day by day, the shifts employee i takes. Employees outside 1..e get the empty list. |
| RosterEncoder.EncodingIsUniqueShiftPerDay | roster_solver.py:110-117 | Under exactly-one, employee i's list has length d. Entry j is in 1..s and is the unique shift set on day j+1. |
| Roster.MakeRoster | roster_solver.py:86-126 | It raises a KeyError iff there are employees and days but no shift code. Otherwise it raises an IndexError iff a solution was reported on a week longer than seven days. A returned response is a success iff the solver status is OPTIMAL or FEASIBLE. A returned failure has week length −1 and no data. |
| Roster.OffDaysCounted | roster_solver.py:58-63 | A list that names the unique shift of each day contains code 1 exactly as often as the employee has days off. |
| Roster.EncodingObeysRules | roster_solver.py:103-117 | Encoding an acceptable snapshot gives a response in which every listed code is set in the assignment. Each list has d codes in 1..s. The quota holds: exactly 2 offs (hard) or at most 2 (soft). Every working shift of every day is covered. |
| Roster.MakeRosterMeetsRules | roster_solver.py:86-126 | If the solver honours its contract: a KeyError iff there are employees and days but no shift code; an IndexError iff otherwise a solution was reported on a week longer than seven days, which OPTIMAL or FEASIBLE entails. Success iff neither exception happens and the status is OPTIMAL or FEASIBLE. A returned failure is exactly the failure record. Success shows the first reported assignment and obeys every rule. |
| Roster.NoRosterWhenUnsatisfiable | roster_solver.py:86-124 | If no assignment is acceptable, the outcome is the KeyError when there are employees and days but no shift code, and otherwise exactly the failure record. |
| Roster.HardTwoDaysResponseFails | roster_solver.py:58-124 | Hard mode over two days with a working shift always returns the failure record. |
| Roster.SoftResponseNeedNotBeOptimal | roster_solver.py:97-114 | There is a run allowed by the contract, with status OPTIMAL in soft mode, whose response has no day off. Yet an acceptable roster with one day off exists. |

## Left out

- The CP-SAT search itself (`Solve`, propagation, proof of optimality,
  `enumerate_all_solutions`). It is a third-party engine. It appears only as
  the oracle `Roster.SolverRun`, which must satisfy `Roster.HonoursContract`.
- Variable handles and their names `i=…_j=…_k=…`. The key itself stands for
  its variable.
- The text that `print_stats`, `print_solution` and the callback write to
  standard output. Only the IndexError that `print_solution` raises is
  modelled.
- main.py (HTTP app and CORS setup) and algorithm.py (a fixed demo script
  repeating the grid and exactly-one rule). Neither is part of this model.
- Negative counts. The model uses natural numbers. In the code a negative
  count gives an empty `range`, just as 0 does, so a negative shift count
  raises the same KeyError as 0. The one other difference is `week_length`,
  which would echo a negative day count.
- Roster.MakeRoster: the code raises an IndexError if the solver reported
  OPTIMAL or FEASIBLE without any callback. The model instead requires a
  solution on success, since CP-SAT always reports one before either status.
- RosterEncoder.EncodeRoster: the same IndexError on an empty solution list
  is excluded by its requirement of a snapshot on success, for the same
  reason.
- Roster.MakeRoster: an exception raised inside the callback is taken to end
  `make_roster` without a response, whether `Solve` passes it on or the
  process aborts. A solver that swallows it and keeps searching is not
  modelled.
- A solver that delivers solutions after a stop request is not modelled as
  a stream. Only `SolutionObserver.StopIsSticky` covers it: later
  invocations keep requesting the stop.
- Multithreaded search and concurrent callbacks. The callback is treated as
  a sequential stream.
