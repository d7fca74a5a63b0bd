/** `RosterProblem.make_roster` end to end: the solver is an oracle that
    reports a terminal status and the acceptable assignments it found, in
    discovery order; the callback collects them up to the cap and the encoder
    turns the first one into the response. Building the model or running the
    callback can raise instead, and then no response is returned. */
module Roster {
  import opened VariableSpace
  import opened Constraints
  import opened SolutionObserver
  import opened RosterEncoder

  /** The constructor arguments of `RosterProblem`. */
  datatype Problem = Problem(e: nat, d: nat, s: nat, softDaysOff: bool)

  predicate IsAcceptable(p: Problem, a: Assignment) {
    Acceptable(p.e, p.d, p.s, p.softDaysOff, a)
  }

  /** What the solver does with the model: the assignments it reports to the
      callback, in order, and its terminal status. */
  datatype SolverRun = SolverRun(status: SolverStatus, found: seq<Assignment>)

  /** The solver's side of the contract: it only reports acceptable
      assignments, reports at least one before OPTIMAL or FEASIBLE, claims
      INFEASIBLE only when nothing is acceptable, and in soft mode claims
      OPTIMAL only after reporting an optimal assignment last. */
  ghost predicate HonoursContract(p: Problem, run: SolverRun) {
    && (forall n :: 0 <= n < |run.found| ==> IsAcceptable(p, run.found[n]))
    && (FoundSolution(run.status) ==> |run.found| > 0)
    && (run.status == Infeasible ==> forall a :: !IsAcceptable(p, a))
    && (run.status == Optimal && p.softDaysOff ==>
          |run.found| > 0 && SoftOptimal(p.e, p.d, p.s, run.found[|run.found| - 1]))
  }

  /** The exceptions `make_roster` can end with. */
  datatype Exception = KeyError | IndexError

  /** How a call of `make_roster` ends: it returns a response, or an
      exception escapes. */
  datatype Outcome = Returned(response: RosterResponse) | Raised(error: Exception)

  /** The inputs for which `make_roster` raises before the solver starts:
      there are employees and days but no shift codes. */
  predicate BuildRaises(p: Problem) {
    p.e >= 1 && p.d >= 1 && p.s == 0
  }

  /** Models `make_roster`. Adding the days-off rule raises a KeyError when one
      of the variables it reads is missing, before the solver starts.
      Otherwise the reported assignments go through the callback with the cap
      `SolutionLimit`; an exception from the callback escapes the solver, and
      if there is none the first collected snapshot is encoded. */
  function MakeRoster(p: Problem, run: SolverRun): (o: Outcome)
    requires FoundSolution(run.status) ==> |run.found| > 0
    ensures o == Raised(KeyError) <==> BuildRaises(p)
    ensures o == Raised(IndexError) <==> !BuildRaises(p) && |run.found| > 0 && p.d > |DayLetters|
    ensures o.Returned? ==> (o.response.status == SuccessCode <==> FoundSolution(run.status))
    ensures o.Returned? && o.response.status == FailureCode ==>
      o.response.weekLength == NoWeekLength && o.response.data == []
  {
    MissingOffKeyIff(p.e, p.d, p.s);
    if DaysOffReadsMissingKey(p.e, p.d, p.s) then Raised(KeyError)
    else
      var delivered := Deliver(NewCollector(p.e, p.d, p.s, SolutionLimit), run.found);
      if delivered.raised then Raised(IndexError)
      else Returned(EncodeRoster(run.status, delivered.next.solutions, p.e, p.d))
  }

  /** How often `v` occurs in `xs`. */
  function Occurrences(xs: seq<int>, v: int): (n: nat)
    ensures n <= |xs|
  {
    if |xs| == 0 then 0
    else Occurrences(xs[..|xs| - 1], v) + (if xs[|xs| - 1] == v then 1 else 0)
  }

  /** The response-level rules: one entry per employee in ascending order,
      one shift code in 1..s per day, the days-off quota met exactly (hard)
      or not exceeded (soft), and every working shift of every day taken by
      someone. */
  predicate ObeysRules(r: RosterResponse, p: Problem) {
    && r.weekLength == p.d
    && |r.data| == p.e
    && (forall n :: 0 <= n < p.e ==> r.data[n].employeeName == EmployeeName(n + 1))
    && (forall n :: 0 <= n < p.e ==>
          && |r.data[n].shifts| == p.d
          && (forall j :: 0 <= j < p.d ==> 1 <= r.data[n].shifts[j] <= p.s)
          && (if p.softDaysOff then Occurrences(r.data[n].shifts, OffShift) <= DaysOffTarget
              else Occurrences(r.data[n].shifts, OffShift) == DaysOffTarget))
    && (forall j, k :: 0 <= j < p.d && 2 <= k <= p.s ==> Staffed(r, j, k))
  }

  /** Some entry of the response has shift k on day index j. */
  predicate Staffed(r: RosterResponse, j: int, k: int) {
    exists n :: 0 <= n < |r.data| && 0 <= j < |r.data[n].shifts| && r.data[n].shifts[j] == k
  }

  /** Every entry of the response is a variable the assignment sets to 1. */
  predicate ShowsAssignment(r: RosterResponse, a: Assignment) {
    forall n, j :: 0 <= n < |r.data| && 0 <= j < |r.data[n].shifts| ==>
      a(Key(n + 1, j + 1, r.data[n].shifts[j]))
  }

  /** A list that names the unique shift of each day counts the days off. */
  lemma {:induction false} OffDaysCounted(a: Assignment, i: int, s: nat, xs: seq<int>)
    requires forall j :: 0 <= j < |xs| ==> UniqueShift(a, i, j + 1, s, xs[j])
    ensures Occurrences(xs, OffShift) == DaysOff(a, i, |xs|)
  {
    if |xs| > 0 {
      var last := |xs| - 1;
      OffDaysCounted(a, i, s, xs[..last]);
      assert xs[last] == OffShift <==> a(Key(i, |xs|, OffShift));
    }
  }

  /** Encoding the snapshot of an acceptable assignment yields a response
      that shows that assignment and obeys every roster rule. */
  lemma EncodingObeysRules(p: Problem, status: SolverStatus, solutions: seq<Snapshot>, a: Assignment)
    requires FoundSolution(status) && |solutions| > 0
    requires solutions[0] == TakeSnapshot(a, p.e, p.d, p.s)
    requires IsAcceptable(p, a)
    ensures ObeysRules(EncodeRoster(status, solutions, p.e, p.d), p)
    ensures ShowsAssignment(EncodeRoster(status, solutions, p.e, p.d), a)
  {
    var r := EncodeRoster(status, solutions, p.e, p.d);
    forall n | 0 <= n < p.e
      ensures |r.data[n].shifts| == p.d
      ensures forall j :: 0 <= j < p.d ==> UniqueShift(a, n + 1, j + 1, p.s, r.data[n].shifts[j])
      ensures if p.softDaysOff then Occurrences(r.data[n].shifts, OffShift) <= DaysOffTarget
              else Occurrences(r.data[n].shifts, OffShift) == DaysOffTarget
    {
      EncodingIsUniqueShiftPerDay(a, p.e, p.d, p.s, n + 1);
      OffDaysCounted(a, n + 1, p.s, r.data[n].shifts);
    }
    forall j, k | 0 <= j < p.d && 2 <= k <= p.s
      ensures Staffed(r, j, k)
    {
      StaffedMeansSomeone(a, p.e, j + 1, k);
      var i :| 1 <= i <= p.e && a(Key(i, j + 1, k));
      assert UniqueShift(a, i, j + 1, p.s, r.data[i - 1].shifts[j]);
    }
  }

  /** The main property. `make_roster` raises a KeyError iff there are
      employees and days but no shift codes, and an IndexError iff otherwise
      the solver reports a solution for a week longer than seven days. It
      returns a success iff neither happens and the solver reports OPTIMAL or
      FEASIBLE; a returned failure carries week length -1 and no data; a
      success shows the first reported assignment and satisfies every roster
      rule. */
  lemma MakeRosterMeetsRules(p: Problem, run: SolverRun)
    requires HonoursContract(p, run)
    ensures var o := MakeRoster(p, run);
      && (o == Raised(KeyError) <==> BuildRaises(p))
      && (o == Raised(IndexError) <==> !BuildRaises(p) && |run.found| > 0 && p.d > |DayLetters|)
      && (!BuildRaises(p) && FoundSolution(run.status) && p.d > |DayLetters| ==> o == Raised(IndexError))
      && (o.Returned? && o.response.status == SuccessCode <==>
            !BuildRaises(p) && p.d <= |DayLetters| && FoundSolution(run.status))
      && (o.Returned? && o.response.status != SuccessCode ==>
            o.response == RosterResponse(FailureCode, NoWeekLength, []))
      && (o.Returned? && o.response.status == SuccessCode ==>
            ObeysRules(o.response, p) && ShowsAssignment(o.response, run.found[0]))
  {
    if !BuildRaises(p) && p.d <= |DayLetters| && FoundSolution(run.status) {
      var a := run.found[0];
      assert IsAcceptable(p, a);
      CollectedSolutionsAreCapped(p.e, p.d, p.s, SolutionLimit, run.found);
      var delivered := Deliver(NewCollector(p.e, p.d, p.s, SolutionLimit), run.found);
      EncodingObeysRules(p, run.status, delivered.next.solutions, a);
    }
  }

  /** When no assignment is acceptable, an honest solver reports none and the
      response is the failure record, unless building the model already
      raised. */
  lemma NoRosterWhenUnsatisfiable(p: Problem, run: SolverRun)
    requires HonoursContract(p, run)
    requires forall a :: !IsAcceptable(p, a)
    ensures MakeRoster(p, run) ==
      if BuildRaises(p) then Raised(KeyError) else Returned(RosterResponse(FailureCode, NoWeekLength, []))
  {
  }

  /** Hard mode over two days with a working shift always ends in the failure
      record (one employee, two days, three shifts is one instance). */
  lemma HardTwoDaysResponseFails(e: nat, s: nat, run: SolverRun)
    requires s >= 2
    requires HonoursContract(Problem(e, 2, s, false), run)
    ensures MakeRoster(Problem(e, 2, s, false), run) == Returned(RosterResponse(FailureCode, NoWeekLength, []))
  {
    forall a: Assignment
      ensures !IsAcceptable(Problem(e, 2, s, false), a)
    {
      HardModeTwoDaysInfeasible(e, s, a);
    }
    NoRosterWhenUnsatisfiable(Problem(e, 2, s, false), run);
  }

  /** A soft-mode problem: two employees, one day, shifts 1 and 2. */
  const SoftProblem: Problem := Problem(2, 1, 2, true)

  /** Both employees work shift 2: acceptable, no day off. */
  function BothWork(key: Key): bool {
    key.k == 2
  }

  /** Employee 1 is off and employee 2 works shift 2: one day off, the most
      the problem allows. */
  function OneOff(key: Key): bool {
    if key.i == 1 then key.k == OffShift else key.k == 2
  }

  /** A run the solver contract allows: the first solution reported has no
      day off, the last is optimal, and the status is OPTIMAL. */
  function SoftRun(): SolverRun {
    SolverRun(Optimal, [BothWork, OneOff])
  }

  /** Both solutions of `SoftRun` are acceptable and the last is optimal. */
  lemma SoftRunSolutions()
    ensures IsAcceptable(SoftProblem, BothWork)
    ensures SoftOptimal(2, 1, 2, OneOff)
  {
    var p := SoftProblem;
    assert IsAcceptable(p, BothWork) by {
      assert UniqueShift(BothWork, 1, 1, 2, 2);
      assert UniqueShift(BothWork, 2, 1, 2, 2);
      ExactlyOneMeansUnique(BothWork, 1, 1, 2);
      ExactlyOneMeansUnique(BothWork, 2, 1, 2);
    }
    assert IsAcceptable(p, OneOff) by {
      assert UniqueShift(OneOff, 1, 1, 2, 1);
      assert UniqueShift(OneOff, 2, 1, 2, 2);
      ExactlyOneMeansUnique(OneOff, 1, 1, 2);
      ExactlyOneMeansUnique(OneOff, 2, 1, 2);
    }
    forall b | Acceptable(2, 1, 2, true, b)
      ensures TotalDaysOff(b, 2, 1) <= TotalDaysOff(OneOff, 2, 1)
    {
      if b(Key(1, 1, OffShift)) && b(Key(2, 1, OffShift)) {
        OffExcludesWork(b, 1, 1, 2, 2);
        OffExcludesWork(b, 2, 1, 2, 2);
        StaffedMeansSomeone(b, 2, 1, 2);
        assert false;
      }
    }
  }

  /** In soft mode the response need not be the maximum the solver proved:
      it shows the FIRST solution found, which here has no day off although
      an acceptable roster with one day off exists and the status is OPTIMAL. */
  lemma SoftResponseNeedNotBeOptimal()
    ensures HonoursContract(SoftProblem, SoftRun())
    ensures MakeRoster(SoftProblem, SoftRun()).Returned?
    ensures MakeRoster(SoftProblem, SoftRun()).response.status == SuccessCode
    ensures forall n :: 0 <= n < 2 ==> Occurrences(MakeRoster(SoftProblem, SoftRun()).response.data[n].shifts, OffShift) == 0
    ensures IsAcceptable(SoftProblem, OneOff) && TotalDaysOff(OneOff, 2, 1) == 1
  {
    var p := SoftProblem;
    var run := SoftRun();
    SoftRunSolutions();
    assert HonoursContract(p, run);
    MakeRosterMeetsRules(p, run);
    var r := MakeRoster(p, run).response;
    forall n | 0 <= n < 2
      ensures Occurrences(r.data[n].shifts, OffShift) == 0
    {
      assert |r.data[n].shifts| == 1;
      assert BothWork(Key(n + 1, 1, r.data[n].shifts[0]));
      assert r.data[n].shifts[..0] == [];
    }
  }
}
