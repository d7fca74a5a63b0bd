/** The roster rules that `add_constraints` hands to the solver, stated as
    pure predicates over a total 0/1 valuation of the variable grid, together
    with the objective maximised in soft days-off mode. */
module Constraints {
  import opened VariableSpace

  /** A valuation of every decision variable; `true` is the solver value 1. */
  type Assignment = Key -> bool

  /** The shift code that means "day off". */
  const OffShift: int := 1

  /** The days-off quota per employee: the code uses the literal 2 in both
      the hard and the soft rule. */
  const DaysOffTarget: nat := 2

  /** Number of shifts k in 1..s that employee i takes on day j. */
  function ShiftCount(a: Assignment, i: int, j: int, s: nat): (n: nat)
    ensures n <= s
  {
    if s == 0 then 0 else ShiftCount(a, i, j, s - 1) + (if a(Key(i, j, s)) then 1 else 0)
  }

  /** Number of days j in 1..d on which employee i has the day-off shift. */
  function DaysOff(a: Assignment, i: int, d: nat): (n: nat)
    ensures n <= d
  {
    if d == 0 then 0 else DaysOff(a, i, d - 1) + (if a(Key(i, d, OffShift)) then 1 else 0)
  }

  /** Number of employees i in 1..e that take shift k on day j. */
  function StaffCount(a: Assignment, e: nat, j: int, k: int): (n: nat)
    ensures n <= e
  {
    if e == 0 then 0 else StaffCount(a, e - 1, j, k) + (if a(Key(e, j, k)) then 1 else 0)
  }

  /** The soft-mode objective: days off summed over all employees and days. */
  function TotalDaysOff(a: Assignment, e: nat, d: nat): (n: nat)
    ensures n <= e * d
  {
    if e == 0 then 0
    else
      var rest := TotalDaysOff(a, e - 1, d);
      assert (e - 1) * d + d == e * d;
      rest + DaysOff(a, e, d)
  }

  /** Rule 1: every employee takes exactly one shift on every day. */
  predicate ExactlyOneShift(a: Assignment, e: nat, d: nat, s: nat) {
    forall i, j :: 1 <= i <= e && 1 <= j <= d ==> ShiftCount(a, i, j, s) == 1
  }

  /** Rule 2, hard variant: every employee has exactly the quota of days off. */
  predicate HardDaysOff(a: Assignment, e: nat, d: nat) {
    forall i :: 1 <= i <= e ==> DaysOff(a, i, d) == DaysOffTarget
  }

  /** Rule 2, soft variant: no employee exceeds the quota of days off. */
  predicate SoftDaysOff(a: Assignment, e: nat, d: nat) {
    forall i :: 1 <= i <= e ==> DaysOff(a, i, d) <= DaysOffTarget
  }

  /** Rule 3: every working shift 2..s of every day has at least one employee. */
  predicate Covered(a: Assignment, e: nat, d: nat, s: nat) {
    forall j, k :: 1 <= j <= d && 2 <= k <= s ==> StaffCount(a, e, j, k) > 0
  }

  /** An assignment the solver may report for the given problem. */
  predicate Acceptable(e: nat, d: nat, s: nat, soft: bool, a: Assignment) {
    && ExactlyOneShift(a, e, d, s)
    && (if soft then SoftDaysOff(a, e, d) else HardDaysOff(a, e, d))
    && Covered(a, e, d, s)
  }

  /** The days-off rule, in both variants, looks up the variable
      (i, j, OffShift) of every employee i in 1..e and day j in 1..d in the
      grid; true iff one of those variables was never created, so that the
      lookup raises a KeyError while the model is being built. */
  predicate DaysOffReadsMissingKey(e: nat, d: nat, s: nat) {
    exists i, j :: 1 <= i <= e && 1 <= j <= d && Key(i, j, OffShift) !in AllKeys(e, d, s)
  }

  /** The days-off rule misses a variable iff there are employees and days
      but no shift codes at all. */
  lemma MissingOffKeyIff(e: nat, d: nat, s: nat)
    ensures DaysOffReadsMissingKey(e, d, s) <==> e >= 1 && d >= 1 && s == 0
  {
    AllKeysMembers(e, d, s);
    if e >= 1 && d >= 1 && s == 0 {
      assert Key(1, 1, OffShift) !in AllKeys(e, d, s);
    }
  }

  /** The exactly-one rule and the coverage rule only look up variables that
      were created: every (i, j, k) with i in 1..e, j in 1..d, k in 1..s. */
  lemma RuleLookupsExist(e: nat, d: nat, s: nat)
    ensures forall i, j, k :: 1 <= i <= e && 1 <= j <= d && 1 <= k <= s ==> Key(i, j, k) in AllKeys(e, d, s)
  {
    AllKeysMembers(e, d, s);
  }

  /** An acceptable soft-mode assignment whose objective no other acceptable
      soft-mode assignment beats. */
  ghost predicate SoftOptimal(e: nat, d: nat, s: nat, a: Assignment) {
    && Acceptable(e, d, s, true, a)
    && forall b :: Acceptable(e, d, s, true, b) ==> TotalDaysOff(b, e, d) <= TotalDaysOff(a, e, d)
  }

  /** `k` is the one and only shift in 1..s that employee i takes on day j. */
  predicate UniqueShift(a: Assignment, i: int, j: int, s: nat, k: int) {
    && 1 <= k <= s
    && a(Key(i, j, k))
    && forall k' :: 1 <= k' <= s && a(Key(i, j, k')) ==> k' == k
  }

  /** A count of zero means no shift is taken at all. */
  lemma {:induction false} ShiftCountZero(a: Assignment, i: int, j: int, s: nat)
    ensures ShiftCount(a, i, j, s) == 0 <==> forall k :: 1 <= k <= s ==> !a(Key(i, j, k))
  {
    if s > 0 {
      ShiftCountZero(a, i, j, s - 1);
    }
  }

  /** The "exactly one" sum constraint means there is a unique shift. */
  lemma {:induction false} ExactlyOneMeansUnique(a: Assignment, i: int, j: int, s: nat)
    ensures ShiftCount(a, i, j, s) == 1 <==> exists k :: UniqueShift(a, i, j, s, k)
  {
    if s > 0 {
      ExactlyOneMeansUnique(a, i, j, s - 1);
      ShiftCountZero(a, i, j, s - 1);
      if ShiftCount(a, i, j, s) == 1 {
        if a(Key(i, j, s)) {
          assert UniqueShift(a, i, j, s, s);
        } else {
          var k :| UniqueShift(a, i, j, s - 1, k);
          assert UniqueShift(a, i, j, s, k);
        }
      }
      if k :| UniqueShift(a, i, j, s, k) {
        if k == s {
          assert forall k' :: 1 <= k' <= s - 1 ==> !a(Key(i, j, k'));
        } else {
          assert UniqueShift(a, i, j, s - 1, k);
        }
      }
    } else {
      assert forall k :: !UniqueShift(a, i, j, 0, k);
    }
  }

  /** Coverage as a count is coverage as "some employee takes the shift". */
  lemma {:induction false} StaffedMeansSomeone(a: Assignment, e: nat, j: int, k: int)
    ensures StaffCount(a, e, j, k) > 0 <==> exists i :: 1 <= i <= e && a(Key(i, j, k))
  {
    if e > 0 {
      StaffedMeansSomeone(a, e - 1, j, k);
    }
  }

  /** Taking the quota equal to the number of days means every day is off. */
  lemma {:induction false} AllDaysOff(a: Assignment, i: int, d: nat)
    ensures DaysOff(a, i, d) == d <==> forall j :: 1 <= j <= d ==> a(Key(i, j, OffShift))
  {
    if d > 0 {
      AllDaysOff(a, i, d - 1);
    }
  }

  /** Soft mode: the objective is at most the quota times the head count. */
  lemma {:induction false} SoftObjectiveBound(a: Assignment, e: nat, d: nat)
    requires SoftDaysOff(a, e, d)
    ensures TotalDaysOff(a, e, d) <= DaysOffTarget * e
  {
    if e > 0 {
      SoftObjectiveBound(a, e - 1, d);
    }
  }

  /** Hard mode: the objective equals the quota times the head count. */
  lemma {:induction false} HardObjectiveValue(a: Assignment, e: nat, d: nat)
    requires HardDaysOff(a, e, d)
    ensures TotalDaysOff(a, e, d) == DaysOffTarget * e
  {
    if e > 0 {
      HardObjectiveValue(a, e - 1, d);
    }
  }

  /** Soft mode reaching the bound means every employee meets the quota exactly. */
  lemma {:induction false} FullObjectiveMeetsQuota(a: Assignment, e: nat, d: nat)
    requires SoftDaysOff(a, e, d)
    requires TotalDaysOff(a, e, d) == DaysOffTarget * e
    ensures HardDaysOff(a, e, d)
  {
    if e > 0 {
      SoftObjectiveBound(a, e - 1, d);
      FullObjectiveMeetsQuota(a, e - 1, d);
    }
  }

  /** The soft maximum is at most 2 days off per employee, for any problem. */
  lemma SoftModeObjectiveAtMostQuota(e: nat, d: nat, s: nat, a: Assignment)
    requires Acceptable(e, d, s, true, a)
    ensures TotalDaysOff(a, e, d) <= DaysOffTarget * e
  {
    SoftObjectiveBound(a, e, d);
  }

  /** Every hard-mode roster is a soft-mode roster with the largest possible
      objective. */
  lemma HardIsSoftAtTheBound(e: nat, d: nat, s: nat, a: Assignment)
    requires Acceptable(e, d, s, false, a)
    ensures Acceptable(e, d, s, true, a)
    ensures TotalDaysOff(a, e, d) == DaysOffTarget * e
  {
    HardObjectiveValue(a, e, d);
  }

  /** When the hard variant is satisfiable, the soft optimum takes exactly the
      quota for every employee: it is itself a hard-mode roster. */
  lemma SoftOptimumMeetsHardQuota(e: nat, d: nat, s: nat, a: Assignment, b: Assignment)
    requires Acceptable(e, d, s, false, b)
    requires SoftOptimal(e, d, s, a)
    ensures TotalDaysOff(a, e, d) == DaysOffTarget * e
    ensures Acceptable(e, d, s, false, a)
  {
    HardIsSoftAtTheBound(e, d, s, b);
    SoftObjectiveBound(a, e, d);
    FullObjectiveMeetsQuota(a, e, d);
  }

  /** Hard mode with fewer than two days cannot give anybody two days off. */
  lemma HardModeNeedsTwoDays(e: nat, d: nat, s: nat, a: Assignment)
    requires e >= 1 && d < 2
    ensures !Acceptable(e, d, s, false, a)
  {
    assert DaysOff(a, 1, d) <= d;
  }

  /** With a single shift code every employee is off every day, and coverage
      has nothing to cover. */
  lemma OneShiftMeansAlwaysOff(e: nat, d: nat, a: Assignment)
    requires ExactlyOneShift(a, e, d, 1)
    ensures forall i, j :: 1 <= i <= e && 1 <= j <= d ==> a(Key(i, j, OffShift))
    ensures Covered(a, e, d, 1)
  {
    forall i, j | 1 <= i <= e && 1 <= j <= d
      ensures a(Key(i, j, OffShift))
    {
      assert ShiftCount(a, i, j, 1) == 1;
    }
  }

  /** An employee on the day-off shift takes no working shift that day. */
  lemma OffExcludesWork(a: Assignment, i: int, j: int, s: nat, k: int)
    requires ShiftCount(a, i, j, s) == 1
    requires a(Key(i, j, OffShift)) && 2 <= k <= s
    ensures !a(Key(i, j, k))
  {
    ExactlyOneMeansUnique(a, i, j, s);
  }

  /** Hard mode over two days sends everybody off both days, so shift 2 of
      day 1 goes uncovered: no such problem has an acceptable assignment. */
  lemma HardModeTwoDaysInfeasible(e: nat, s: nat, a: Assignment)
    requires s >= 2
    ensures !Acceptable(e, 2, s, false, a)
  {
    if Acceptable(e, 2, s, false, a) {
      forall i | 1 <= i <= e
        ensures !a(Key(i, 1, 2))
      {
        AllDaysOff(a, i, 2);
        OffExcludesWork(a, i, 1, s, 2);
      }
      StaffedMeansSomeone(a, e, 1, 2);
      assert false;
    }
  }

  /** One employee, two days, three shifts, hard mode: infeasible. */
  lemma SingleEmployeeTwoDaysInfeasible(a: Assignment)
    ensures !Acceptable(1, 2, 3, false, a)
  {
    HardModeTwoDaysInfeasible(1, 3, a);
  }

  /** Two employees and two working shifts, hard mode: infeasible for any
      number of days. On a day employee 1 is off, employee 2 alone would have
      to cover both working shifts. */
  lemma TwoEmployeesThreeShiftsInfeasible(d: nat, a: Assignment)
    ensures !Acceptable(2, d, 3, false, a)
  {
    if Acceptable(2, d, 3, false, a) {
      assert DaysOff(a, 1, d) == 2;
      SomeDayOff(a, 1, d);
      var j :| 1 <= j <= d && a(Key(1, j, OffShift));
      OffExcludesWork(a, 1, j, 3, 2);
      OffExcludesWork(a, 1, j, 3, 3);
      StaffedMeansSomeone(a, 2, j, 2);
      StaffedMeansSomeone(a, 2, j, 3);
      assert a(Key(2, j, 2)) && a(Key(2, j, 3));
      ExactlyOneMeansUnique(a, 2, j, 3);
      assert false;
    }
  }

  /** The days-off count is positive iff the employee is off on some day
      among 1..d. */
  lemma {:induction false} SomeDayOff(a: Assignment, i: int, d: nat)
    ensures DaysOff(a, i, d) > 0 <==> exists j :: 1 <= j <= d && a(Key(i, j, OffShift))
  {
    if d > 0 {
      SomeDayOff(a, i, d - 1);
    }
  }

  /** Shift of employee i on day j in a three-employee, seven-day week: the
      employees take days 1-2, 3-4 and 5-6 off in turn, the other two split
      the working shifts, and on day 7 all three work. */
  function SampleShift(i: int, j: int): int {
    if j == 7 then (if i == 2 then 3 else 2)
    else
      var off := (j + 1) / 2;
      if i == off then OffShift else if i == off % 3 + 1 then 2 else 3
  }

  /** The valuation that sets exactly the variable of `SampleShift` per cell. */
  function SampleWeek(key: Key): bool {
    key.k == SampleShift(key.i, key.j)
  }

  /** The hard rules can be met: three employees, seven days, three shifts. */
  lemma SampleWeekAcceptable()
    ensures Acceptable(3, 7, 3, false, SampleWeek)
  {
    var a: Assignment := SampleWeek;
    forall i, j | 1 <= i <= 3 && 1 <= j <= 7
      ensures ShiftCount(a, i, j, 3) == 1
    {
      assert UniqueShift(a, i, j, 3, SampleShift(i, j));
      ExactlyOneMeansUnique(a, i, j, 3);
    }
    forall i | 1 <= i <= 3
      ensures DaysOff(a, i, 7) == DaysOffTarget
    {
      assert i == 1 || i == 2 || i == 3;
    }
    forall j, k | 1 <= j <= 7 && 2 <= k <= 3
      ensures StaffCount(a, 3, j, k) > 0
    {
      assert j == 1 || j == 2 || j == 3 || j == 4 || j == 5 || j == 6 || j == 7;
    }
  }

  /** For the three-employee week the soft optimum gives every employee
      exactly two days off: six in all. */
  lemma SampleSoftOptimumTakesFullQuota(a: Assignment)
    requires SoftOptimal(3, 7, 3, a)
    ensures Acceptable(3, 7, 3, false, a)
    ensures TotalDaysOff(a, 3, 7) == 6
  {
    SampleWeekAcceptable();
    SoftOptimumMeetsHardQuota(3, 7, 3, a, SampleWeek);
  }
}
