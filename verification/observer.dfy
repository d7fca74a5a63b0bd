/** The solution callback (`SolutionPrinter`): on every solution the solver
    reports, it records a full snapshot of the variable grid, prints it, and
    asks the solver to stop once the number of snapshots reaches the limit.
    Printing labels the days with seven weekday letters, so for a week longer
    than seven days it raises before the stop check. The solver is modelled
    as a stream of assignments that honours the stop request and ends at the
    first exception the callback raises. */
module SolutionObserver {
  import opened VariableSpace
  import opened Constraints

  /** The enumeration cap passed to the callback by `make_roster`. */
  const SolutionLimit: int := 5

  datatype Option<T> = None | Some(value: T)

  /** One item of a snapshot: a variable and the value the solver gave it. */
  datatype Entry = Entry(key: Key, value: bool)

  /** A snapshot is an insertion-ordered dictionary from keys to values; since
      its keys never repeat, it is the sequence of its items. */
  type Snapshot = seq<Entry>

  /** The items recorded when the keys are visited in the given order. */
  function Record(a: Assignment, keys: seq<Key>): (snap: Snapshot)
    ensures |snap| == |keys|
  {
    seq(|keys|, n requires 0 <= n < |keys| => Entry(keys[n], a(keys[n])))
  }

  lemma RecordAppend(a: Assignment, x: seq<Key>, y: seq<Key>)
    ensures Record(a, x + y) == Record(a, x) + Record(a, y)
  {
    assert forall n :: 0 <= n < |x| + |y| ==> Record(a, x + y)[n] == (Record(a, x) + Record(a, y))[n];
  }

  /** The snapshot the callback builds: every key of the grid, visited by the
      same three nested loops that created the variables. */
  function TakeSnapshot(a: Assignment, e: nat, d: nat, s: nat): Snapshot {
    Record(a, AllKeys(e, d, s))
  }

  /** Dictionary lookup: the value stored under `key`, if any. */
  function Lookup(snap: Snapshot, key: Key): Option<bool> {
    if |snap| == 0 then None
    else if snap[0].key == key then Some(snap[0].value)
    else Lookup(snap[1..], key)
  }

  lemma {:induction false} LookupRecord(a: Assignment, keys: seq<Key>, key: Key)
    ensures Lookup(Record(a, keys), key) == if key in keys then Some(a(key)) else None
  {
    if |keys| > 0 {
      assert Record(a, keys)[1..] == Record(a, keys[1..]);
      LookupRecord(a, keys[1..], key);
      assert key in keys <==> key == keys[0] || key in keys[1..];
    }
  }

  /** A snapshot holds e*d*s items and stores, under every in-range key, the
      solver's value for that variable, and nothing under any other key. */
  lemma SnapshotRecordsAssignment(a: Assignment, e: nat, d: nat, s: nat, key: Key)
    ensures |TakeSnapshot(a, e, d, s)| == e * d * s
    ensures Lookup(TakeSnapshot(a, e, d, s), key) == if InRange(key, e, d, s) then Some(a(key)) else None
  {
    AllKeysShape(e, d, s);
    LookupRecord(a, AllKeys(e, d, s), key);
  }

  /** The callback's state: the grid size, the cap and the snapshots so far. */
  datatype Collector = Collector(e: nat, d: nat, s: nat, limit: int, solutions: seq<Snapshot>)

  /** The callback right after construction: nothing collected yet. */
  function NewCollector(e: nat, d: nat, s: nat, limit: int): (c: Collector)
    ensures c.solutions == []
  {
    Collector(e, d, s, limit, [])
  }

  /** The day labels `print_solution` heads its table with. */
  const DayLetters: seq<char> := ['M', 'T', 'W', 'T', 'F', 'S', 'S']

  /** Day j's label, `DayLetters[j - 1]`, exists. */
  predicate HasLabel(j: int) {
    0 <= j - 1 < |DayLetters|
  }

  /** `print_solution` looks up the label of every day 1..d; true iff every
      lookup is inside the label list. */
  predicate HeaderInRange(d: int) {
    forall j :: 1 <= j <= d ==> HasLabel(j)
  }

  /** The header can be printed iff the week has at most seven days. */
  lemma HeaderInRangeIff(d: int)
    ensures HeaderInRange(d) <==> d <= |DayLetters|
  {
    if d > |DayLetters| {
      assert !HasLabel(|DayLetters| + 1);
    }
  }

  /** What one callback invocation leaves behind: the new state, whether it
      asked the solver to stop, and whether it raised (an IndexError from
      printing the header). */
  datatype Step = Step(next: Collector, stopRequested: bool, raised: bool)

  /** Models `on_solution_callback`: append one snapshot of the reported
      assignment, print it, and request a stop when the count reaches the
      limit. Printing raises for weeks of more than seven days, and then the
      stop check is never reached. */
  function OnSolution(c: Collector, a: Assignment): (r: Step)
    ensures r.next.e == c.e && r.next.d == c.d && r.next.s == c.s && r.next.limit == c.limit
    ensures |r.next.solutions| == |c.solutions| + 1
    ensures r.next.solutions[..|c.solutions|] == c.solutions
    ensures r.next.solutions[|c.solutions|] == TakeSnapshot(a, c.e, c.d, c.s)
    ensures r.raised <==> c.d > |DayLetters|
    ensures r.stopRequested <==> c.d <= |DayLetters| && |c.solutions| + 1 >= c.limit
  {
    HeaderInRangeIff(c.d);
    var next := c.(solutions := c.solutions + [TakeSnapshot(a, c.e, c.d, c.s)]);
    if !HeaderInRange(c.d) then Step(next, false, true)
    else Step(next, |next.solutions| >= c.limit, false)
  }

  /** Once the callback has asked for a stop, every later invocation asks
      again: the request is never withdrawn. */
  lemma StopIsSticky(c: Collector, a: Assignment, b: Assignment)
    requires OnSolution(c, a).stopRequested
    ensures OnSolution(OnSolution(c, a).next, b).stopRequested
  {
  }

  /** The solver feeds the callback the assignments of `stream` in order. It
      stops as soon as a stop is requested, and an exception from the callback
      ends the search at once. The result is the last invocation's step, or
      the unchanged state when the stream is empty. */
  function Deliver(c: Collector, stream: seq<Assignment>): (r: Step)
    ensures r.next.e == c.e && r.next.d == c.d && r.next.s == c.s && r.next.limit == c.limit
    ensures |c.solutions| <= |r.next.solutions|
    ensures r.next.solutions[..|c.solutions|] == c.solutions
    ensures |stream| > 0 ==> |c.solutions| < |r.next.solutions|
    ensures r.raised <==> |stream| > 0 && c.d > |DayLetters|
    decreases |stream|
  {
    if |stream| == 0 then Step(c, false, false)
    else
      var step := OnSolution(c, stream[0]);
      if step.raised || step.stopRequested then step else Deliver(step.next, stream[1..])
  }

  function Min(x: int, y: int): int {
    if x <= y then x else y
  }

  function Max(x: int, y: int): int {
    if x <= y then y else x
  }

  /** The number of snapshots a delivery adds from state `c`: on a week of at
      most seven days, all of the stream up to the cap but always at least one,
      since the cap is only checked after appending; on a longer week, only
      the one whose printing raises. */
  function Allowance(c: Collector): int {
    if c.d > |DayLetters| then 1 else Max(c.limit - |c.solutions|, 1)
  }

  /** From any state, the solver delivers the longest prefix of the stream that
      the allowance permits, and the snapshots appear in discovery order after
      the earlier ones. */
  lemma {:induction false} DeliverTakesCappedPrefix(c: Collector, stream: seq<Assignment>)
    ensures var r := Deliver(c, stream);
      var m := Min(|stream|, Allowance(c));
      && |r.next.solutions| == |c.solutions| + m
      && r.next.solutions[..|c.solutions|] == c.solutions
      && forall t :: 0 <= t < m ==> r.next.solutions[|c.solutions| + t] == TakeSnapshot(stream[t], c.e, c.d, c.s)
    decreases |stream|
  {
    if |stream| > 0 {
      var step := OnSolution(c, stream[0]);
      if !step.stopRequested && !step.raised {
        DeliverTakesCappedPrefix(step.next, stream[1..]);
        var r := Deliver(step.next, stream[1..]);
        assert r.next.solutions[..|c.solutions|] == c.solutions by {
          assert r.next.solutions[..|c.solutions| + 1][..|c.solutions|] == c.solutions;
        }
        assert r.next.solutions[|c.solutions|] == step.next.solutions[|c.solutions|];
        forall t | 0 <= t < Min(|stream|, Allowance(c))
          ensures r.next.solutions[|c.solutions| + t] == TakeSnapshot(stream[t], c.e, c.d, c.s)
        {
          if t > 0 {
            assert stream[1..][t - 1] == stream[t];
          }
        }
      }
    }
  }

  /** Starting from a fresh callback on a week of at most seven days, the
      collected snapshots are those of the first min(|stream|, limit)
      assignments (at least one when the stream is non-empty), so a solver
      that honours the stop never hands over more than `limit` solutions when
      `limit` is positive. On a longer week the first snapshot is collected
      and the callback raises. */
  lemma CollectedSolutionsAreCapped(e: nat, d: nat, s: nat, limit: int, stream: seq<Assignment>)
    ensures var r := Deliver(NewCollector(e, d, s, limit), stream);
      var cap := if d > |DayLetters| then 1 else Max(limit, 1);
      && |r.next.solutions| == Min(|stream|, cap)
      && |r.next.solutions| <= cap
      && (r.raised <==> |stream| > 0 && d > |DayLetters|)
      && forall t :: 0 <= t < |r.next.solutions| ==> r.next.solutions[t] == TakeSnapshot(stream[t], e, d, s)
  {
    DeliverTakesCappedPrefix(NewCollector(e, d, s, limit), stream);
  }
}
