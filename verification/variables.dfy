/** The variable space of a roster problem: one boolean decision variable per
    (employee, day, shift) triple. The variables are created by three nested
    loops, employee outermost and shift innermost, and that creation order is
    also the order in which every later snapshot of a solution is filled. */
module VariableSpace {

  /** Names the decision variable "employee `i` takes shift `k` on day `j`".
      Shift 1 is the reserved "day off" shift; shifts 2.. are working shifts. */
  datatype Key = Key(i: int, j: int, k: int)

  /** The key lies in the grid of `e` employees, `d` days and `s` shifts. */
  predicate InRange(key: Key, e: nat, d: nat, s: nat) {
    1 <= key.i <= e && 1 <= key.j <= d && 1 <= key.k <= s
  }

  /** Lexicographic order on (employee, day, shift): the visiting order of the
      nested creation loops. */
  predicate Before(x: Key, y: Key) {
    || x.i < y.i
    || (x.i == y.i && x.j < y.j)
    || (x.i == y.i && x.j == y.j && x.k < y.k)
  }

  /** Every key comes strictly before every later key, so no key repeats. */
  predicate StrictlyOrdered(keys: seq<Key>) {
    forall p, q :: 0 <= p < q < |keys| ==> Before(keys[p], keys[q])
  }

  /** Every key of `x` comes before every key of `y`. */
  predicate AllBefore(x: seq<Key>, y: seq<Key>) {
    forall p, q :: 0 <= p < |x| && 0 <= q < |y| ==> Before(x[p], y[q])
  }

  lemma OrderedAppend(x: seq<Key>, y: seq<Key>)
    requires StrictlyOrdered(x) && StrictlyOrdered(y)
    requires AllBefore(x, y)
    ensures StrictlyOrdered(x + y)
  {
    var xy := x + y;
    forall p, q | 0 <= p < q < |xy|
      ensures Before(xy[p], xy[q])
    {
      if q < |x| {
        assert xy[p] == x[p] && xy[q] == x[q];
      } else if p < |x| {
        assert xy[p] == x[p] && xy[q] == y[q - |x|];
      } else {
        assert xy[p] == y[p - |x|] && xy[q] == y[q - |x|];
      }
    }
  }

  lemma RowSize(d: nat, s: nat)
    requires d >= 1
    ensures (d - 1) * s + s == d * s
  {
  }

  lemma GridSize(e: nat, d: nat, s: nat)
    requires e >= 1
    ensures (e - 1) * d * s + d * s == e * d * s
  {
  }

  /** The keys of one (employee, day) cell, shifts 1..s in ascending order. */
  function CellKeys(i: int, j: int, s: nat): seq<Key> {
    if s == 0 then [] else CellKeys(i, j, s - 1) + [Key(i, j, s)]
  }

  /** The keys of one employee's row, days 1..d in ascending order. */
  function RowKeys(i: int, d: nat, s: nat): seq<Key> {
    if d == 0 then [] else RowKeys(i, d - 1, s) + CellKeys(i, d, s)
  }

  /** The whole grid in creation order: employees 1..e, then days, then shifts. */
  function AllKeys(e: nat, d: nat, s: nat): seq<Key> {
    if e == 0 then [] else AllKeys(e - 1, d, s) + RowKeys(e, d, s)
  }

  lemma {:induction false} CellKeysMembers(i: int, j: int, s: nat)
    ensures |CellKeys(i, j, s)| == s
    ensures forall key :: key in CellKeys(i, j, s) <==> key.i == i && key.j == j && 1 <= key.k <= s
  {
    if s > 0 {
      CellKeysMembers(i, j, s - 1);
    }
  }

  lemma {:induction false} CellKeysOrdered(i: int, j: int, s: nat)
    ensures StrictlyOrdered(CellKeys(i, j, s))
  {
    if s > 0 {
      CellKeysOrdered(i, j, s - 1);
      CellKeysMembers(i, j, s - 1);
      var prev := CellKeys(i, j, s - 1);
      forall p | 0 <= p < |prev|
        ensures Before(prev[p], Key(i, j, s))
      {
        assert prev[p] in prev;
      }
      OrderedAppend(prev, [Key(i, j, s)]);
    }
  }

  lemma {:induction false} RowKeysLength(i: int, d: nat, s: nat)
    ensures |RowKeys(i, d, s)| == d * s
  {
    if d > 0 {
      RowKeysLength(i, d - 1, s);
      CellKeysMembers(i, d, s);
      RowSize(d, s);
    }
  }

  lemma {:induction false} RowKeysMembers(i: int, d: nat, s: nat)
    ensures forall key :: key in RowKeys(i, d, s) <==> key.i == i && 1 <= key.j <= d && 1 <= key.k <= s
  {
    if d > 0 {
      RowKeysMembers(i, d - 1, s);
      CellKeysMembers(i, d, s);
    }
  }

  lemma EarlierDaysFirst(i: int, d: nat, s: nat)
    requires d >= 1
    ensures AllBefore(RowKeys(i, d - 1, s), CellKeys(i, d, s))
  {
    RowKeysMembers(i, d - 1, s);
    CellKeysMembers(i, d, s);
    var prev := RowKeys(i, d - 1, s);
    var cell := CellKeys(i, d, s);
    forall p, q | 0 <= p < |prev| && 0 <= q < |cell|
      ensures Before(prev[p], cell[q])
    {
      assert prev[p] in prev && cell[q] in cell;
    }
  }

  lemma {:induction false} RowKeysOrdered(i: int, d: nat, s: nat)
    ensures StrictlyOrdered(RowKeys(i, d, s))
  {
    if d > 0 {
      RowKeysOrdered(i, d - 1, s);
      CellKeysOrdered(i, d, s);
      EarlierDaysFirst(i, d, s);
      OrderedAppend(RowKeys(i, d - 1, s), CellKeys(i, d, s));
    }
  }

  lemma {:induction false} AllKeysLength(e: nat, d: nat, s: nat)
    ensures |AllKeys(e, d, s)| == e * d * s
  {
    if e > 0 {
      AllKeysLength(e - 1, d, s);
      RowKeysLength(e, d, s);
      GridSize(e, d, s);
    }
  }

  lemma {:induction false} AllKeysMembers(e: nat, d: nat, s: nat)
    ensures forall key :: key in AllKeys(e, d, s) <==> InRange(key, e, d, s)
  {
    if e > 0 {
      AllKeysMembers(e - 1, d, s);
      RowKeysMembers(e, d, s);
    }
  }

  lemma {:induction false} AllKeysOrdered(e: nat, d: nat, s: nat)
    ensures StrictlyOrdered(AllKeys(e, d, s))
  {
    if e > 0 {
      AllKeysOrdered(e - 1, d, s);
      AllKeysMembers(e - 1, d, s);
      RowKeysOrdered(e, d, s);
      RowKeysMembers(e, d, s);
      var prev := AllKeys(e - 1, d, s);
      var row := RowKeys(e, d, s);
      forall p, q | 0 <= p < |prev| && 0 <= q < |row|
        ensures Before(prev[p], row[q])
      {
        assert prev[p] in prev && row[q] in row;
      }
      OrderedAppend(prev, row);
    }
  }

  /** The grid holds exactly the in-range keys, e*d*s of them, each once, in
      employee-day-shift order. */
  lemma AllKeysShape(e: nat, d: nat, s: nat)
    ensures |AllKeys(e, d, s)| == e * d * s
    ensures forall key :: key in AllKeys(e, d, s) <==> InRange(key, e, d, s)
    ensures StrictlyOrdered(AllKeys(e, d, s))
  {
    AllKeysLength(e, d, s);
    AllKeysMembers(e, d, s);
    AllKeysOrdered(e, d, s);
  }

  /** Models `create_variables`: one key per (i, j, k) with 1 <= i <= e,
      1 <= j <= d, 1 <= k <= s, created by three nested loops. The variable
      handle stored under each key is left abstract: the key itself stands
      for its variable. */
  method CreateVariables(e: nat, d: nat, s: nat) returns (keys: seq<Key>)
    ensures |keys| == e * d * s
    ensures forall key :: key in keys <==> InRange(key, e, d, s)
    ensures StrictlyOrdered(keys)
    ensures keys == AllKeys(e, d, s)
  {
    keys := [];
    var i := 1;
    while i <= e
      invariant 1 <= i <= e + 1
      invariant keys == AllKeys(i - 1, d, s)
    {
      var j := 1;
      while j <= d
        invariant 1 <= j <= d + 1
        invariant keys == AllKeys(i - 1, d, s) + RowKeys(i, j - 1, s)
      {
        var k := 1;
        while k <= s
          invariant 1 <= k <= s + 1
          invariant keys == AllKeys(i - 1, d, s) + RowKeys(i, j - 1, s) + CellKeys(i, j, k - 1)
        {
          assert CellKeys(i, j, k) == CellKeys(i, j, k - 1) + [Key(i, j, k)];
          keys := keys + [Key(i, j, k)];
          k := k + 1;
        }
        assert RowKeys(i, j, s) == RowKeys(i, j - 1, s) + CellKeys(i, j, s);
        j := j + 1;
      }
      assert AllKeys(i, d, s) == AllKeys(i - 1, d, s) + RowKeys(i, d, s);
      i := i + 1;
    }
    AllKeysShape(e, d, s);
  }
}
