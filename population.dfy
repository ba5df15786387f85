/**
 * Population statistics over a list of peeps: the values the world's
 * counting loops compute, defined by recursion on the list so that a loop
 * walking the list from the front extends them one peep at a time.
 */
module Population {
  import opened Peeps

  /** The number of alive peeps. */
  function CountAlive(ps: seq<Peep>): (n: nat)
    reads (set p | p in ps)`isAlive
    ensures n <= |ps|
  {
    if ps == [] then 0
    else CountAlive(ps[..|ps| - 1]) + (if ps[|ps| - 1].isAlive then 1 else 0)
  }

  /** The number of dead peeps. */
  function CountDead(ps: seq<Peep>): (n: nat)
    reads ps
    ensures n <= |ps|
  {
    if ps == [] then 0
    else CountDead(ps[..|ps| - 1]) + (if ps[|ps| - 1].isAlive then 0 else 1)
  }

  /** The number of alive peeps of gender `g`. */
  function GenderCount(ps: seq<Peep>, g: Gender): (n: nat)
    reads ps
    ensures n <= CountAlive(ps)
  {
    if ps == [] then 0
    else GenderCount(ps[..|ps| - 1], g) + (if ps[|ps| - 1].isAlive && ps[|ps| - 1].gender == g then 1 else 0)
  }

  /** The gender histogram of the alive peeps, built as the counting loop builds it. */
  function Histogram(ps: seq<Peep>): map<Gender, nat>
    reads ps
  {
    if ps == [] then map[]
    else
      var h := Histogram(ps[..|ps| - 1]);
      var p := ps[|ps| - 1];
      if p.isAlive then h[p.gender := (if p.gender in h then h[p.gender] else 0) + 1] else h
  }

  /** The sum of the ages of the alive peeps. */
  function SumAges(ps: seq<Peep>): nat
    reads ps
  {
    if ps == [] then 0
    else SumAges(ps[..|ps| - 1]) + (if ps[|ps| - 1].isAlive then ps[|ps| - 1].age else 0)
  }

  /** Some peep is alive. */
  predicate SomeAlive(ps: seq<Peep>)
    reads ps
  {
    exists i :: 0 <= i < |ps| && ps[i].isAlive
  }

  // ---------------------------------------------------------------------
  // Counts add up

  /** Every peep is either alive or dead. */
  lemma {:induction false} AliveDeadSum(ps: seq<Peep>)
    ensures CountAlive(ps) + CountDead(ps) == |ps|
  {
    if ps != [] {
      AliveDeadSum(ps[..|ps| - 1]);
    }
  }

  /** The alive count is zero exactly when no peep is alive. */
  lemma {:induction false} CountAlivePositive(ps: seq<Peep>)
    ensures CountAlive(ps) > 0 <==> SomeAlive(ps)
  {
    if ps != [] {
      var q := ps[..|ps| - 1];
      CountAlivePositive(q);
      if SomeAlive(q) {
        var i :| 0 <= i < |q| && q[i].isAlive;
        assert ps[i] == q[i];
      }
      if SomeAlive(ps) && !ps[|ps| - 1].isAlive {
        var i :| 0 <= i < |ps| && ps[i].isAlive;
        assert q[i] == ps[i];
      }
    }
  }

  /** The liveness of each peep of `ps`, in order. */
  function AliveFlags(ps: seq<Peep>): (bs: seq<bool>)
    reads (set p | p in ps)`isAlive
    ensures |bs| == |ps|
    ensures forall i :: 0 <= i < |ps| ==> bs[i] == ps[i].isAlive
  {
    if ps == [] then [] else AliveFlags(ps[..|ps| - 1]) + [ps[|ps| - 1].isAlive]
  }

  /** The number of `true` entries of `bs`. */
  function CountTrue(bs: seq<bool>): (n: nat)
    ensures n <= |bs|
  {
    if bs == [] then 0 else CountTrue(bs[..|bs| - 1]) + (if bs[|bs| - 1] then 1 else 0)
  }

  /** The alive count depends only on the liveness flags. */
  lemma {:induction false} CountAliveByFlags(ps: seq<Peep>)
    ensures CountAlive(ps) == CountTrue(AliveFlags(ps))
  {
    if ps != [] {
      var q := ps[..|ps| - 1];
      CountAliveByFlags(q);
      assert AliveFlags(ps)[..|ps| - 1] == AliveFlags(q);
    }
  }

  /** Counting distributes over concatenation. */
  lemma {:induction false} CountTrueAppend(a: seq<bool>, b: seq<bool>)
    ensures CountTrue(a + b) == CountTrue(a) + CountTrue(b)
    decreases |b|
  {
    if b != [] {
      CountTrueAppend(a, b[..|b| - 1]);
      assert (a + b)[..|a + b| - 1] == a + b[..|b| - 1];
      assert (a + b)[|a + b| - 1] == b[|b| - 1];
    } else {
      assert a + b == a;
    }
  }

  /** Flags that are all `true` count their length. */
  lemma {:induction false} CountTrueAllTrue(bs: seq<bool>)
    requires forall i :: 0 <= i < |bs| ==> bs[i]
    ensures CountTrue(bs) == |bs|
  {
    if bs != [] {
      CountTrueAllTrue(bs[..|bs| - 1]);
    }
  }

  /** Keeping a prefix of flags and adding only `true` ones adds the number added. */
  lemma CountTrueGrown(before: seq<bool>, after: seq<bool>)
    requires |before| <= |after|
    requires forall i :: 0 <= i < |before| ==> after[i] == before[i]
    requires forall i :: |before| <= i < |after| ==> after[i]
    ensures CountTrue(after) == CountTrue(before) + (|after| - |before|)
  {
    var added := after[|before|..];
    assert after == before + added;
    CountTrueAppend(before, added);
    CountTrueAllTrue(added);
  }

  /**
   * Peeps whose liveness agrees with `flags` on a prefix, followed only by
   * alive peeps, count the alive flags plus the peeps added.
   */
  lemma CountAliveGrown(ps: seq<Peep>, flags: seq<bool>)
    requires |flags| <= |ps|
    requires forall i :: 0 <= i < |flags| ==> ps[i].isAlive == flags[i]
    requires forall i :: |flags| <= i < |ps| ==> ps[i].isAlive
    ensures CountAlive(ps) == CountTrue(flags) + (|ps| - |flags|)
  {
    CountAliveByFlags(ps);
    CountTrueGrown(flags, AliveFlags(ps));
  }

  /**
   * The histogram has an entry exactly for the genders of alive peeps, and
   * each entry is the number of alive peeps of that gender.
   */
  lemma {:induction false} HistogramCounts(ps: seq<Peep>, g: Gender)
    ensures g in Histogram(ps) <==> GenderCount(ps, g) > 0
    ensures g in Histogram(ps) ==> Histogram(ps)[g] == GenderCount(ps, g)
  {
    if ps != [] {
      HistogramCounts(ps[..|ps| - 1], g);
    }
  }

  /** The sum of a map's values. */
  ghost function SumValues(m: map<Gender, nat>): nat
    decreases |m|
  {
    if m == map[] then 0
    else
      var k :| k in m;
      m[k] + SumValues(m - {k})
  }

  /** The sum of a map's values can be taken starting from any key. */
  lemma {:induction false} SumValuesRemove(m: map<Gender, nat>, k: Gender)
    requires k in m
    ensures SumValues(m) == m[k] + SumValues(m - {k})
    decreases |m|
  {
    var j :| j in m && SumValues(m) == m[j] + SumValues(m - {j});
    if j != k {
      var mj := m - {j};
      var mk := m - {k};
      assert k in mj;
      SumValuesRemove(mj, k);
      assert j in mk;
      SumValuesRemove(mk, j);
      assert mj - {k} == mk - {j};
    }
  }

  /** Raising one entry by one raises the sum by one. */
  lemma SumValuesIncrement(m: map<Gender, nat>, k: Gender)
    ensures SumValues(m[k := (if k in m then m[k] else 0) + 1]) == SumValues(m) + 1
  {
    var m' := m[k := (if k in m then m[k] else 0) + 1];
    SumValuesRemove(m', k);
    if k in m {
      SumValuesRemove(m, k);
      assert m' - {k} == m - {k};
    } else {
      assert m' - {k} == m;
    }
  }

  /** The histogram's values add up to the alive count. */
  lemma {:induction false} HistogramSum(ps: seq<Peep>)
    ensures SumValues(Histogram(ps)) == CountAlive(ps)
  {
    if ps != [] {
      var q := ps[..|ps| - 1];
      HistogramSum(q);
      var p := ps[|ps| - 1];
      if p.isAlive {
        SumValuesIncrement(Histogram(q), p.gender);
      }
    }
  }

  /**
   * When every alive age is at most `bound`, the age sum is at most
   * `bound` times the alive count, so the average age is at most `bound`.
   */
  lemma SumAgesBound(ps: seq<Peep>, bound: nat)
    requires forall i :: 0 <= i < |ps| && ps[i].isAlive ==> ps[i].age <= bound
    ensures SumAges(ps) <= CountAlive(ps) * bound
    ensures CountAlive(ps) > 0 ==> SumAges(ps) / CountAlive(ps) <= bound
  {
    SumAgesAtMost(ps, bound);
    if CountAlive(ps) > 0 {
      AverageAtMost(SumAges(ps), CountAlive(ps), bound);
    }
  }

  lemma {:induction false} SumAgesAtMost(ps: seq<Peep>, bound: nat)
    requires forall i :: 0 <= i < |ps| && ps[i].isAlive ==> ps[i].age <= bound
    ensures SumAges(ps) <= CountAlive(ps) * bound
  {
    if ps != [] {
      var q := ps[..|ps| - 1];
      assert forall i :: 0 <= i < |q| ==> q[i] == ps[i];
      SumAgesAtMost(q, bound);
      OneMoreAliveAddsBound(CountAlive(q), bound);
    }
  }

  /** The symmetric bound: every alive age at least `bound` puts the average at least `bound`. */
  lemma SumAgesLowerBound(ps: seq<Peep>, bound: nat)
    requires forall i :: 0 <= i < |ps| && ps[i].isAlive ==> bound <= ps[i].age
    ensures CountAlive(ps) * bound <= SumAges(ps)
    ensures CountAlive(ps) > 0 ==> bound <= SumAges(ps) / CountAlive(ps)
  {
    SumAgesAtLeast(ps, bound);
    if CountAlive(ps) > 0 {
      AverageAtLeast(SumAges(ps), CountAlive(ps), bound);
    }
  }

  lemma {:induction false} SumAgesAtLeast(ps: seq<Peep>, bound: nat)
    requires forall i :: 0 <= i < |ps| && ps[i].isAlive ==> bound <= ps[i].age
    ensures CountAlive(ps) * bound <= SumAges(ps)
  {
    if ps != [] {
      var q := ps[..|ps| - 1];
      assert forall i :: 0 <= i < |q| ==> q[i] == ps[i];
      SumAgesAtLeast(q, bound);
      OneMoreAliveAddsBound(CountAlive(q), bound);
    }
  }

  // ---------------------------------------------------------------------
  // Arithmetic behind the average-age bounds

  /** One more alive peep adds one `b` to the bound `n * b` on the age sum. */
  lemma OneMoreAliveAddsBound(n: nat, b: nat)
    ensures (n + 1) * b == n * b + b
  {
  }

  /** Scaling by an alive count keeps the order of two bounds. */
  lemma ScaleMonotone(n: nat, a: nat, b: nat)
    requires a <= b
    ensures n * a <= n * b
  {
    var d := b - a;
    assert n * b == n * a + n * d;
  }

  /** An age sum `s` of at most `b` per alive peep averages at most `b` under integer division. */
  lemma AverageAtMost(s: nat, n: nat, b: nat)
    requires 0 < n && s <= n * b
    ensures s / n <= b
  {
    var q := s / n;
    assert n * q + s % n == s;
    if q > b {
      ScaleMonotone(n, b + 1, q);
    }
  }

  /** An age sum `s` of at least `b` per alive peep averages at least `b` under integer division. */
  lemma AverageAtLeast(s: nat, n: nat, b: nat)
    requires 0 < n && n * b <= s
    ensures b <= s / n
  {
    var q := s / n;
    assert n * q + s % n == s;
    if q < b {
      ScaleMonotone(n, q + 1, b);
    }
  }
}
