/** The period detector `calcularPeriodo`. */
module Period {
  import opened Generator

  /** The states X_0 .. X_{k-1} visited in the first k steps. */
  ghost function Visited(a: int, c: int, m: int, x0: int, k: nat): set<int>
    requires m > 0
  {
    set i | 0 <= i < k :: State(a, c, m, x0, i)
  }

  /** X_0 .. X_{k-1} are pairwise distinct. */
  ghost predicate DistinctPrefix(a: int, c: int, m: int, x0: int, k: nat)
    requires m > 0
  {
    forall i, j :: 0 <= i < j < k ==> State(a, c, m, x0, i) != State(a, c, m, x0, j)
  }

  /** X_k repeats one of X_0 .. X_{k-1}. */
  ghost predicate RepeatsAt(a: int, c: int, m: int, x0: int, k: nat)
    requires m > 0
  {
    exists i :: 0 <= i < k && State(a, c, m, x0, i) == State(a, c, m, x0, k)
  }

  lemma VisitedStep(a: int, c: int, m: int, x0: int, k: nat)
    requires m > 0
    ensures Visited(a, c, m, x0, k + 1) == Visited(a, c, m, x0, k) + {State(a, c, m, x0, k)}
  {
  }

  /** A new state that was not visited keeps the walk free of repeats. */
  lemma ExtendDistinct(a: int, c: int, m: int, x0: int, k: nat)
    requires m > 0
    requires DistinctPrefix(a, c, m, x0, k)
    requires State(a, c, m, x0, k) !in Visited(a, c, m, x0, k)
    ensures DistinctPrefix(a, c, m, x0, k + 1)
  {
    forall i, j | 0 <= i < j < k + 1
      ensures State(a, c, m, x0, i) != State(a, c, m, x0, j)
    {
      if j == k {
        assert State(a, c, m, x0, i) in Visited(a, c, m, x0, k);
      }
    }
  }

  /** A state that was already visited is a repeat. */
  lemma VisitedRepeats(a: int, c: int, m: int, x0: int, k: nat)
    requires m > 0
    requires State(a, c, m, x0, k) in Visited(a, c, m, x0, k)
    ensures RepeatsAt(a, c, m, x0, k)
  {
  }

  /** A set of integers drawn from [0, m) has at most m elements. */
  lemma {:induction false} BoundedSetSize(s: set<int>, m: nat)
    requires forall y :: y in s ==> 0 <= y < m
    ensures |s| <= m
  {
    if m > 0 {
      var rest := s - {m - 1};
      BoundedSetSize(rest, m - 1);
      assert s <= rest + {m - 1};
      assert |s| <= |rest + {m - 1}| <= |rest| + 1 by {
        assert rest + {m - 1} == s + {m - 1} || m - 1 !in s;
      }
    } else {
      assert s == {} by {
        forall y | y in s ensures false { }
      }
    }
  }

  /** The first k distinct states account for k elements. */
  lemma {:induction false} DistinctVisitedSize(a: int, c: int, m: int, x0: int, k: nat)
    requires m > 0
    requires DistinctPrefix(a, c, m, x0, k)
    ensures |Visited(a, c, m, x0, k)| == k
    decreases k
  {
    if k > 0 {
      var last := State(a, c, m, x0, k - 1);
      var earlier := Visited(a, c, m, x0, k - 1);
      assert |earlier| == k - 1 by {
        DistinctVisitedSize(a, c, m, x0, k - 1);
      }
      assert last !in earlier by {
        forall i | 0 <= i < k - 1 ensures State(a, c, m, x0, i) != last { }
      }
      VisitedStep(a, c, m, x0, k - 1);
    }
  }

  /** Pigeonhole: an admissible generator has at most m distinct states in a
      row, so X_0 .. X_m already contain a repeat. */
  lemma DistinctPrefixAtMostM(a: int, c: int, m: int, x0: int, k: nat)
    requires Admissible(a, c, m, x0)
    requires DistinctPrefix(a, c, m, x0, k)
    ensures k <= m
  {
    DistinctVisitedSize(a, c, m, x0, k);
    forall y | y in Visited(a, c, m, x0, k) ensures 0 <= y < m {
      var i :| 0 <= i < k && y == State(a, c, m, x0, i);
      StateInRange(a, c, m, x0, i);
    }
    BoundedSetSize(Visited(a, c, m, x0, k), m);
  }

  /** Once X_i == X_j the sequence repeats with period j - i from i on. */
  lemma CycleRepeats(a: int, c: int, m: int, x0: int, i: nat, j: nat, d: nat)
    requires m > 0
    requires State(a, c, m, x0, i) == State(a, c, m, x0, j)
    ensures State(a, c, m, x0, i + d) == State(a, c, m, x0, j + d)
  {
    StateShift(a, c, m, x0, i, d);
    StateShift(a, c, m, x0, j, d);
  }

  /** If X_k repeats an earlier state, every later state, and so every
      state at all, is one of X_0 .. X_{k-1}. */
  lemma {:induction false} EveryStateVisited(a: int, c: int, m: int, x0: int, k: nat, t: nat)
    requires m > 0
    requires RepeatsAt(a, c, m, x0, k)
    ensures State(a, c, m, x0, t) in Visited(a, c, m, x0, k)
    decreases t
  {
    if t >= k {
      var i :| 0 <= i < k && State(a, c, m, x0, i) == State(a, c, m, x0, k);
      CycleRepeats(a, c, m, x0, i, k, t - k);
      assert State(a, c, m, x0, t) == State(a, c, m, x0, i + (t - k));
      EveryStateVisited(a, c, m, x0, k, i + (t - k));
    }
  }

  /** `calcularPeriodo`: walk the recurrence from the seed, recording each
      state in a set, until a state repeats or 2 * m steps have been taken;
      the result is the number of states recorded. */
  method PeriodLength(a: int, c: int, m: int, x0: int) returns (size: nat)
    ensures m <= 0 ==> size == 0
    ensures m > 0 ==> 1 <= size <= 2 * m
    ensures m > 0 ==> DistinctPrefix(a, c, m, x0, size)
    ensures m > 0 ==> size == 2 * m || RepeatsAt(a, c, m, x0, size)
    ensures Admissible(a, c, m, x0) ==> size <= m && RepeatsAt(a, c, m, x0, size)
  {
    var seen: set<int> := {};
    var x := x0;
    var iterations := 0;
    var maxIterations := m * 2;
    while x !in seen && iterations < maxIterations
      invariant 0 <= iterations
      invariant m <= 0 ==> iterations == 0
      invariant m > 0 ==> iterations <= 2 * m
      invariant |seen| == iterations
      invariant m > 0 ==> x == State(a, c, m, x0, iterations)
      invariant m > 0 ==> seen == Visited(a, c, m, x0, iterations)
      invariant m > 0 ==> DistinctPrefix(a, c, m, x0, iterations)
      decreases maxIterations - iterations
    {
      VisitedStep(a, c, m, x0, iterations);
      ExtendDistinct(a, c, m, x0, iterations);
      seen := seen + {x};
      x := Step(a, c, m, x);
      iterations := iterations + 1;
    }
    size := |seen|;
    if m > 0 && x in seen {
      VisitedRepeats(a, c, m, x0, size);
    }
    if Admissible(a, c, m, x0) {
      DistinctPrefixAtMostM(a, c, m, x0, size);
    }
  }
}
