/** The linear congruential recurrence and the generation loop of `generarLCG`. */
module Generator {
  import opened JsArith

  /** The guards `generarLCG` checks before the loop runs
      (the count guard is not needed by the loop itself). */
  predicate Admissible(a: int, c: int, m: int, x0: int) {
    a > 0 && c >= 0 && m > 1 && 0 <= x0 < m
  }

  /** One step of the recurrence, `x = (a * x + c) % m`. */
  function Step(a: int, c: int, m: int, x: int): (y: int)
    requires m > 0
    ensures a >= 0 && c >= 0 && x >= 0 ==> 0 <= y < m
  {
    Rem(a * x + c, m)
  }

  /** X_k: the state after k steps from the seed (X_0 is the seed itself).
      From a non-negative seed with a >= 0 and c >= 0, every state after the
      first step lies in [0, m), whether or not the seed itself does. */
  function State(a: int, c: int, m: int, x0: int, k: nat): (x: int)
    requires m > 0
    ensures k > 0 && a >= 0 && c >= 0 && x0 >= 0 ==> 0 <= x < m
    decreases k
  {
    if k == 0 then x0 else Step(a, c, m, State(a, c, m, x0, k - 1))
  }

  /** The normalised value U = X / (m - 1). */
  function Normalized(x: int, m: int): (u: real)
    requires m > 1
    ensures 0 <= x < m ==> 0.0 <= u <= 1.0
    ensures u * (m - 1) as real == x as real
  {
    x as real / (m - 1) as real
  }

  /** One row of the generated table. */
  datatype Record = Record(index: int, x: int, u: real)

  /** Every state of an admissible generator lies in [0, m). */
  lemma {:induction false} StateInRange(a: int, c: int, m: int, x0: int, k: nat)
    requires Admissible(a, c, m, x0)
    ensures 0 <= State(a, c, m, x0, k) < m
  {
    if k > 0 {
      StateInRange(a, c, m, x0, k - 1);
    }
  }

  /** The first worked example: a = 19, c = 33, m = 128, seed 37 gives
      X_1 = 736 % 128 = 96 and U_1 = 96 / 127. */
  lemma FirstStateExample()
    ensures State(19, 33, 128, 37, 1) == 96
    ensures Normalized(State(19, 33, 128, 37, 1), 128) == 96.0 / 127.0
  {
  }

  /** Running i + d steps from x0 is running d steps from X_i. */
  lemma {:induction false} StateShift(a: int, c: int, m: int, x0: int, i: nat, d: nat)
    requires m > 0
    ensures State(a, c, m, x0, i + d) == State(a, c, m, State(a, c, m, x0, i), d)
    decreases d
  {
    if d > 0 {
      StateShift(a, c, m, x0, i, d - 1);
    }
  }

  /** The loop of `generarLCG`: n records, the i-th (from 0) holding index
      i + 1, the state X_{i+1} and its normalised value. */
  method Generate(a: int, c: int, m: int, x0: int, n: int) returns (records: seq<Record>)
    requires m > 1
    ensures |records| == if n > 0 then n else 0
    ensures forall i :: 0 <= i < |records| ==> records[i].index == i + 1
    ensures |records| > 0 ==> records[0].x == Step(a, c, m, x0)
    ensures forall i :: 0 < i < |records| ==> records[i].x == Step(a, c, m, records[i - 1].x)
    ensures forall i :: 0 <= i < |records| ==> records[i].x == State(a, c, m, x0, i + 1)
    ensures forall i :: 0 <= i < |records| ==> records[i].u == Normalized(records[i].x, m)
    ensures Admissible(a, c, m, x0) ==>
      forall i :: 0 <= i < |records| ==> 0 <= records[i].x < m && 0.0 <= records[i].u <= 1.0
  {
    var x := x0;
    records := [];
    var i := 0;
    while i < n
      invariant 0 <= i && |records| == i
      invariant n <= 0 ==> i == 0
      invariant n > 0 ==> i <= n
      invariant x == State(a, c, m, x0, i)
      invariant forall j :: 0 <= j < i ==>
        records[j] == Record(j + 1, State(a, c, m, x0, j + 1), Normalized(State(a, c, m, x0, j + 1), m))
      invariant Admissible(a, c, m, x0) ==> 0 <= x < m
    {
      x := Step(a, c, m, x);
      records := records + [Record(i + 1, x, Normalized(x, m))];
      i := i + 1;
    }
    forall i | 0 <= i < |records| && Admissible(a, c, m, x0)
      ensures 0 <= records[i].x < m
    {
      StateInRange(a, c, m, x0, i + 1);
    }
  }
}
