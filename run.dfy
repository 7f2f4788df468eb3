/** `generarLCG` as a whole: the guard chain, the confirmation asked for
    large counts, the generation loop and the period detector. */
module Run {
  import opened Wrappers
  import opened Generator
  import opened Period
  import opened Validation

  /** Counts above this ask the user to confirm before generating. */
  const ConfirmAbove := 1000

  /** What one press of the generate button yields: a rejection with the
      guard that failed, a declined confirmation, or the table of records
      with the detected period. */
  datatype Outcome = Rejected(error: ParamError) | Declined | Generated(records: seq<Record>, period: nat)

  /** `confirmed` is the user's answer to the confirmation dialog, which is
      shown only when the count exceeds `ConfirmAbove`. */
  method GenerateRun(a: Option<int>, c: Option<int>, m: Option<int>, x0: Option<int>, n: Option<int>,
                     confirmed: bool)
    returns (out: Outcome)
    ensures out.Rejected? <==> Validate(a, c, m, x0, n).Failure?
    ensures out.Rejected? ==> out.error == Validate(a, c, m, x0, n).error
    ensures out.Declined? <==> Validate(a, c, m, x0, n).Success? && n.value > ConfirmAbove && !confirmed
    ensures out.Generated? ==>
      var p := Params(a.value, c.value, m.value, x0.value, n.value);
      && Validate(a, c, m, x0, n) == Success(p)
      && |out.records| == p.n
      && (forall i :: 0 <= i < p.n ==>
            && out.records[i].index == i + 1
            && out.records[i].x == State(p.a, p.c, p.m, p.x0, i + 1)
            && 0 <= out.records[i].x < p.m
            && out.records[i].u == Normalized(out.records[i].x, p.m)
            && 0.0 <= out.records[i].u <= 1.0)
      && 1 <= out.period <= p.m
      && DistinctPrefix(p.a, p.c, p.m, p.x0, out.period)
      && RepeatsAt(p.a, p.c, p.m, p.x0, out.period)
      && (forall i :: 0 <= i < p.n ==> out.records[i].x in Visited(p.a, p.c, p.m, p.x0, out.period))
  {
    var checked := Validate(a, c, m, x0, n);
    if checked.Failure? {
      return Rejected(checked.error);
    }
    var p := checked.value;
    if p.n > ConfirmAbove && !confirmed {
      return Declined;
    }
    AcceptedIsAdmissible(a, c, m, x0, n);
    var records := Generate(p.a, p.c, p.m, p.x0, p.n);
    var period := PeriodLength(p.a, p.c, p.m, p.x0);
    forall i | 0 <= i < p.n
      ensures records[i].x in Visited(p.a, p.c, p.m, p.x0, period)
    {
      EveryStateVisited(p.a, p.c, p.m, p.x0, period, i + 1);
    }
    out := Generated(records, period);
  }
}
