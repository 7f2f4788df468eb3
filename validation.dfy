/** The parameter guards of `generarLCG` and the per-field rules of
    `validarCampoEspecifico`. */
module Validation {
  import opened Wrappers
  import Generator

  /** Parameters once every field has parsed as an integer. */
  datatype Params = Params(a: int, c: int, m: int, x0: int, n: int)

  /** The smallest count of numbers the page accepts. */
  const MinCount := 99

  /** The rules, each checked by one guard of `generarLCG`. */
  datatype Rule = Multiplier | Increment | Modulus | Seed | Count

  /** The position of a rule's guard in the chain. */
  function Position(rule: Rule): nat {
    match rule
    case Multiplier => 0
    case Increment => 1
    case Modulus => 2
    case Seed => 3
    case Count => 4
  }

  predicate Satisfies(p: Params, rule: Rule) {
    match rule
    case Multiplier => p.a > 0
    case Increment => p.c >= 0
    case Modulus => p.m > 1
    case Seed => 0 <= p.x0 < p.m
    case Count => p.n >= MinCount
  }

  /** `rule` is the first rule, in guard order, that `p` breaks. */
  predicate FirstBroken(p: Params, rule: Rule) {
    !Satisfies(p, rule) &&
    forall earlier: Rule :: Position(earlier) < Position(rule) ==> Satisfies(p, earlier)
  }

  /** Why the parameters were rejected: a field is not a number, or a rule
      is broken. */
  datatype ParamError = NotAnInteger | Broken(rule: Rule)

  predicate AllParsed(a: Option<int>, c: Option<int>, m: Option<int>, x0: Option<int>, n: Option<int>) {
    a.Some? && c.Some? && m.Some? && x0.Some? && n.Some?
  }

  /** The guard chain of `generarLCG`, in its order; `None` is a field that
      `parseInt` turned into NaN. */
  function Validate(a: Option<int>, c: Option<int>, m: Option<int>, x0: Option<int>, n: Option<int>)
    : (r: Result<Params, ParamError>)
    ensures r == Failure(NotAnInteger) <==> !AllParsed(a, c, m, x0, n)
    ensures AllParsed(a, c, m, x0, n) ==>
      var p := Params(a.value, c.value, m.value, x0.value, n.value);
      && (r.Failure? ==> r.error.Broken? && FirstBroken(p, r.error.rule))
      && (r.Success? <==> forall rule: Rule :: Satisfies(p, rule))
      && (r.Success? ==> r.value == p)
  {
    if !AllParsed(a, c, m, x0, n) then Failure(NotAnInteger)
    else if a.value <= 0 then Failure(Broken(Multiplier))
    else if c.value < 0 then Failure(Broken(Increment))
    else if m.value <= 1 then Failure(Broken(Modulus))
    else if x0.value < 0 || x0.value >= m.value then Failure(Broken(Seed))
    else if n.value < MinCount then Failure(Broken(Count))
    else Success(Params(a.value, c.value, m.value, x0.value, n.value))
  }

  /** Accepted parameters satisfy everything the generator loop relies on. */
  lemma AcceptedIsAdmissible(a: Option<int>, c: Option<int>, m: Option<int>, x0: Option<int>, n: Option<int>)
    requires Validate(a, c, m, x0, n).Success?
    ensures var p := Validate(a, c, m, x0, n).value;
      Generator.Admissible(p.a, p.c, p.m, p.x0) && p.n >= MinCount
  {
    var p := Validate(a, c, m, x0, n).value;
    assert Satisfies(p, Multiplier) && Satisfies(p, Increment) && Satisfies(p, Modulus);
    assert Satisfies(p, Seed) && Satisfies(p, Count);
  }

  /** `validarCampoEspecifico`: the rule for one input field while it is
      being typed; `modulusField` is the parsed content of the modulus field,
      which counts as 0 when it is not a number. Unknown fields pass. */
  function FieldIsValid(id: string, value: int, modulusField: Option<int>): (ok: bool)
    ensures id != "a" && id != "c" && id != "x0" && id != "n" ==> ok
    ensures id == "x0" && modulusField.None? ==> !ok
  {
    var m := if modulusField.Some? then modulusField.value else 0;
    match id
    case "a" => value > 0
    case "c" => value >= 0
    case "x0" => value >= 0 && value < m
    case "n" => value >= MinCount
    case _ => true
  }

  /** The per-field rules agree with the guard chain: with every field
      parsed, `generarLCG` accepts exactly when the modulus exceeds 1 and each
      of the four typed fields passes its own rule. */
  lemma FieldRulesMatchGuards(p: Params)
    ensures Validate(Some(p.a), Some(p.c), Some(p.m), Some(p.x0), Some(p.n)).Success? <==>
      && p.m > 1
      && FieldIsValid("a", p.a, Some(p.m))
      && FieldIsValid("c", p.c, Some(p.m))
      && FieldIsValid("x0", p.x0, Some(p.m))
      && FieldIsValid("n", p.n, Some(p.m))
  {
  }
}
