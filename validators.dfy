/**
 * The attribute validators `positive`, `non_negative`, `finite` and the
 * `optional` wrapper. A validator either passes or raises; raising is the
 * `Fail` outcome carrying the error.
 */
module Validators {
  import opened Types

  /** A Python number as the validators see it: a real, an infinity or NaN. */
  datatype Num = Real(r: real) | PosInf | NegInf | NaN

  datatype Validator = Positive | NonNegative | Finite

  /** What `optional` is given: one validator, or a list (or tuple) of them. */
  datatype ValidatorArg = Single(v: Validator) | Many(vs: seq<Validator>)

  datatype Outcome = Pass | Fail(error: Error)

  /** Python's `value <= 0`; every comparison with NaN is false. */
  predicate AtMostZero(x: Num) {
    match x
    case Real(r) => r <= 0.0
    case NegInf => true
    case PosInf => false
    case NaN => false
  }

  /** Python's `value < 0`. */
  predicate BelowZero(x: Num) {
    match x
    case Real(r) => r < 0.0
    case NegInf => true
    case PosInf => false
    case NaN => false
  }

  /** `math.isinf(value)`. */
  predicate IsInf(x: Num) {
    x == PosInf || x == NegInf
  }

  /** One validator applied to the value of the attribute named `attribute`. */
  function Run(v: Validator, attribute: string, x: Num): (o: Outcome)
    ensures o.Fail? ==> o.error in {NotPositive(attribute), Negative(attribute), NotFinite(attribute)}
  {
    match v
    case Positive => if AtMostZero(x) then Fail(NotPositive(attribute)) else Pass
    case NonNegative => if BelowZero(x) then Fail(Negative(attribute)) else Pass
    case Finite => if IsInf(x) then Fail(NotFinite(attribute)) else Pass
  }

  /** The list `optional` iterates over: a single validator becomes a one-element list. */
  function ValidatorList(f: ValidatorArg): seq<Validator> {
    match f
    case Single(v) => [v]
    case Many(vs) => vs
  }

  /**
   * The `for func in func_list` loop: the validators run in order and the
   * first one that raises ends the loop with its error.
   */
  function RunAll(fs: seq<Validator>, attribute: string, x: Num): (o: Outcome)
    ensures o.Pass? <==> forall k :: 0 <= k < |fs| ==> Run(fs[k], attribute, x).Pass?
    ensures o.Fail? ==>
      exists k :: 0 <= k < |fs| && Run(fs[k], attribute, x) == o &&
        forall m :: 0 <= m < k ==> Run(fs[m], attribute, x).Pass?
  {
    if fs == [] then Pass
    else
      var first := Run(fs[0], attribute, x);
      if first.Fail? then first
      else
        var rest := RunAll(fs[1..], attribute, x);
        assert forall k :: 1 <= k < |fs| ==> fs[k] == fs[1..][k - 1];
        rest
  }

  /** The validator returned by `optional(f)`, applied to an attribute value (`None` is Python's None). */
  function Optional(f: ValidatorArg, attribute: string, value: Option<Num>): (o: Outcome)
    ensures value.None? ==> o == Pass
    ensures value.Some? ==>
      (o.Pass? <==> forall k :: 0 <= k < |ValidatorList(f)| ==> Run(ValidatorList(f)[k], attribute, value.value).Pass?)
    ensures value.Some? && o.Fail? ==>
      exists k :: 0 <= k < |ValidatorList(f)| && Run(ValidatorList(f)[k], attribute, value.value) == o
  {
    if value.None? then Pass else RunAll(ValidatorList(f), attribute, value.value)
  }

  /** `optional` never rejects None, whatever it wraps. */
  lemma OptionalAcceptsNone(f: ValidatorArg, attribute: string)
    ensures Optional(f, attribute, None) == Pass
  {
  }

  /** A single validator and a one-element list of it are the same validator. */
  lemma SingleIsOneElementList(v: Validator, attribute: string, value: Option<Num>)
    ensures Optional(Single(v), attribute, value) == Optional(Many([v]), attribute, value)
  {
  }

  /** On a present value, `optional` passes exactly when every wrapped validator passes. */
  lemma OptionalPassesIffAllPass(f: ValidatorArg, attribute: string, x: Num)
    ensures Optional(f, attribute, Some(x)).Pass? <==>
      forall v :: v in ValidatorList(f) ==> Run(v, attribute, x).Pass?
  {
    var fs := ValidatorList(f);
    assert forall v :: v in fs <==> exists k :: 0 <= k < |fs| && fs[k] == v;
  }

  /** `positive` rejects exactly the values that are `<= 0`: non-positive reals and minus infinity. */
  lemma PositiveAccepts(attribute: string, x: Num)
    ensures Run(Positive, attribute, x).Pass? <==> (x.Real? && x.r > 0.0) || x == PosInf || x == NaN
    ensures Run(Positive, attribute, x).Fail? ==> Run(Positive, attribute, x).error == NotPositive(attribute)
  {
  }

  /** `non_negative` rejects exactly the values that are `< 0`. */
  lemma NonNegativeAccepts(attribute: string, x: Num)
    ensures Run(NonNegative, attribute, x).Pass? <==> (x.Real? && x.r >= 0.0) || x == PosInf || x == NaN
    ensures Run(NonNegative, attribute, x).Fail? ==> Run(NonNegative, attribute, x).error == Negative(attribute)
  {
  }

  /** `finite` rejects exactly the two infinities; NaN passes it. */
  lemma FiniteAccepts(attribute: string, x: Num)
    ensures Run(Finite, attribute, x).Pass? <==> x.Real? || x == NaN
    ensures Run(Finite, attribute, x).Fail? ==> Run(Finite, attribute, x).error == NotFinite(attribute)
  {
  }

  /**
   * The sample-size validator `optional([positive, finite])`: it accepts None,
   * the positive reals and NaN; minus infinity fails `positive` first, so it
   * is reported as not positive rather than not finite.
   */
  lemma PositiveFiniteOutcome(attribute: string, value: Option<Num>)
    ensures var o := Optional(Many([Positive, Finite]), attribute, value);
      && (o.Pass? <==> value.None? || (value.value.Real? && value.value.r > 0.0) || value.value == NaN)
      && (value == Some(NegInf) ==> o == Fail(NotPositive(attribute)))
      && (value == Some(PosInf) ==> o == Fail(NotFinite(attribute)))
  {
    if value.Some? {
      var fs := [Positive, Finite];
      assert RunAll(fs, attribute, value.value) ==
        if AtMostZero(value.value) then Fail(NotPositive(attribute))
        else RunAll(fs[1..], attribute, value.value);
    }
  }
}
