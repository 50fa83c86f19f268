/**
 The pricing and sensitivity formulas, seen only at their interface: six reals
 in, one real out. Their closed forms are not part of this model; a sweep is
 given the formulas it may dispatch to.
 */
module Formulas {
  import opened OptionParams

  /** A closed-form formula of (S, K, T, r, sig, b). */
  type Formula = (real, real, real, real, real, real) -> real

  /** An American perpetual approximation: a function of (S, K, r, sig, b)
      only, because its closed form never reads the time to expiry. */
  type Perpetual = (real, real, real, real, real) -> real

  /** The European formulas the dispatcher can choose from. */
  datatype FormulaSet = FormulaSet(
    callPrice: Formula,
    putPrice: Formula,
    callDelta: Formula,
    putDelta: Formula,
    gamma: Formula)

  /** The quantity a European sweep computes. */
  datatype GreekType = Price | CallDelta | PutDelta | Gamma

  /** Applies a six-argument formula to a tuple, argument by argument. */
  function Apply(f: Formula, p: Params): real
  {
    f(p.s, p.k, p.t, p.r, p.sig, p.b)
  }

  /** The formula that `kind` selects. */
  function Selected(fs: FormulaSet, kind: GreekType): Formula
  {
    match kind
    case Price => fs.callPrice
    case CallDelta => fs.callDelta
    case PutDelta => fs.putDelta
    case Gamma => fs.gamma
  }

  /** Dispatch on the quantity to compute. The match is exhaustive over the
      four kinds, so the source's invalid-argument default has no counterpart. */
  function CalculateGreek(fs: FormulaSet, kind: GreekType, p: Params): (v: real)
    ensures kind == Price ==> v == Apply(fs.callPrice, p)
    ensures kind == CallDelta ==> v == Apply(fs.callDelta, p)
    ensures kind == PutDelta ==> v == Apply(fs.putDelta, p)
    ensures kind == Gamma ==> v == Apply(fs.gamma, p)
  {
    Apply(Selected(fs, kind), p)
  }

  /** Dispatch reads nothing but the one formula its kind names, at the given
      point: two formula sets that agree on that formula there give the same
      value, whatever their other formulas are. */
  lemma DispatchReadsOnlySelected(fs: FormulaSet, gs: FormulaSet, kind: GreekType, p: Params)
    requires kind == Price ==> Apply(fs.callPrice, p) == Apply(gs.callPrice, p)
    requires kind == CallDelta ==> Apply(fs.callDelta, p) == Apply(gs.callDelta, p)
    requires kind == PutDelta ==> Apply(fs.putDelta, p) == Apply(gs.putDelta, p)
    requires kind == Gamma ==> Apply(fs.gamma, p) == Apply(gs.gamma, p)
    ensures CalculateGreek(fs, kind, p) == CalculateGreek(gs, kind, p)
  {
  }

  /** No kind ever consults the put price formula: replacing it changes no
      dispatched value, so `Price` is never a put price. */
  lemma PutPriceNeverRead(fs: FormulaSet, put: Formula, kind: GreekType, p: Params)
    ensures CalculateGreek(fs.(putPrice := put), kind, p) == CalculateGreek(fs, kind, p)
  {
  }

  /** The American formulas an American sweep chooses between. */
  datatype AmericanFormulas = AmericanFormulas(call: Perpetual, put: Perpetual)

  /** The selected American formula at a six-input point; T is passed in and
      ignored. */
  function AmericanValue(af: AmericanFormulas, isCall: bool, p: Params): (v: real)
    ensures isCall ==> v == af.call(p.s, p.k, p.r, p.sig, p.b)
    ensures !isCall ==> v == af.put(p.s, p.k, p.r, p.sig, p.b)
  {
    if isCall then af.call(p.s, p.k, p.r, p.sig, p.b)
    else af.put(p.s, p.k, p.r, p.sig, p.b)
  }

  /** The American value does not depend on the time to expiry. */
  lemma AmericanIgnoresExpiry(af: AmericanFormulas, isCall: bool, p: Params, t: real)
    ensures AmericanValue(af, isCall, GetParameters(t, T, p)) == AmericanValue(af, isCall, p)
  {
  }

  /** What one sweep cell computes: a dispatched European quantity, or the
      selected American formula. */
  datatype Valuation =
    | European(fs: FormulaSet, kind: GreekType)
    | American(af: AmericanFormulas, isCall: bool)

  function Evaluate(v: Valuation, p: Params): real
  {
    match v
    case European(fs, kind) => CalculateGreek(fs, kind, p)
    case American(af, isCall) => AmericanValue(af, isCall, p)
  }
}
