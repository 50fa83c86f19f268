/**
 The six scalar inputs of every pricing formula and the two ways the sweep
 engine overwrites them: positional substitution into a fixed-size tuple, and
 the keyed map that the two-axis sweeps build for every cell.
 */
module OptionParams {

  /** Which of the six inputs a mesh axis overrides. */
  datatype ParamType = S | K | T | R | Sig | B

  /** One fully specified valuation scenario, in the formulas' argument order:
      spot, strike, time to expiry, risk-free rate, volatility, cost of carry. */
  datatype Params = Params(s: real, k: real, t: real, r: real, sig: real, b: real)

  /** The field of `p` that `slot` names. */
  function Get(p: Params, slot: ParamType): real
  {
    match slot
    case S => p.s
    case K => p.k
    case T => p.t
    case R => p.r
    case Sig => p.sig
    case B => p.b
  }

  /** Two tuples that agree on every slot are the same tuple. */
  lemma ParamsExtensional(p: Params, q: Params)
    requires forall slot :: Get(p, slot) == Get(q, slot)
    ensures p == q
  {
    assert Get(p, S) == Get(q, S) && Get(p, K) == Get(q, K) && Get(p, T) == Get(q, T);
    assert Get(p, R) == Get(q, R) && Get(p, Sig) == Get(q, Sig) && Get(p, B) == Get(q, B);
  }

  /** The base tuple with exactly the slot named by `slot` replaced by `varying`. */
  function GetParameters(varying: real, slot: ParamType, base: Params): (p: Params)
    ensures Get(p, slot) == varying
    ensures forall other :: other != slot ==> Get(p, other) == Get(base, other)
  {
    match slot
    case S => base.(s := varying)
    case K => base.(k := varying)
    case T => base.(t := varying)
    case R => base.(r := varying)
    case Sig => base.(sig := varying)
    case B => base.(b := varying)
  }

  /** The frame of GetParameters determines its result: any tuple that holds
      `varying` in `slot` and agrees with `base` elsewhere is that result. */
  lemma GetParametersUnique(varying: real, slot: ParamType, base: Params, q: Params)
    requires Get(q, slot) == varying
    requires forall other :: other != slot ==> Get(q, other) == Get(base, other)
    ensures q == GetParameters(varying, slot, base)
  {
    var p := GetParameters(varying, slot, base);
    forall other
      ensures Get(p, other) == Get(q, other)
    {
    }
    ParamsExtensional(p, q);
  }

  /** Writing the same slot twice keeps only the second value. */
  lemma SameSlotLastWriteWins(v1: real, v2: real, slot: ParamType, base: Params)
    ensures GetParameters(v2, slot, GetParameters(v1, slot, base)) == GetParameters(v2, slot, base)
  {
  }

  /** Writes to two different slots commute. */
  lemma DistinctSlotsCommute(v1: real, slot1: ParamType, v2: real, slot2: ParamType, base: Params)
    requires slot1 != slot2
    ensures GetParameters(v2, slot2, GetParameters(v1, slot1, base))
         == GetParameters(v1, slot1, GetParameters(v2, slot2, base))
  {
  }

  /** The keyed map that the two-axis sweeps initialise for each cell. */
  function ToMap(p: Params): map<ParamType, real>
  {
    map[S := p.s, K := p.k, T := p.t, R := p.r, Sig := p.sig, B := p.b]
  }

  /** The initial map has every slot as a key, bound to that slot's field. */
  lemma ToMapAgrees(p: Params)
    ensures forall slot :: slot in ToMap(p) && ToMap(p)[slot] == Get(p, slot)
  {
    forall slot
      ensures slot in ToMap(p) && ToMap(p)[slot] == Get(p, slot)
    {
      match slot
      case S =>
      case K =>
      case T =>
      case R =>
      case Sig =>
      case B =>
    }
  }

  /** Reads the six slots of a map that has them all back into a tuple. */
  function FromMap(m: map<ParamType, real>): (p: Params)
    requires forall slot :: slot in m
    ensures forall slot :: Get(p, slot) == m[slot]
  {
    Params(m[S], m[K], m[T], m[R], m[Sig], m[B])
  }

  /** The parameters of one two-axis sweep cell as the source builds them:
      a map of the base tuple, `slot1` overwritten by `v1`, then `slot2` by
      `v2`. The result is the same as positional substitution in that order. */
  function CellParams(base: Params, slot1: ParamType, v1: real, slot2: ParamType, v2: real): (p: Params)
    ensures p == GetParameters(v2, slot2, GetParameters(v1, slot1, base))
  {
    ToMapAgrees(base);
    var m := ToMap(base)[slot1 := v1][slot2 := v2];
    var p := FromMap(m);
    GetParametersUnique(v2, slot2, GetParameters(v1, slot1, base), p);
    p
  }
}
