/**
 Put-call parity for European options, C - P = S - K*exp(-r*T). The
 exponential is not modelled: it enters as a parameter, so the discounted
 strike is an arbitrary real and the identities below hold exactly.
 */
module PutCallParity {

  /** The exponential function, left abstract. */
  type Exp = real -> real

  /** The tolerance used when the caller gives none. */
  const DefaultTolerance: real := 0.000001

  /** The present value of the strike, K * exp(-r*T). */
  function DiscountedStrike(exp: Exp, K: real, T: real, r: real): real
  {
    K * exp(-r * T)
  }

  /** The call price that parity implies from a put price: together with
      that put it meets C - P = S - K*exp(-r*T). */
  function CallFromPut(exp: Exp, P: real, S: real, K: real, T: real, r: real): (C: real)
    ensures C - P == S - DiscountedStrike(exp, K, T, r)
  {
    P + S - DiscountedStrike(exp, K, T, r)
  }

  /** The put price that parity implies from a call price; converting it back
      gives the call price again. */
  function PutFromCall(exp: Exp, C: real, S: real, K: real, T: real, r: real): (P: real)
    ensures CallFromPut(exp, P, S, K, T, r) == C
  {
    C - S + DiscountedStrike(exp, K, T, r)
  }

  /** Converting a put price to a call price and back gives the put price. */
  lemma PutFromCallOfCallFromPut(exp: Exp, P: real, S: real, K: real, T: real, r: real)
    ensures PutFromCall(exp, CallFromPut(exp, P, S, K, T, r), S, K, T, r) == P
  {
  }

  function Abs(x: real): (a: real)
    ensures a >= 0.0 && (a == x || a == -x)
  {
    if x < 0.0 then -x else x
  }

  /** Whether a call and a put price agree with parity to within `tol`: the
      call lies strictly within `tol` of the call that parity implies from the
      put. A tolerance that is not positive rejects every pair. */
  function SatisfiesParity(exp: Exp, C: real, P: real, S: real, K: real, T: real, r: real,
                           tol: real := DefaultTolerance): (ok: bool)
    ensures ok <==> CallFromPut(exp, P, S, K, T, r) - tol < C < CallFromPut(exp, P, S, K, T, r) + tol
    ensures tol <= 0.0 ==> !ok
  {
    var lhs := C - P;
    var rhs := S - DiscountedStrike(exp, K, T, r);
    Abs(lhs - rhs) < tol
  }

  /** Called without a tolerance, the check accepts exactly the calls
      strictly within 1e-6 of the call parity implies. */
  lemma DefaultToleranceIsOneMillionth(exp: Exp, C: real, P: real, S: real, K: real, T: real, r: real)
    ensures SatisfiesParity(exp, C, P, S, K, T, r)
        <==> CallFromPut(exp, P, S, K, T, r) - 0.000001 < C < CallFromPut(exp, P, S, K, T, r) + 0.000001
  {
  }

  /** A call and the put derived from it by parity satisfy parity for every
      positive tolerance. */
  lemma DerivedPutSatisfiesParity(exp: Exp, C: real, S: real, K: real, T: real, r: real, tol: real)
    requires tol > 0.0
    ensures SatisfiesParity(exp, C, PutFromCall(exp, C, S, K, T, r), S, K, T, r, tol)
  {
  }

  /** A put and the call derived from it by parity satisfy parity for every
      positive tolerance. */
  lemma DerivedCallSatisfiesParity(exp: Exp, P: real, S: real, K: real, T: real, r: real, tol: real)
    requires tol > 0.0
    ensures SatisfiesParity(exp, CallFromPut(exp, P, S, K, T, r), P, S, K, T, r, tol)
  {
  }

  /** Whether a double lies strictly between -2^31 and 2^31, so that it
      truncates to a 32-bit `int` other than INT_MIN and both the conversion
      and `abs` are defined. Beyond that range the source is undefined. */
  predicate InIntRange(x: real)
  {
    -2147483648.0 < x < 2147483648.0
  }

  /** Truncates toward zero, as the C++ double-to-int conversion does. */
  function TruncateToInt(x: real): int
  {
    if x >= 0.0 then x.Floor else -((-x).Floor)
  }

  function IntAbs(n: int): nat
  {
    if n < 0 then -n else n
  }

  /** The parity check read with the integer absolute value: the real
      difference is converted to an integer, truncating toward zero, before
      its magnitude is compared with the tolerance.
      Truncation makes every tolerance in (0, 1] act as 1: the check then
      accepts exactly the pairs whose parity gap is strictly below 1 in
      magnitude. */
  function SatisfiesParityIntAbs(exp: Exp, C: real, P: real, S: real, K: real, T: real, r: real,
                                 tol: real := DefaultTolerance): (ok: bool)
    ensures InIntRange(C - CallFromPut(exp, P, S, K, T, r)) && 0.0 < tol <= 1.0 ==>
              (ok <==> CallFromPut(exp, P, S, K, T, r) - 1.0 < C < CallFromPut(exp, P, S, K, T, r) + 1.0)
    ensures InIntRange(C - CallFromPut(exp, P, S, K, T, r)) && tol <= 0.0 ==> !ok
  {
    var lhs := C - P;
    var rhs := S - DiscountedStrike(exp, K, T, r);
    TruncatesToZero(lhs - rhs);
    IntAbs(TruncateToInt(lhs - rhs)) as real < tol
  }

  /** A real truncates to 0 exactly when it lies strictly between -1 and 1. */
  lemma TruncatesToZero(x: real)
    ensures TruncateToInt(x) == 0 <==> -1.0 < x < 1.0
  {
  }

  /** With the integer absolute value, a pair that misses parity by 0.9 is
      accepted at the default tolerance, while the real check rejects it. */
  lemma IntAbsAcceptsParityViolation(exp: Exp)
    ensures SatisfiesParityIntAbs(exp, 1.5, 0.0, 0.6, 0.0, 0.0, 0.0)
    ensures !SatisfiesParity(exp, 1.5, 0.0, 0.6, 0.0, 0.0, 0.0)
  {
    assert DiscountedStrike(exp, 0.0, 0.0, 0.0) == 0.0;
    assert TruncateToInt(0.9) == 0;
  }
}
