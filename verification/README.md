# Option-pricing parameter-sweep engine, modelled in Dafny

This project models the sweep engine of a small option-pricing library. The
engine takes any closed-form pricing or Greek formula of the six inputs
(spot S, strike K, time to expiry T, risk-free rate r, volatility sig, cost
of carry b). It evaluates the formula while one or two of those inputs vary
over a mesh. The model covers:

- the linear mesh generator;
- positional substitution of one input (`get_parameters`) and the keyed-map
  substitution of two inputs that the matrix sweeps perform per cell;
- dispatch over the four European quantities (`Price`, `CallDelta`,
  `PutDelta`, `Gamma`);
- the one-axis sweep `compute_values`, the two-axis sweep
  `compute_value_matrix`, and the American two-axis sweep
  `compute_american_matrix`;
- the finite-difference oracle `NumericalGreeks`, which has a mutable step;
- the put-call parity helpers.

Doubles are modelled as Dafny `real`. The formulas are parameters: a
`Formula` is any function of six reals. A `FormulaSet` holds the European
call price, put price, call delta, put delta and gamma. The American
perpetual approximations are functions of (S, K, r, sig, b) only, because
their closed forms never read T. The exponential in put-call parity is also
a parameter, so the discounted strike `K * exp(-r*T)` is an arbitrary real.

Modules, one per source component:

- `OptionParams` (`params.dfy`): the `ParamType` slots, the `Params` tuple, `GetParameters`, and the map-based cell substitution `CellParams`.
- `Formulas` (`formulas.dfy`): the `GreekType` dispatch `CalculateGreek`, the American formula selection `AmericanValue`, and the `Valuation` a sweep cell computes.
- `Sweep` (`sweep.dfy`): `ComputeValues` and `ComputeValueMatrix`. The predicates `IsSweep` and `IsGrid` state what a one-axis and a two-axis sweep contain.
- `AmericanMatrix` (`american.dfy`): `ComputeAmericanMatrix`.
- `Mesh` (`mesh.dfy`): `LinearMesh`.
- `FiniteDifference` (`numerical_greeks.dfy`): the `NumericalGreeks` class.
- `PutCallParity` (`parity.dfy`): `CallFromPut`, `PutFromCall` and `SatisfiesParity`.

Policies made explicit:

- When both axes of a two-axis sweep name the same slot, the second write wins (`Sweep.SameSlotGrid`).
- A commonly stated law says that column j of a two-axis sweep is the one-axis sweep over the first mesh with the second slot preset to `mesh2[j]`. That law holds only when the two slots differ (`Sweep.ColumnIsSweep`). With equal slots, every row of the matrix is the same.
- The mesh generator terminates only when `h > 0` or `start > end`. `LinearMesh` requires exactly that.
- The source's `default: throw std::invalid_argument` in the dispatcher is unreachable for the four declared enumerators. The Dafny `match` over `GreekType` is exhaustive, so it has no such branch.

## Model

| member | source | states |
|---|---|---|
| OptionParams.GetParameters | OptionPricingMatrix.hpp:94-110 | the result holds `varying` in the slot named by `param_type`, and each of the other five slots equals the base tuple's |
| OptionParams.GetParametersUnique | OptionPricingMatrix.hpp:98-107 | any tuple with `varying` in the named slot and the base values elsewhere is exactly GetParameters' result |
| OptionParams.SameSlotLastWriteWins | OptionPricingMatrix.hpp:61-62 | writing the same slot twice equals writing only the second value |
| OptionParams.DistinctSlotsCommute | OptionPricingMatrix.hpp:61-62 | writes to two different slots give the same tuple in either order |
| OptionParams.ToMapAgrees | OptionPricingMatrix.hpp:55-59 | the map initialised from the base tuple has all six slots as keys, each bound to that slot's base value |
| OptionParams.CellParams | OptionPricingMatrix.hpp:55-67 | the tuple read back from the map after `params[param1_type] = param1; params[param2_type] = param2` equals positional substitution of slot 1 and then slot 2 |
| Formulas.CalculateGreek | OptionPricingMatrix.hpp:77-92 | the dispatch table: `Price` gives the call price, `CallDelta` the call delta, `PutDelta` the put delta and `Gamma` the gamma formula, each at the given tuple |
| Formulas.DispatchReadsOnlySelected | OptionPricingMatrix.hpp:77-92 | two formula sets that agree, at the given tuple, on the one formula the kind names give the same dispatched value, whatever their other formulas are |
| Formulas.PutPriceNeverRead | OptionPricingMatrix.hpp:80-88 | no kind's dispatched value changes when the put price formula is replaced, so `Price` never yields a put price |
| Formulas.AmericanValue | AmericanOptionMatrix.hpp:32-40 | with `is_call` the value is the American call formula, otherwise the put formula, both at (S, K, r, sig, b) of the tuple, so T never reaches them |
| Formulas.AmericanIgnoresExpiry | AmericanOptions.hpp:16-26 | the selected American formula gives the same value for every T |
| Sweep.ComputeValues | OptionPricingMatrix.hpp:22-38 | the result has one value per mesh point, in mesh order; value i is the dispatched formula at the base tuple with the slot set to `param_values[i]` |
| Sweep.ComputeValueMatrix | OptionPricingMatrix.hpp:41-74 | the matrix has `\|param1\|` rows of `\|param2\|` entries each; cell [i][j] is the dispatched formula at the base tuple with slot 1 set to `param1[i]` and then slot 2 set to `param2[j]` |
| Sweep.GridUnique | OptionPricingMatrix.hpp:47-73 | two matrices that both meet the cell-by-cell description for the same meshes, slots, base and formula are equal |
| Sweep.GridOfEmptyMesh | OptionPricingMatrix.hpp:47-73 | an empty first mesh gives an empty matrix; an empty second mesh gives one empty row per point of the first mesh |
| Sweep.RowIsSweep | OptionPricingMatrix.hpp:50-71 | row i is the one-axis sweep over the second mesh from the base tuple with slot 1 preset to `param1[i]` |
| Sweep.ColumnIsSweep | OptionPricingMatrix.hpp:22-38 | when the slots differ, column j is the one-axis sweep over the first mesh from the base tuple with slot 2 preset to `param2[j]` |
| Sweep.SameSlotGrid | OptionPricingMatrix.hpp:55-67 | when both axes name the same slot, every cell depends only on `param2[j]`, and all rows are equal |
| AmericanMatrix.ComputeAmericanMatrix | AmericanOptionMatrix.hpp:9-45 | the matrix has `\|param1\|` rows of `\|param2\|` entries each; cell [i][j] is the selected American formula at the base tuple with slot 1 set to `param1[i]` and then slot 2 set to `param2[j]` |
| AmericanMatrix.AmericanFormulaIsUniform | AmericanOptionMatrix.hpp:32-40 | with `is_call` every cell is the American call formula at its parameters, and otherwise every cell is the put formula |
| AmericanMatrix.ConstantAlongExpiryRows | AmericanOptionMatrix.hpp:23-39 | when the first axis sweeps T and the second axis another slot, every column is constant |
| AmericanMatrix.ConstantAlongExpiryColumns | AmericanOptionMatrix.hpp:23-39 | when the second axis sweeps T and the first axis another slot, every row is constant |
| AmericanMatrix.AmericanMatrixIsValueMatrix | AmericanOptionMatrix.hpp:18-43 | the American matrix equals the European `Price` matrix of a formula set whose call price is the selected American formula |
| Mesh.LinearMesh | MeshGenerator.hpp:7-13 | the mesh is empty if start > end; point k is start + k*h and does not exceed end; the next point start + \|mesh\|*h exceeds end; the length is floor((end-start)/h) + 1 when start <= end |
| Mesh.BelowSize | MeshGenerator.hpp:9 | start + k*h <= end holds exactly when k is below floor((end-start)/h) + 1 |
| Mesh.MeshIncreasing | MeshGenerator.hpp:9-10 | a non-empty mesh starts at `start`; consecutive points differ by exactly h; the mesh is strictly increasing |
| Mesh.MeshSizeExample | MeshGenerator.hpp:9-12 | the mesh from 10 to 50 with step 1 has 41 points |
| FiniteDifference.NumericalGreeks.constructor | NumericalGreeks.hpp:11-12 | the new oracle holds the given pricing function and the given step; the step defaults to `DefaultStep` (0.01, pinned by `StepSizeLifecycle`) |
| FiniteDifference.NumericalGreeks.Delta | NumericalGreeks.hpp:18-21 | delta times 2h equals the formula at S+h minus the formula at S-h, the other five arguments unchanged (its reads are pinned down by `DeltaReadsSpotNeighbours`) |
| FiniteDifference.NumericalGreeks.Gamma | NumericalGreeks.hpp:24-28 | gamma times h^2 equals f(S+h) - 2 f(S) + f(S-h), the other five arguments unchanged (see `GammaReadsSpotNeighbours`) |
| FiniteDifference.NumericalGreeks.Theta | NumericalGreeks.hpp:31-34 | theta times h equals f(T-h) - f(T) at an unchanged spot, a backward difference (see `ThetaReadsBackward`) |
| FiniteDifference.NumericalGreeks.SetStepSize | NumericalGreeks.hpp:15 | the step becomes the given h; the pricing function is a constant field, fixed at construction as `pricing_fn_` is; the contract needs `modifies`, since the step is the oracle's one mutable field |
| FiniteDifference.StepSizeLifecycle | NumericalGreeks.hpp:11-15 | a new oracle stores its pricing function with the default step 0.01; after `set_step_size` it has the new step and the same function |
| FiniteDifference.CentralDifferenceExact | NumericalGreeks.hpp:18-21 | the central quotient returns `slope` if and only if the two values 2h apart differ by slope * 2h |
| FiniteDifference.SecondDifferenceExact | NumericalGreeks.hpp:24-28 | the second-difference quotient returns c if and only if the second difference equals c * h^2 |
| FiniteDifference.BackwardDifferenceExact | NumericalGreeks.hpp:31-34 | the backward quotient returns -slope if and only if the values h apart differ by -slope * h |
| FiniteDifference.DeltaReadsSpotNeighbours | NumericalGreeks.hpp:18-21 | delta depends on the formula only at (S+h, K, T, r, sigma, b) and (S-h, K, T, r, sigma, b) |
| FiniteDifference.GammaReadsSpotNeighbours | NumericalGreeks.hpp:24-28 | gamma depends on the formula only at S+h, S and S-h, with the other five arguments unchanged |
| FiniteDifference.ThetaReadsBackward | NumericalGreeks.hpp:31-34 | theta depends on the formula only at (S, K, T-h, ...) and (S, K, T, ...); it never reads T+h and never moves S |
| FiniteDifference.ConstantFormulaHasZeroGreeks | NumericalGreeks.hpp:18-34 | for a formula that is constant in S and T, delta, gamma and theta are all 0 |
| FiniteDifference.QuadraticInSpotIsExact | NumericalGreeks.hpp:18-28 | for a formula a2*S^2 + a1*S + a0 in the spot, delta is 2*a2*S + a1 and gamma is 2*a2; for an affine formula this gives delta = slope and gamma = 0 |
| FiniteDifference.AffineInExpiryTheta | NumericalGreeks.hpp:31-34 | for a formula c*T + d in the time to expiry, theta is -c |
| PutCallParity.CallFromPut | PutCallParity.hpp:8-10 | the derived call and the given put meet C - P = S - K*exp(-r*T) |
| PutCallParity.PutFromCall | PutCallParity.hpp:8-15 | converting the derived put back with `call_from_put` returns the original call price |
| PutCallParity.PutFromCallOfCallFromPut | PutCallParity.hpp:8-15 | converting the derived call back with `put_from_call` returns the original put price |
| PutCallParity.SatisfiesParity | PutCallParity.hpp:18-22 | the check holds exactly when C lies strictly within tol of `call_from_put(P, ...)`, so no pair passes when tol <= 0; the signature defaults tol to 1e-6 |
| PutCallParity.DefaultToleranceIsOneMillionth | PutCallParity.hpp:18 | called without a tolerance, the check accepts exactly the calls strictly within 1e-6 of `call_from_put(P, ...)` |
| PutCallParity.DerivedPutSatisfiesParity | PutCallParity.hpp:13-22 | a call and the put derived from it satisfy parity for every tol > 0 |
| PutCallParity.DerivedCallSatisfiesParity | PutCallParity.hpp:8-22 | a put and the call derived from it satisfy parity for every tol > 0 |
| PutCallParity.SatisfiesParityIntAbs | PutCallParity.hpp:18-22 | read with the integer `abs`, for a parity gap strictly inside (-2^31, 2^31) where the conversion is defined, the check treats every tolerance in (0, 1] as 1: it accepts exactly the pairs whose parity gap is strictly below 1 in magnitude, and rejects every pair when tol <= 0 |
| PutCallParity.TruncatesToZero | PutCallParity.hpp:21 | the conversion of the difference to `int` yields 0 exactly when the difference lies strictly between -1 and 1 |
| PutCallParity.IntAbsAcceptsParityViolation | PutCallParity.hpp:21 | if `abs` binds to the integer overload, a pair that misses parity by 0.9 passes at tolerance 1e-6, while the real-valued check rejects it |

## Left out

- The closed-form formulas (BlackScholes.hpp, Greeks.hpp, AmericanOptions.hpp) are not modelled. They are floating-point numerics over `log`, `exp`, `sqrt`, `pow` and the normal CDF/PDF. Sweeps and the oracle take them as function parameters, and the American ones as functions that do not take T.
- BatchPricer.hpp and the driver program GroupA&B.cpp are not part of this model: they are hard-coded textbook tuples and console output. The driver labels the matrix at GroupA&B.cpp:72-80 "Put Price", but it requests `GreekType::Price`, which dispatches to the call formula (`Formulas.CalculateGreek`, `Formulas.PutPriceNeverRead`).
- `print_value_matrix` (OptionPricingMatrix.hpp:114-139) only formats and prints.
- IEEE-754 rounding is not modelled. With doubles, repeated `x += h` can add or drop the point at `end`. With doubles, `h > 0` does not even guarantee termination: once `x + h` rounds back to `x` (start = 1e17, end = 2e17, h = 1), the loop never exits. The termination argument behind `LinearMesh` holds over exact reals only. Over exact reals the mesh has exactly floor((end-start)/h) + 1 points.
- Mesh.LinearMesh: requires `h > 0 || start > end`. With `h <= 0` and `start <= end` the source loop never exits, so the model does not describe that case.
- FiniteDifference.NumericalGreeks.Delta: requires `h != 0`. The source divides by zero and yields infinity or NaN, which reals cannot represent. Step-size accuracy and convergence are not modelled.
- FiniteDifference.NumericalGreeks.Gamma: requires `h != 0`, for the same reason as `Delta`.
- FiniteDifference.NumericalGreeks.Theta: requires `h != 0`, for the same reason as `Delta`.
- PutCallParity.SatisfiesParityIntAbs: the 32-bit range of `int` is not modelled. Its contract speaks only of parity gaps strictly inside (-2^31, 2^31). For a larger gap, the conversion to `int` (or `abs(INT_MIN)`) is undefined behaviour in the source.
- `std::function` and `std::map` are modelled as function values and as a Dafny `map` read back into a tuple. Allocation and `reserve` are not modelled.
- The exponential in PutCallParity.hpp is a parameter, so the round trips are exact identities rather than floating-point approximations.

## Findings

| source | as written | input that shows it | evidently intended | confidence | as-written member | corrected member |
|---|---|---|---|---|---|---|
| PutCallParity.hpp:21 | unqualified `abs(lhs - rhs)`; when only the C `int abs(int)` is visible in the global namespace, the difference is truncated toward zero before the comparison | C = 1.5, P = 0, S = 0.6, K = 0 (any T, r): the difference is 0.9, truncated to 0, and 0 < 1e-6 accepts the pair | the real absolute value, so that the pair is rejected | medium: depends on which headers bring `abs` overloads into scope; not executed | PutCallParity.SatisfiesParityIntAbs (shown by PutCallParity.IntAbsAcceptsParityViolation) | PutCallParity.SatisfiesParity |
