# Spoke length calculator — a verified Dafny model

This project models the calculation core of a bicycle wheel builder
(`src/lib/spokeCalculator.ts`). The core has three parts:

- **Validator** (`validateWheelSpecs`). It checks a wheel specification against five independent rules:
  - rim effective diameter in (0, 1000] mm;
  - spoke count between 8 and 48 and divisible by 4;
  - cross pattern between 0 and 4;
  - hub flange diameter in (0, 200] mm;
  - flange diameter smaller than the rim diameter.

  It appends one fixed message per failed rule, in that order.
- **Length calculator** (`calculateSpokeLength`). It runs the validator. If any message comes back, it returns
  length 0, `isValid = false` and the messages. Otherwise it evaluates
  `L = sqrt((r - h cos θ)^2 + (h sin θ)^2)` with `θ = crossPattern · 360 / spokeCount` degrees,
  rounded to one decimal place.
- **Size catalog** (`getCommonWheelSizes`). It returns six named rim diameters in a fixed order.

Everything is in one module, `SpokeCalculator`, in `spoke_calculator.dfy`:

- The validator is a method that builds its list step by step, as the source does. It is proved equal to a pure
  specification, `Violations`: the messages of the rules in the rule table `RuleOrder` that fail, kept in order.
- The calculator and the catalog are pure functions.
- Numbers are exact reals, and counts are integers.
- `Math.cos`, `Math.sin`, `Math.sqrt` and `Math.PI` are parameters, grouped in the datatype `Primitives`.
  Each lemma states which textbook property of them it relies on:
  - `SquareRoot`: sqrt is increasing and undoes squaring;
  - `CosineAtMostOne`: the cosine never exceeds 1;
  - `ExactAtZero`: cos 0 = 1 and sin 0 = 0.
- `Math.round` is modelled exactly, as `floor(x + 0.5)` on reals.

Notes on the source:

- The messages say "between 1-1000mm" and "between 1-200mm", but the checks accept any positive value
  (for example a 0.5mm rim). The model follows the checks.
- The source tests divisibility with JavaScript's truncating `%`, while Dafny's `%` is Euclidean.
  On integers the two agree on whether the remainder is zero, so the spoke-count rule is the same.

## Model

| member | source | states |
|---|---|---|
| `SpokeCalculator.ValidateWheelSpecs` | src/lib/spokeCalculator.ts:21-45 | the list built by the five guarded appends equals the messages of exactly the failed rules, in rule order |
| `SpokeCalculator.ValidatorAcceptsExactlyValid` | src/lib/spokeCalculator.ts:21-45 | the validator returns no message if and only if all five invariants hold (0 < rim ≤ 1000, 8 ≤ spokes ≤ 48 and divisible by 4, 0 ≤ cross ≤ 4, 0 < hub ≤ 200, hub < rim) |
| `SpokeCalculator.ValidatorReportsFailure` | src/lib/spokeCalculator.ts:24-42 | each rule's own message is in the list if and only if that rule's check fails |
| `SpokeCalculator.ValidatorOrder` | src/lib/spokeCalculator.ts:22-44 | messages appear in rule order (rim, spokes, cross, hub range, hub below rim), none twice, at most five |
| `SpokeCalculator.HubRulesIndependent` | src/lib/spokeCalculator.ts:36-42 | a flange over 200mm that is not smaller than the rim draws both hub messages, the range message first |
| `SpokeCalculator.MessageInjective` | src/lib/spokeCalculator.ts:25-41 | the five messages are pairwise different, so each message identifies its rule |
| `SpokeCalculator.FailedRulesMember` | src/lib/spokeCalculator.ts:22-44 | a rule is reported if and only if it is among the rules checked and its check fails |
| `SpokeCalculator.FailedRulesOrdered` | src/lib/spokeCalculator.ts:22-44 | reporting keeps the order in which the rules are checked |
| `SpokeCalculator.ReferenceWheelPasses` | src/lib/__tests__/spokeCalculator.test.ts:6-16 | 622mm rim, 32 spokes, 3-cross, 60mm flange yields no message |
| `SpokeCalculator.NegativeRimMessages` | src/lib/__tests__/spokeCalculator.test.ts:18-28 | a -100mm rim yields the rim message, and also the hub-below-rim message |
| `SpokeCalculator.OversizedFlangeMessages` | src/lib/__tests__/spokeCalculator.test.ts:54-64 | a 700mm flange on a 622mm rim yields exactly the two hub messages |
| `SpokeCalculator.AllRulesBrokenMessages` | src/lib/__tests__/spokeCalculator.test.ts:120-133 | rim -100, 15 spokes, cross 5, flange 700 break all five rules and yield all five messages in order |
| `SpokeCalculator.CalculateSpokeLength` | src/lib/spokeCalculator.ts:55-83 | errors equal the validator's output; isValid holds iff the specification is valid iff errors is empty; an invalid specification gives length 0; a valid one gives the formula rounded to one decimal place, with a nonzero spoke count to divide by |
| `SpokeCalculator.RoundHalfUp` | src/lib/spokeCalculator.ts:79 | rounding lands within half a unit of its input (x - 0.5 < n ≤ x + 0.5) |
| `SpokeCalculator.RoundToTenth` | src/lib/spokeCalculator.ts:79 | the result is a whole number of tenths, within 0.05 of its input |
| `SpokeCalculator.RoundToTenthMonotonic` | src/lib/spokeCalculator.ts:79 | rounding to one decimal place never reverses an order |
| `SpokeCalculator.ValidInputsWellFormed` | src/lib/spokeCalculator.ts:66-70 | after validation passes, the flange radius is positive and below the rim radius (at most 500), the spoke count is at least 8, and the cross angle is between 0 and 180 degrees |
| `SpokeCalculator.RadialLegBound` | src/lib/spokeCalculator.ts:74 | when the cosine is at most 1, the leg a = r - h cos θ is at least r - h, which is positive |
| `SpokeCalculator.UnroundedSpokeLength` | src/lib/spokeCalculator.ts:66-76 | the formula before rounding: θ = cross · 360 / spokes degrees, converted to radians with π, legs a = r - h cos θ and b = h sin θ, length sqrt(a² + b²); with a true square root the length is at least the absolute value of each leg |
| `SpokeCalculator.SqrtAtLeastLegs` | src/lib/spokeCalculator.ts:76 | with a true square root, sqrt(a² + b²) is at least the absolute value of a and of b |
| `SpokeCalculator.RadialSpokeLength` | src/lib/spokeCalculator.ts:66-76 | cross pattern 0 gives an unrounded length of exactly r - h |
| `SpokeCalculator.RadialIsShortest` | src/lib/spokeCalculator.ts:66-79 | for the same rim, spoke count and flange, the radial pattern gives a length no longer than any valid cross pattern, both before rounding and for the `spokeLength` returned by `CalculateSpokeLength` |
| `SpokeCalculator.LargerRimLongerSpoke` | src/lib/spokeCalculator.ts:66-79 | a larger rim, all else equal, gives a strictly longer unrounded spoke and a rounded spoke no shorter |
| `SpokeCalculator.RadialReferenceWheel` | src/lib/__tests__/spokeCalculator.test.ts:83-95 | 622mm rim, 32 spokes, 0-cross, 60mm flange is valid and gives exactly 281.0mm |
| `SpokeCalculator.InvalidBuildResult` | src/lib/__tests__/spokeCalculator.test.ts:120-133 | the all-invalid build gives length 0, isValid false and all five messages |
| `SpokeCalculator.CommonWheelSizes` | src/lib/spokeCalculator.ts:88-97 | six entries with distinct names, each diameter within the rim rule's (0, 1000] range |
| `SpokeCalculator.CommonWheelSizesListed` | src/lib/__tests__/spokeCalculator.test.ts:150-166 | entry 0 is named 700C with diameter 622, a 26" entry is listed, and the 29" entry (index 3) shares diameter 622 |
| `SpokeCalculator.CommonWheelSizesValid` | src/lib/spokeCalculator.ts:89-96 | every catalog diameter, with 32 spokes, 3-cross and a 60mm flange, passes the validator |

## Left out

- IEEE double arithmetic: the model computes with exact reals. So NaN and infinite inputs are not modelled. In the
  source every comparison with NaN is false, so a NaN diameter passes every rule. Rounding error in the formula is
  not modelled either.
- The numeric values of `Math.cos`, `Math.sin`, `Math.sqrt` and `Math.PI`: they are parameters. The test values
  for the 3-cross and 4-cross builds (about 292.4mm and over 290mm) depend on them and are not proved. Only the
  radial build's 281mm is proved, because it needs only cos 0 = 1, sin 0 = 0 and a true square root.
- Fractional spoke counts and cross patterns: the model keeps both as integers. In the source a cross pattern of
  2.5 would pass the validator.
- RadialIsShortest: the radial spoke is only proved no longer than a crossed one, not strictly shorter. Strictness
  would need cos θ < 1 for 0 < θ ≤ π, which `Primitives` does not assume.
- LargerRimLongerSpoke: after rounding, the spoke is only proved no shorter, not strictly longer. Two builds whose
  unrounded lengths differ by less than 0.1mm can round to the same length.
- The UI component, its stories and the build configuration are presentation only and are not part of this model.
