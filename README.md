# Verified model of the LCG engine of the random-number page

The page (`script.js`) lets a user enter the parameters of a linear
congruential generator (multiplier a, increment c, modulus m, seed x0 and a
count n), checks them, produces n pseudo-random states
`X_k = (a * X_{k-1} + c) % m` with their normalised values `U_k = X_k / (m - 1)`,
and reports the generator's period. The modulus field is read-only and is
derived from n as the least power of two that is at least n, never below 16.

This project models that numeric engine in Dafny and proves its properties:

- `JsArith` — JavaScript's truncating remainder `%`.
- `Generator` — the recurrence (`Step`, `State`), the normalisation, and the
  generation loop of `generarLCG` as a method over a growing sequence of
  records.
- `Period` — `calcularPeriodo` as a method with a mutable set, proved
  against the orbit of the recurrence, with the pigeonhole bound.
- `Validation` — the guard chain of `generarLCG` and the per-field rules of
  `validarCampoEspecifico`.
- `Modulus` — the modulus derivation of `actualizarModuloDesdeN`.
- `Run` — `generarLCG` end to end: guards, the confirmation for large counts,
  generation and period.
- `Wrappers` — `Option` (a parsed field; `None` is `NaN`) and `Result`.

## Model

| member | source | states |
|---|---|---|
| `JsArith.Rem` | script.js:276 | the remainder lies strictly between -m and m, takes the sign of the dividend, and equals the mathematical remainder for a non-negative dividend |
| `JsArith.RemOdd` | script.js:309 | negating the dividend negates the remainder (truncating semantics of `%`) |
| `Generator.Step` | script.js:276 | one step from a non-negative state with a >= 0 and c >= 0 lands in [0, m) |
| `Generator.Normalized` | script.js:277 | U times (m - 1) gives back X, and U lies in [0, 1] whenever 0 <= X < m |
| `Generator.StateInRange` | script.js:272-276 | when the guards hold (a > 0, c >= 0, m > 1, 0 <= x0 < m) every state X_k lies in [0, m) |
| `Generator.State` | script.js:272-276 | X_k, the k-th state of the recurrence from the seed; from a non-negative seed with a >= 0 and c >= 0 every state after the first step lies in [0, m) |
| `Generator.FirstStateExample` | script.js:272-277 | a = 19, c = 33, m = 128, seed 37 gives X_1 = 96 and U_1 = 96/127 |
| `Generator.StateShift` | script.js:275-276 | running i + d steps from the seed equals running d steps from X_i |
| `Generator.Generate` | script.js:272-279 | exactly n records (none when n <= 0) with indices 1..n in order; the first holds (a*x0 + c) % m, each later one (a*X_prev + c) % m, i.e. X_{i+1}; U = X/(m-1); under the guards every X is in [0, m) and every U in [0, 1] |
| `Period.DistinctPrefixAtMostM` | script.js:305-311 | pigeonhole: under the guards at most m states in a row are pairwise distinct, so a repeat occurs by X_m |
| `Period.CycleRepeats` | script.js:307-309 | once X_i = X_j the sequence repeats with period j - i from i on |
| `Period.EveryStateVisited` | script.js:301-313 | when X_k repeats an earlier state, every state of the sequence is among X_0..X_{k-1} |
| `Period.PeriodLength` | script.js:301-314 | the result is the number of pairwise-distinct states X_0..X_{size-1} walked before the first repeat or the 2m cap; at least 1 for m > 0, at most 2m, 0 for m <= 0; under the guards it is at most m and the walk always stops on a repeat, never on the cap |
| `Validation.Validate` | script.js:222-253 | a field that is not a number is reported first; otherwise the parameters are accepted exactly when all five rules (a > 0, c >= 0, m > 1, 0 <= x0 < m, n >= 99) hold, and a rejection names the first broken rule in guard order |
| `Validation.AcceptedIsAdmissible` | script.js:229-253 | accepted parameters meet every precondition of the generation loop and n >= 99 |
| `Validation.FieldIsValid` | script.js:152-169 | unknown field ids pass; the seed rule fails when the modulus field is not a number |
| `Validation.FieldRulesMatchGuards` | script.js:156-168 | with all fields parsed, the guard chain accepts exactly when m > 1 and each per-field rule passes with the same m |
| `Modulus.CeilLog2` | script.js:74 | g is the least exponent with 2^g >= n |
| `Modulus.ModulusFor` | script.js:72-78 | a modulus is derived exactly when n is a positive number; otherwise the field is left alone |
| `Modulus.ModulusIsLeastPowerOfTwo` | script.js:74-78 | for n > 0 the derived m is a power of two, m >= n, m >= 16, and no smaller power of two is both >= n and >= 16 |
| `Modulus.DerivedModulusFitsCount` | script.js:72-78 | the derived modulus passes the m > 1 guard and is at least n |
| `Run.GenerateRun` | script.js:216-284 | rejects exactly the inputs the guard chain rejects, with its error; declines exactly when a valid n exceeds 1000 and the user does not confirm; otherwise returns n records of in-range states X_1..X_n with U = X/(m-1), and a period between 1 and m that is exactly the number of pairwise-distinct states walked before the first repeat, with every generated state among the states the period detector saw |

## Left out

- DOM access, input styling, the paste, keypress and input handlers, message banners and the loading button (script.js:1-62, 92-150, 171-198): user interface.
- Table rendering and chart drawing (`mostrarResultados`, `graficar`, `reiniciar`, script.js:316-550): rendering through a foreign charting library.
- The 500 ms `setTimeout`, the `try`/`catch` around generation and the `console.log` calls: timing and I/O; the modelled operations cannot throw.
- The `confirm` dialog is not modelled as a dialog: its answer is the `confirmed` parameter of `Run.GenerateRun`.
- `toFixed(4)`: U is modelled as the exact real X/(m - 1), not as a four-decimal string.
- `parseInt` of the text fields: each field is given already parsed, `None` standing for `NaN`.
- Floating point: `a * x + c` is exact integer arithmetic here, so the loss of precision of JavaScript numbers above 2^53 is not modelled.
- `Modulus.ModulusFor`: computes the modulus with an integer ceiling logarithm rather than `Math.log2` and `Math.pow` (script.js:74-75). The two agree for exact powers of two and for counts well below 2^48; for a count just above a large power of two (n = 2^49 + 1, say) the rounded `Math.log2` gives back the lower exponent, so the page's m is then below n, which the model does not reproduce.
- The label text that shows the exponent g next to the modulus (script.js:83-86) is not modelled; for n <= 8 it shows 2^g although m was raised to 16.
- The statistical tests and inverse-distribution approximations are not part of this model: `script.js` contains none of them.
