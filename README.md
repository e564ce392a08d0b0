# Body Fat Calculator (US Navy method) — Dafny model

This project models the calculation at the heart of the Body Fat Calculator
web page, `script.js`: the `calculate()` handler and the `categorizeBF()`
classifier. From the numbers typed into the form (sex, age, height, weight,
neck, waist and hip), `calculate()`:

1. returns early with a message when height, weight, neck or waist is empty
   or 0, and then when the sex is `"female"` and the hip is empty or 0;
2. picks the US Navy regression by sex. `"male"` uses `waist - neck`. Every
   other sex uses `waist + hip - neck`. It returns early with a message when
   that circumference is not positive;
3. computes body density with the regression, converts it with the Siri
   equation `495/density - 450`, floors the result at 0 (with no ceiling),
   and derives BMI `weight / (height/100)^2` and lean mass
   `weight * (1 - pct/100)`;
4. classifies the percentage with a per-sex table of half-open intervals.

Two modules, one per part of the source:

- `Categories` (`categories.dfy`): `Classify` mirrors the `categorizeBF`
  if-chain. It is proved equal to an independent lookup, the number of
  boundaries of the sex's table the percentage has reached (`Thresholds`,
  `Reached`). From that follow the half-open interval of each category,
  monotonicity in the percentage, and that the female table is never harsher
  than the male one.
- `Calculator` (`calculator.dfy`): `Validate`, `CheckBranch`, `Density`,
  `Siri`, `BodyFatPercent`, `Bmi`, `LeanMass` and their composition `Calculate`,
  which returns a `Result` carrying either the four displayed values or one of
  the four errors.

Modelling decisions:

- Numbers are `real`. A field counts as missing exactly when it is 0, as with
  JavaScript's `!x` on a number. No positivity check is added, because the
  source has none: negative measurements pass validation.
- The sex stays a string, as in the source. The hip check compares with
  `"female"` and the formula branch with `"male"`, so any third value skips
  the hip check and still takes the female formula.
- `Math.log10` is a parameter `log10: real -> real`. The regression constants
  appear exactly as written, but nothing is assumed about the logarithm's
  values.
- Errors are values (`MissingField`, `MissingHip`, `WaistNotAboveNeck`,
  `CombinedNotAboveNeck`), one per message that `calculate()` shows before
  returning. No partial report exists on any error path.
  `WaistNotAboveNeck` and `CombinedNotAboveNeck` are this model's names for
  the two errors thrown at script.js:54 and script.js:59.

## Model

| member | source | states |
|---|---|---|
| Categories.Classify | script.js:92-107 | the `categorizeBF` if-chain; its contract pins the two open-ended categories: EssentialFat exactly below the first boundary of the sex's table, Obese exactly from the last one on (the middle categories are pinned by ClassifyMatchesTable and ClassifyInterval) |
| Categories.Thresholds | script.js:95-106 | each sex's table has four strictly increasing boundaries (male 6/14/18/25, every other sex 14/21/25/32) |
| Categories.ClassifyMatchesTable | script.js:92-107 | the severity of the category equals the number of boundaries of the sex's table that the percentage has reached |
| Categories.ClassifyInterval | script.js:95-106 | `Classify(pct, sex) == c` holds exactly when pct is at or above c's lower boundary (none for the leanest category) and strictly below its upper one (none for Obese), in both directions |
| Categories.ClassifyMonotone | script.js:95-106 | for a fixed sex, a higher percentage never gives a leaner category |
| Categories.ClassifyFemaleNoHarsher | script.js:95-106 | at the same percentage the non-male table never gives a more severe category than the male table |
| Calculator.Validate | script.js:40-47 | succeeds, returning the record unchanged, exactly when height, weight, neck and waist are non-zero and, for sex "female", the hip is too; otherwise the error is MissingField or MissingHip |
| Calculator.ValidateCoreFirst | script.js:40-43 | any zero among height, weight, neck and waist gives MissingField, whatever the sex and the hip |
| Calculator.ValidateHipOnlyForFemale | script.js:44-47 | with the core fields present, MissingHip occurs exactly for sex "female" with hip 0, and every other sex passes even with hip 0 |
| Calculator.ValidateAcceptsNegative | script.js:40-47 | negative measurements pass validation |
| Calculator.CheckBranch | script.js:52-62 | succeeds exactly when waist exceeds neck (for "male") or waist plus hip exceeds neck (otherwise); on success the value is that positive difference, on failure the error is the branch's own |
| Calculator.Density | script.js:55-61 | no contract: the two US Navy regressions with the source's constants, `log10` being a parameter, so nothing is proved about the density's value |
| Calculator.Siri | script.js:69 | the Siri value before the floor; for a positive density it is non-negative exactly when the density is at most 1.1, and a negative density gives a value below -450 |
| Calculator.BodyFatPercent | script.js:69-70 | the percentage is non-negative, at least the Siri value, and equal to either 0 or the Siri value, which makes it the maximum of the two |
| Calculator.BodyFatPercentKeepsNonNegative | script.js:69-70 | a non-negative Siri value is reported unchanged |
| Calculator.BodyFatPercentAntitone | script.js:69-70 | for positive densities, a denser body never gets a higher percentage |
| Calculator.BodyFatPercentUnbounded | script.js:69-70 | there is no ceiling: every bound is exceeded by the percentage of some density |
| Calculator.Bmi | script.js:73-74 | BMI times the square of the height in metres gives back the weight, and BMI has the sign of the weight (positive for positive weight) |
| Calculator.LeanMass | script.js:77 | lean mass plus fat mass (weight times pct/100) is the weight |
| Calculator.LeanMassBounds | script.js:70-77 | for positive weight and non-negative percentage, lean mass is at most the weight, equals it exactly when the percentage is 0, and is negative once the percentage exceeds 100 |
| Calculator.Calculate | script.js:31-80 | a report is produced exactly when validation and the branch check both pass; otherwise the validation error takes precedence over the branch error; a report carries the floored Siri percentage of the branch's density, its category for the record's sex, the BMI and the lean mass, with the percentage non-negative and the BMI positive for positive weight |
| Calculator.CalculateReportsCoreFieldFirst | script.js:40-47 | a female record missing both a core field and the hip reports MissingField |
| Calculator.CalculateMaleBoundary | script.js:52-54 | a valid male record fails with WaistNotAboveNeck exactly when waist is at most neck, so equal waist and neck is an error |
| Calculator.CalculateFemaleBoundary | script.js:57-59 | a record of any sex other than "male" that passes validation (a third sex even with hip 0) fails with CombinedNotAboveNeck exactly when waist plus hip is at most neck |
| Calculator.CalculateIgnoresAge | script.js:80-92 | changing the age changes nothing in the outcome |
| Calculator.CalculateOtherSexUsesFemaleFormula | script.js:44-61 | a sex that is neither "male" nor "female" with hip 0 passes validation and uses the female regression on waist minus neck |

## Left out

- Reading the form (`getSex`, the `getElementById(...).value` reads), writing the results (`textContent`, `results.style.display`), the hip-row show/hide and the reset button: these are page plumbing; the model takes a `Measurement` value and returns a `Result`.
- `showError` and its `alert`: each call site is an `Err` value instead.
- Copy to clipboard and export to a text file: asynchronous browser I/O and text layout only.
- The numeric values of `Math.log10`: it is a parameter of `Calculate`, so no property depends on the actual logarithm or on rounding of the regression constants.
- `toFixed(1)` display rounding and the display strings of the categories: each string is a `Category` constructor, and nothing is said about text.
- Arithmetic is exact: every comparison and derived value is computed over real numbers, not with IEEE double rounding. For example, waist 9007199254740992, hip 1 and neck 9007199254740992 give `waist + hip - neck` = 0 in doubles, so the source reports the error at script.js:59, while `CheckBranch` returns `Ok(1.0)`.
- NaN: a negative height makes `log10` NaN in the source, `Math.max(0, NaN)` is NaN and `categorizeBF` then returns "—". Real numbers have no NaN, so that sentinel category does not exist in the model.
- Calculator.Calculate: requires the branch's density to be non-zero whenever both checks pass, because `495/0` has no real value; the source would show an infinite percentage and the Obese category there, and a lean mass of minus infinity for positive weight or plus infinity for negative weight.
- Repeated calls giving identical results is not stated separately: every member is a mathematical function.
