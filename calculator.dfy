/** The US Navy body-fat calculation done by calculate() in script.js:
    validation of the form's numbers, the per-sex formula branch and its
    precondition, and the derived values (body-fat percentage, BMI, lean mass
    and category). Reading the form and writing the page are not modelled:
    the measurements arrive as a value and the report is returned. */
module Calculator {
  import opened Categories

  /** The numbers read from the form. `sex` is the value of the checked radio
      button; a field left empty reads as 0. */
  datatype Measurement = Measurement(
    sex: string,
    age: real,
    height: real,
    weight: real,
    neck: real,
    waist: real,
    hip: real)

  /** The messages calculate() shows before returning early. */
  datatype Error =
    | MissingField          // "Please fill in height, weight, neck and waist."
    | MissingHip            // "Please provide hip circumference for females."
    | WaistNotAboveNeck     // "Waist must be larger than neck."
    | CombinedNotAboveNeck  // "Waist + hip must be larger than neck."

  datatype Result<T> = Ok(value: T) | Err(error: Error)

  /** The four values calculate() displays. */
  datatype Report = Report(bodyFat: real, category: Category, bmi: real, leanMass: real)

  /** JavaScript's `!x` on a number read from the form: only 0 is falsy here
      (NaN has no counterpart over real). */
  predicate Missing(x: real) {
    x == 0.0
  }

  predicate CoreMissing(m: Measurement) {
    Missing(m.height) || Missing(m.weight) || Missing(m.neck) || Missing(m.waist)
  }

  /** The two early returns before the formula: the core fields first, then
      the hip for sex "female". */
  function Validate(m: Measurement): (r: Result<Measurement>)
    ensures r.Ok? ==> r.value == m
    ensures r.Ok? <==>
              m.height != 0.0 && m.weight != 0.0 && m.neck != 0.0 && m.waist != 0.0
              && (m.sex == "female" ==> m.hip != 0.0)
    ensures r.Err? ==> r.error == MissingField || r.error == MissingHip
  {
    if CoreMissing(m) then Err(MissingField)
    else if m.sex == "female" && Missing(m.hip) then Err(MissingHip)
    else Ok(m)
  }

  /** A missing core field is reported as such whatever the sex and the hip:
      that check runs first. */
  lemma ValidateCoreFirst(m: Measurement)
    requires CoreMissing(m)
    ensures Validate(m) == Err(MissingField)
  {
  }

  /** The hip is required of sex "female" only. */
  lemma ValidateHipOnlyForFemale(m: Measurement)
    requires !CoreMissing(m)
    ensures Validate(m) == Err(MissingHip) <==> m.sex == "female" && m.hip == 0.0
    ensures m.sex != "female" ==> Validate(m) == Ok(m)
  {
  }

  /** Validation checks for zero only: negative measurements pass it. */
  lemma ValidateAcceptsNegative(m: Measurement)
    requires m.height < 0.0 && m.weight < 0.0 && m.neck < 0.0 && m.waist < 0.0 && m.hip < 0.0
    ensures Validate(m) == Ok(m)
  {
  }

  /** The argument of the circumference logarithm: waist - neck for "male",
      waist + hip - neck for any other sex, rejected when not positive. */
  function CheckBranch(m: Measurement): (r: Result<real>)
    ensures r.Ok? <==> if m.sex == "male" then m.waist > m.neck else m.waist + m.hip > m.neck
    ensures r.Ok? ==> r.value > 0.0
    ensures r.Ok? && m.sex == "male" ==> r.value + m.neck == m.waist
    ensures r.Ok? && m.sex != "male" ==> r.value + m.neck == m.waist + m.hip
    ensures r.Err? ==> r.error == if m.sex == "male" then WaistNotAboveNeck else CombinedNotAboveNeck
  {
    if m.sex == "male" then
      var v := m.waist - m.neck;
      if v <= 0.0 then Err(WaistNotAboveNeck) else Ok(v)
    else
      var v := m.waist + m.hip - m.neck;
      if v <= 0.0 then Err(CombinedNotAboveNeck) else Ok(v)
  }

  /** The US Navy regression for body density, given the positive
      circumference `v` and a base-10 logarithm. */
  function Density(sex: string, v: real, height: real, log10: real -> real): real {
    if sex == "male" then 1.0324 - 0.19077 * log10(v) + 0.15456 * log10(height)
    else 1.29579 - 0.35004 * log10(v) + 0.22100 * log10(height)
  }

  /** The Siri equation: body-fat percentage from density, before the floor.
      For a positive density it is non-negative exactly up to 1.1, and a
      negative density gives a value below -450. */
  function Siri(density: real): (raw: real)
    requires density != 0.0
    ensures density > 0.0 ==> (raw >= 0.0 <==> density <= 1.1)
    ensures density < 0.0 ==> raw < -450.0
  {
    var share := 495.0 / density;
    assert share * density == 495.0;
    assert density > 0.0 ==> (share >= 450.0 <==> density <= 1.1) by {
      if density > 0.0 {
        assert share > 0.0;
        if density <= 1.1 {
          assert share * density <= share * 1.1;
        } else {
          assert share * density > share * 1.1;
        }
      }
    }
    share - 450.0
  }

  /** The reported percentage: the Siri value floored at 0 and never capped. */
  function BodyFatPercent(density: real): (pct: real)
    requires density != 0.0
    ensures pct >= 0.0 && pct >= Siri(density)
    ensures pct == 0.0 || pct == Siri(density)
  {
    if Siri(density) < 0.0 then 0.0 else Siri(density)
  }

  /** The floor leaves every non-negative Siri value as it is. */
  lemma BodyFatPercentKeepsNonNegative(density: real)
    requires density != 0.0 && Siri(density) >= 0.0
    ensures BodyFatPercent(density) == Siri(density)
  {
  }

  /** Density and body fat move in opposite directions: a denser body never
      gets a higher percentage. */
  lemma BodyFatPercentAntitone(d1: real, d2: real)
    requires 0.0 < d1 <= d2
    ensures BodyFatPercent(d2) <= BodyFatPercent(d1)
  {
    assert 495.0 / d2 <= 495.0 / d1 by {
      assert 495.0 / d2 * d2 == 495.0 == 495.0 / d1 * d1;
      assert 495.0 / d2 * d2 <= 495.0 / d1 * d2;
    }
  }

  /** There is no ceiling: every bound is exceeded by some density. */
  lemma BodyFatPercentUnbounded(bound: real)
    ensures exists d: real :: d != 0.0 && BodyFatPercent(d) > bound
  {
    var t := (if bound < 0.0 then 0.0 else bound) + 451.0;
    var d := 495.0 / t;
    assert d * t == 495.0;
    assert 495.0 / d == t;
    assert BodyFatPercent(d) > bound;
  }

  /** Body-mass index: weight in kg over the square of the height in metres. */
  function Bmi(weight: real, height: real): (bmi: real)
    requires height != 0.0
    ensures bmi * ((height / 100.0) * (height / 100.0)) == weight
    ensures weight > 0.0 ==> bmi > 0.0
    ensures weight < 0.0 ==> bmi < 0.0
  {
    var metres := height / 100.0;
    weight / (metres * metres)
  }

  /** Lean mass: the weight left once the fat share is removed. */
  function LeanMass(weight: real, pct: real): (lean: real)
    ensures lean + weight * pct / 100.0 == weight
  {
    weight * (1.0 - pct / 100.0)
  }

  /** With a non-negative percentage, lean mass never exceeds a positive
      weight, equals it exactly when the percentage is 0, and goes negative
      once the uncapped percentage passes 100. */
  lemma LeanMassBounds(weight: real, pct: real)
    requires weight > 0.0 && pct >= 0.0
    ensures LeanMass(weight, pct) <= weight
    ensures LeanMass(weight, pct) == weight <==> pct == 0.0
    ensures pct > 100.0 ==> LeanMass(weight, pct) < 0.0
  {
    if pct > 100.0 {
      var excess := pct - 100.0;
      assert weight * pct == weight * 100.0 + weight * excess;
      assert weight * excess > 0.0;
    }
  }

  /** The density that the formula branch of `m` yields, once both checks pass. */
  function DensityOf(m: Measurement, log10: real -> real): real
    requires CheckBranch(m).Ok?
  {
    Density(m.sex, CheckBranch(m).value, m.height, log10)
  }

  /** Over real numbers 495/0 has no value; the source then displays an
      infinite percentage. The model requires a non-zero density wherever the
      formula is reached. */
  predicate DensityDefined(m: Measurement, log10: real -> real) {
    Validate(m).Ok? && CheckBranch(m).Ok? ==> DensityOf(m, log10) != 0.0
  }

  /** calculate(): validation, then the formula precondition, then the four
      derived values. */
  function Calculate(m: Measurement, log10: real -> real): (r: Result<Report>)
    requires DensityDefined(m, log10)
    ensures r.Ok? <==> Validate(m).Ok? && CheckBranch(m).Ok?
    ensures Validate(m).Err? ==> r == Err(Validate(m).error)
    ensures Validate(m).Ok? && CheckBranch(m).Err? ==> r == Err(CheckBranch(m).error)
    ensures r.Ok? ==>
              var rep := r.value;
              && rep.bodyFat == BodyFatPercent(DensityOf(m, log10))
              && rep.bodyFat >= 0.0
              && rep.category == Classify(rep.bodyFat, m.sex)
              && rep.bmi == Bmi(m.weight, m.height)
              && rep.leanMass == LeanMass(m.weight, rep.bodyFat)
              && (m.weight > 0.0 ==> rep.bmi > 0.0)
  {
    match Validate(m)
    case Err(e) => Err(e)
    case Ok(_) =>
      match CheckBranch(m)
      case Err(e) => Err(e)
      case Ok(v) =>
        var pct := BodyFatPercent(DensityOf(m, log10));
        var bmi := Bmi(m.weight, m.height);
        var lean := LeanMass(m.weight, pct);
        Ok(Report(pct, Classify(pct, m.sex), bmi, lean))
  }

  /** A female record missing both a core field and the hip reports the core
      field, and no report is produced. */
  lemma CalculateReportsCoreFieldFirst(m: Measurement, log10: real -> real)
    requires m.sex == "female" && m.hip == 0.0 && CoreMissing(m)
    ensures Calculate(m, log10) == Err(MissingField)
  {
  }

  /** The male branch fails exactly when the waist does not exceed the neck,
      so equal waist and neck is an error. */
  lemma CalculateMaleBoundary(m: Measurement, log10: real -> real)
    requires m.sex == "male" && !CoreMissing(m) && DensityDefined(m, log10)
    ensures Calculate(m, log10) == Err(WaistNotAboveNeck) <==> m.waist <= m.neck
  {
  }

  /** The female branch fails exactly when waist plus hip does not exceed the
      neck; any sex other than "male" takes this branch. */
  lemma CalculateFemaleBoundary(m: Measurement, log10: real -> real)
    requires m.sex != "male" && Validate(m).Ok? && DensityDefined(m, log10)
    ensures Calculate(m, log10) == Err(CombinedNotAboveNeck) <==> m.waist + m.hip <= m.neck
  {
  }

  /** The age is read but plays no part: changing it changes nothing. */
  lemma CalculateIgnoresAge(m: Measurement, age: real, log10: real -> real)
    requires DensityDefined(m, log10)
    ensures DensityDefined(m.(age := age), log10)
    ensures Calculate(m.(age := age), log10) == Calculate(m, log10)
  {
  }

  /** A record whose sex is neither "male" nor "female" skips the hip check
      and still takes the female formula, with the hip it has (possibly 0). */
  lemma CalculateOtherSexUsesFemaleFormula(m: Measurement, log10: real -> real)
    requires m.sex != "male" && m.sex != "female" && !CoreMissing(m) && m.hip == 0.0
    requires m.waist > m.neck && DensityDefined(m, log10)
    ensures Calculate(m, log10).Ok?
    ensures DensityOf(m, log10)
              == 1.29579 - 0.35004 * log10(m.waist - m.neck) + 0.22100 * log10(m.height)
  {
  }
}
