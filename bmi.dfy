/**
 * The BMI helper and the category step function. BMI is kept as a whole
 * number of tenths, which is what `Number(bmi.toFixed(1))` leaves.
 */
module Bmi {
  import opened Wrappers
  import opened JsValues
  import opened Errors

  /** The four bands and the fall-back, with the labels the source returns. */
  datatype Category = Underweight | Normal | Overweight | Obese | Unknown {
    function Label(): string {
      match this
      case Underweight => "Underweight (<18.5)"
      case Normal => "Normal (18.5-24.9)"
      case Overweight => "Overweight (25.0-29.9)"
      case Obese => "Obese (>=30)"
      case Unknown => "Unknown"
    }
  }

  /** `toFixed(1)` on a non-negative value, in tenths: the nearest tenth, a half rounded up. */
  function RoundToTenths(x: real): (t: int)
    requires x >= 0.0
    ensures t >= 0
    ensures t as real - 0.5 <= x * 10.0 < t as real + 0.5
  {
    (x * 10.0 + 0.5).Floor
  }

  /**
   * Weight in kilograms over the square of the height in metres: times that
   * square it gives back the weight.
   */
  function RawBmi(weightKg: real, heightCm: real): (b: real)
    requires weightKg > 0.0 && heightCm > 0.0
    ensures b > 0.0
    ensures b * ((heightCm / 100.0) * (heightCm / 100.0)) == weightKg
  {
    var heightM := heightCm / 100.0;
    weightKg / (heightM * heightM)
  }

  /**
   * With the ranges the constructor and the submit handler enforce (weight at
   * most 200 kg, height at least 30 cm) the BMI stays below 2223, far from
   * the largest double.
   */
  lemma RawBmiBounded(weightKg: real, heightCm: real)
    requires 0.0 < weightKg <= 200.0 && heightCm >= 30.0
    ensures RawBmi(weightKg, heightCm) < 2223.0
  {
    var m := heightCm / 100.0;
    var q := RawBmi(weightKg, heightCm);
    assert m * m >= 0.09 by {
      assert m >= 0.3;
      assert m * m >= 0.3 * m;
    }
    assert q * (m * m) == weightKg;
    assert q * 0.09 <= q * (m * m);
  }

  /** A finite number greater than zero. */
  predicate IsPositiveFinite(n: Num) {
    n.Finite? && n.x > 0.0
  }

  /**
   * `calculateBMI`: the weight, then the height, must be a finite positive
   * number; the result is the BMI rounded to one decimal, in tenths.
   */
  function CalculateBmi(weightKg: Num, heightCm: Num): (r: Result<int, ValidationError>)
    ensures r.Success? <==> IsPositiveFinite(weightKg) && IsPositiveFinite(heightCm)
    ensures !IsPositiveFinite(weightKg) ==> r == Failure(WeightNotPositive)
    ensures IsPositiveFinite(weightKg) && !IsPositiveFinite(heightCm) ==> r == Failure(HeightNotPositive)
    ensures r.Success? ==>
              var t := r.value as real;
              var b := RawBmi(weightKg.x, heightCm.x);
              r.value >= 0 && t / 10.0 - 0.05 <= b < t / 10.0 + 0.05
  {
    if !IsFinite(weightKg) || AtMost(weightKg, 0.0) then Failure(WeightNotPositive)
    else if !IsFinite(heightCm) || AtMost(heightCm, 0.0) then Failure(HeightNotPositive)
    else Success(RoundToTenths(RawBmi(weightKg.x, heightCm.x)))
  }

  /** A number of tenths as the JavaScript number it denotes. */
  function FromTenths(t: int): Num {
    Finite(t as real / 10.0)
  }

  /** `getBMICategory`: "Unknown" exactly for a non-finite input, otherwise one of the four bands. */
  function GetBmiCategory(bmi: Num): (c: Category)
    ensures c == Unknown <==> !IsFinite(bmi)
  {
    if !IsFinite(bmi) then Unknown
    else if Below(bmi, 18.5) then Underweight
    else if AtLeast(bmi, 18.5) && AtMost(bmi, 24.9) then Normal
    else if AtLeast(bmi, 25.0) && AtMost(bmi, 29.9) then Overweight
    else Obese
  }

  /**
   * On multiples of 0.1 the bands are contiguous: every finite rounded BMI
   * falls in exactly one band, and the bands meet at 18.5, 25.0 and 30.0.
   */
  lemma CategoryOfTenths(t: int)
    ensures GetBmiCategory(FromTenths(t)) == Underweight <==> t < 185
    ensures GetBmiCategory(FromTenths(t)) == Normal <==> 185 <= t <= 249
    ensures GetBmiCategory(FromTenths(t)) == Overweight <==> 250 <= t <= 299
    ensures GetBmiCategory(FromTenths(t)) == Obese <==> t >= 300
  {
    var x := t as real / 10.0;
    assert x < 18.5 <==> t < 185;
    assert x <= 24.9 <==> t <= 249;
    assert x >= 25.0 <==> t >= 250;
    assert x <= 29.9 <==> t <= 299;
  }

  /**
   * Off the grid of tenths the bands leave gaps, which fall to "Obese":
   * 24.95 is above the Normal band and below the Overweight one. The source
   * only ever passes rounded values, so the gap is never reached from
   * `calculateBMI`.
   */
  lemma OffGridFallsToObese()
    ensures GetBmiCategory(Finite(24.95)) == Obese
    ensures GetBmiCategory(Finite(29.95)) == Obese
  {
  }

  /** Whatever `calculateBMI` returns has a real category. */
  lemma CalculatedBmiHasCategory(weightKg: Num, heightCm: Num)
    requires CalculateBmi(weightKg, heightCm).Success?
    ensures GetBmiCategory(FromTenths(CalculateBmi(weightKg, heightCm).value)) != Unknown
  {
  }

  /** 74.5 kg at 170 cm is 25.8, overweight; 60 kg at 165 cm is 22.0, normal. */
  lemma BmiExamples()
    ensures CalculateBmi(Finite(74.5), Finite(170.0)) == Success(258)
    ensures GetBmiCategory(FromTenths(258)) == Overweight
    ensures CalculateBmi(Finite(60.0), Finite(165.0)) == Success(220)
    ensures GetBmiCategory(FromTenths(220)) == Normal
  {
    CategoryOfTenths(258);
    CategoryOfTenths(220);
  }
}
