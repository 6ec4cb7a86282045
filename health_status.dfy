/**
 * The status badges of the health-tracking page: each measurement falls
 * into one band of a fixed list, scanned from the lowest band up, and the
 * band gives the label and colour shown. Measurements are reals.
 */
module HealthStatus {

  datatype Status = Status(text: string, color: string)

  const WeightBands: seq<Status> := [
    Status("Thiếu cân", "#FFD700"), Status("Bình thường", "#4CAF50"),
    Status("Thừa cân", "#FFA500"), Status("Béo phì", "#FF0000")]

  const PressureBands: seq<Status> := [
    Status("Thấp", "#FFD700"), Status("Lý tưởng", "#4CAF50"), Status("Bình thường", "#4CAF50"),
    Status("Cao bình thường", "#FFA500"), Status("Tăng nhẹ", "#FFA500"),
    Status("Tăng vừa", "#FF0000"), Status("Tăng nặng", "#8B0000")]

  const HeartRateBands: seq<Status> := [
    Status("Thấp", "#FFD700"), Status("Bình thường", "#4CAF50"), Status("Cao", "#FF0000")]

  const SugarBands: seq<Status> := [
    Status("Thấp", "#FFD700"), Status("Bình thường", "#4CAF50"),
    Status("Tiền tiểu đường", "#FFA500"), Status("Tiểu đường", "#FF0000")]

  const TemperatureBands: seq<Status> := [
    Status("Hạ thân nhiệt", "#0000FF"), Status("Thấp", "#87CEEB"), Status("Bình thường", "#4CAF50"),
    Status("Sốt nhẹ", "#FFA500"), Status("Sốt", "#FF0000"), Status("Sốt cao", "#8B0000")]

  const SleepBands: seq<Status> := [
    Status("Thiếu ngủ", "#FF0000"), Status("Hơi thiếu", "#FFA500"),
    Status("Đủ giấc", "#4CAF50"), Status("Thừa giấc", "#FFD700")]

  /** The body-mass index for a weight in kg and a height in cm; DivByZero
      where the source divides by a zero height. */
  function Bmi(weight: real, height: real): (r: Quotient)
    ensures height != 0.0 <==> r.Value?
    ensures r.Value? ==> r.bmi * (height / 100.0) * (height / 100.0) == weight
  {
    if height == 0.0 then DivByZero
    else
      var h := height / 100.0;
      Value(weight / (h * h))
  }

  /** A quotient, or DivByZero where JavaScript gives Infinity, -Infinity or NaN. */
  datatype Quotient = DivByZero | Value(bmi: real)

  /** The BMI band: below 18.5, below 25, below 30, and the rest. */
  function BmiBand(bmi: real): (b: nat)
    ensures b < |WeightBands|
    ensures b == 0 <==> bmi < 18.5
    ensures b == 1 <==> 18.5 <= bmi < 25.0
    ensures b == 2 <==> 25.0 <= bmi < 30.0
    ensures b == 3 <==> bmi >= 30.0
  {
    if bmi < 18.5 then 0 else if bmi < 25.0 then 1 else if bmi < 30.0 then 2 else 3
  }

  /** getWeightStatus. A zero height makes the quotient Infinity (obese),
      -Infinity for a negative weight (underweight) or NaN for a zero weight,
      which fails every comparison and so also lands in the last band. */
  function WeightBand(weight: real, height: real): (b: nat)
    ensures b < |WeightBands|
    ensures height != 0.0 ==> b == BmiBand(Bmi(weight, height).bmi)
    ensures height == 0.0 ==> b == (if weight < 0.0 then 0 else 3)
  {
    match Bmi(weight, height)
    case Value(x) => BmiBand(x)
    case DivByZero => if weight < 0.0 then 0 else 3
  }

  /** The badge for a weight and height: its band's label and colour. */
  function WeightStatus(weight: real, height: real): (s: Status)
    ensures height != 0.0 ==>
      (s == Status("Bình thường", "#4CAF50") <==> 18.5 <= Bmi(weight, height).bmi < 25.0)
    ensures height == 0.0 ==>
      s == (if weight < 0.0 then Status("Thiếu cân", "#FFD700") else Status("Béo phì", "#FF0000"))
  {
    WeightBands[WeightBand(weight, height)]
  }

  /** getBloodPressureStatus on the two numbers of an "S/D" reading: low when
      either is low, otherwise the first band whose limits both stay below. */
  function PressureBand(systolic: real, diastolic: real): (b: nat)
    ensures b < |PressureBands|
    ensures b == 0 <==> systolic < 90.0 || diastolic < 60.0
    ensures b == 1 <==> !(systolic < 90.0 || diastolic < 60.0) && systolic < 120.0 && diastolic < 80.0
    ensures b == 2 <==> !(systolic < 90.0 || diastolic < 60.0) && !(systolic < 120.0 && diastolic < 80.0)
                        && systolic < 130.0 && diastolic < 85.0
    ensures b == 3 <==> !(systolic < 90.0 || diastolic < 60.0) && !(systolic < 130.0 && diastolic < 85.0)
                        && systolic < 140.0 && diastolic < 90.0
    ensures b == 4 <==> !(systolic < 90.0 || diastolic < 60.0) && !(systolic < 140.0 && diastolic < 90.0)
                        && systolic < 160.0 && diastolic < 100.0
    ensures b == 5 <==> !(systolic < 90.0 || diastolic < 60.0) && !(systolic < 160.0 && diastolic < 100.0)
                        && systolic < 180.0 && diastolic < 110.0
    ensures b == 6 <==> !(systolic < 90.0 || diastolic < 60.0) && (systolic >= 180.0 || diastolic >= 110.0)
  {
    if systolic < 90.0 || diastolic < 60.0 then 0
    else if systolic < 120.0 && diastolic < 80.0 then 1
    else if systolic < 130.0 && diastolic < 85.0 then 2
    else if systolic < 140.0 && diastolic < 90.0 then 3
    else if systolic < 160.0 && diastolic < 100.0 then 4
    else if systolic < 180.0 && diastolic < 110.0 then 5
    else 6
  }

  /** getHeartRateStatus; the age argument is accepted and never used. */
  function HeartRateBand(heartRate: real, age: real): (b: nat)
    ensures b < |HeartRateBands|
    ensures b == 0 <==> heartRate < 60.0
    ensures b == 1 <==> 60.0 <= heartRate <= 100.0
  {
    if heartRate < 60.0 then 0 else if heartRate <= 100.0 then 1 else 2
  }

  /** getBloodSugarStatus, fasting (the default) or two hours after a meal. */
  function SugarBand(bloodSugar: real, isPostMeal: bool): (b: nat)
    ensures b < |SugarBands|
    ensures b == 0 <==> bloodSugar < 3.9
    ensures b == 1 <==> 3.9 <= bloodSugar <= (if isPostMeal then 7.8 else 5.6)
    ensures b == 3 <==> bloodSugar > (if isPostMeal then 11.0 else 7.0)
  {
    if !isPostMeal then
      if bloodSugar < 3.9 then 0 else if bloodSugar <= 5.6 then 1 else if bloodSugar <= 7.0 then 2 else 3
    else
      if bloodSugar < 3.9 then 0 else if bloodSugar <= 7.8 then 1 else if bloodSugar <= 11.0 then 2 else 3
  }

  /** getTemperatureStatus. */
  function TemperatureBand(temperature: real): (b: nat)
    ensures b < |TemperatureBands|
    ensures b == 0 <==> temperature < 35.0
    ensures b == 1 <==> 35.0 <= temperature < 36.5
    ensures b == 2 <==> 36.5 <= temperature <= 37.5
    ensures b == 3 <==> 37.5 < temperature <= 38.5
    ensures b == 4 <==> 38.5 < temperature <= 40.0
    ensures b == 5 <==> temperature > 40.0
  {
    if temperature < 35.0 then 0
    else if temperature < 36.5 then 1
    else if temperature <= 37.5 then 2
    else if temperature <= 38.5 then 3
    else if temperature <= 40.0 then 4
    else 5
  }

  /** getSleepStatus, for a duration in hours. */
  function SleepBand(duration: real): (b: nat)
    ensures b < |SleepBands|
    ensures b == 0 <==> duration < 6.0
    ensures b == 1 <==> 6.0 <= duration < 7.0
    ensures b == 2 <==> 7.0 <= duration <= 9.0
    ensures b == 3 <==> duration > 9.0
  {
    if duration < 6.0 then 0 else if duration < 7.0 then 1 else if duration <= 9.0 then 2 else 3
  }

  /** Every classifier is monotone: a larger reading never gets a lower band. */
  lemma BandsMonotone(x: real, y: real, age: real, isPostMeal: bool)
    requires x <= y
    ensures BmiBand(x) <= BmiBand(y)
    ensures HeartRateBand(x, age) <= HeartRateBand(y, age)
    ensures SugarBand(x, isPostMeal) <= SugarBand(y, isPostMeal)
    ensures TemperatureBand(x) <= TemperatureBand(y)
    ensures SleepBand(x) <= SleepBand(y)
  {
  }

  /** Blood pressure is monotone in both numbers at once. */
  lemma PressureMonotone(s1: real, d1: real, s2: real, d2: real)
    requires s1 <= s2 && d1 <= d2
    ensures PressureBand(s1, d1) <= PressureBand(s2, d2)
  {
  }

  /** The heart-rate band does not depend on the age. */
  lemma HeartRateIgnoresAge(heartRate: real, age1: real, age2: real)
    ensures HeartRateBand(heartRate, age1) == HeartRateBand(heartRate, age2)
  {
  }

  /** After a meal the tolerated range is wider: the band is never higher. */
  lemma PostMealIsLenient(bloodSugar: real)
    ensures SugarBand(bloodSugar, true) <= SugarBand(bloodSugar, false)
  {
  }
}
