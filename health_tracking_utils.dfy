/**
 * Helpers of the health-tracking page: the form check, the conversion of the
 * form into the record sent to the server, the age used by the heart-rate
 * badge, and the time filter of the history list. parseFloat / parseInt are
 * parameters (None stands for NaN); calendar dates and instants are numbers.
 */
module HealthTrackingUtils {
  import opened Wrappers
  import opened Seqs

  datatype FormData = FormData(
    weight: string, height: string, bloodPressure: string, heartRate: string,
    bloodSugar: string, temperature: string, sleepDuration: string,
    caloriesBurned: string, exerciseData: string)

  /** The keys of a health record as sent to the server. */
  datatype Key = Weight | Height | BloodPressure | HeartRate | BloodSugar | Temperature
               | SleepDuration | CaloriesBurned | ExerciseData

  /** The key's name in the request body. */
  function Name(k: Key): string {
    match k
    case Weight => "weight"
    case Height => "height"
    case BloodPressure => "blood_pressure"
    case HeartRate => "heart_rate"
    case BloodSugar => "blood_sugar"
    case Temperature => "temperature"
    case SleepDuration => "sleep_duration"
    case CaloriesBurned => "calories_burned"
    case ExerciseData => "exercise_data"
  }

  const NoMetricError := "Vui lòng nhập ít nhất một thông số sức khỏe"

  /** The form field behind a key. */
  function FieldOf(f: FormData, k: Key): string {
    match k
    case Weight => f.weight
    case Height => f.height
    case BloodPressure => f.bloodPressure
    case HeartRate => f.heartRate
    case BloodSugar => f.bloodSugar
    case Temperature => f.temperature
    case SleepDuration => f.sleepDuration
    case CaloriesBurned => f.caloriesBurned
    case ExerciseData => f.exerciseData
  }

  /** validateHealthForm: the form is refused exactly when all eight
      measurements are empty; the exercise notes alone do not make it
      acceptable, and an accepted form gets ''. */
  function ValidateHealthForm(f: FormData): (r: string)
    ensures r == NoMetricError <==> forall k: Key :: k != ExerciseData ==> FieldOf(f, k) == ""
    ensures r != NoMetricError ==> r == ""
  {
    if f.weight == "" && f.height == "" && f.bloodPressure == "" && f.heartRate == "" &&
       f.bloodSugar == "" && f.temperature == "" && f.sleepDuration == "" && f.caloriesBurned == ""
    then NoMetricError
    else
      assert exists k: Key :: k != ExerciseData && FieldOf(f, k) != "" by {
        if f.weight != "" { assert FieldOf(f, Weight) != ""; }
        else if f.height != "" { assert FieldOf(f, Height) != ""; }
        else if f.bloodPressure != "" { assert FieldOf(f, BloodPressure) != ""; }
        else if f.heartRate != "" { assert FieldOf(f, HeartRate) != ""; }
        else if f.bloodSugar != "" { assert FieldOf(f, BloodSugar) != ""; }
        else if f.temperature != "" { assert FieldOf(f, Temperature) != ""; }
        else if f.sleepDuration != "" { assert FieldOf(f, SleepDuration) != ""; }
        else { assert FieldOf(f, CaloriesBurned) != ""; }
      }
      ""
  }

  /** A value of the record sent to the server. */
  datatype Entry = Number(n: Option<real>) | Text(s: string)

  /** How each key's text is converted: floats, integers, or verbatim text. */
  function Convert(k: Key, text: string, parseFloat: string -> Option<real>, parseInt: string -> Option<real>): Entry {
    match k
    case Weight | Height | BloodSugar | Temperature => Number(parseFloat(text))
    case HeartRate | SleepDuration | CaloriesBurned => Number(parseInt(text))
    case BloodPressure | ExerciseData => Text(text)
  }

  /** The record for a form: one entry per non-empty field. */
  function Prepared(f: FormData, parseFloat: string -> Option<real>, parseInt: string -> Option<real>): map<Key, Entry> {
    map k: Key | FieldOf(f, k) != "" :: Convert(k, FieldOf(f, k), parseFloat, parseInt)
  }

  /** The position of each assignment in prepareHealthData. */
  function Index(k: Key): nat {
    match k
    case Weight => 0
    case Height => 1
    case BloodPressure => 2
    case HeartRate => 3
    case BloodSugar => 4
    case Temperature => 5
    case SleepDuration => 6
    case CaloriesBurned => 7
    case ExerciseData => 8
  }

  /** The record after the first n assignments. */
  ghost function PreparedUpTo(f: FormData, n: nat, parseFloat: string -> Option<real>, parseInt: string -> Option<real>): map<Key, Entry> {
    map k: Key | Index(k) < n && FieldOf(f, k) != "" :: Convert(k, FieldOf(f, k), parseFloat, parseInt)
  }

  /** One conditional assignment of prepareHealthData. */
  function Assign(m: map<Key, Entry>, f: FormData, k: Key, parseFloat: string -> Option<real>, parseInt: string -> Option<real>): map<Key, Entry> {
    if FieldOf(f, k) != "" then m[k := Convert(k, FieldOf(f, k), parseFloat, parseInt)] else m
  }

  lemma PreparedStep(f: FormData, k: Key, parseFloat: string -> Option<real>, parseInt: string -> Option<real>)
    ensures PreparedUpTo(f, Index(k) + 1, parseFloat, parseInt) ==
      Assign(PreparedUpTo(f, Index(k), parseFloat, parseInt), f, k, parseFloat, parseInt)
  {
    assert forall j: Key :: Index(j) == Index(k) ==> j == k;
  }

  lemma PreparedFirstThree(f: FormData, pf: string -> Option<real>, pi: string -> Option<real>)
    ensures PreparedUpTo(f, 3, pf, pi) ==
      Assign(Assign(Assign(map[], f, Weight, pf, pi), f, Height, pf, pi), f, BloodPressure, pf, pi)
  {
    assert PreparedUpTo(f, 0, pf, pi) == map[];
    PreparedStep(f, Weight, pf, pi);
    PreparedStep(f, Height, pf, pi);
    PreparedStep(f, BloodPressure, pf, pi);
  }

  lemma PreparedNextThree(f: FormData, pf: string -> Option<real>, pi: string -> Option<real>)
    ensures PreparedUpTo(f, 6, pf, pi) ==
      Assign(Assign(Assign(PreparedUpTo(f, 3, pf, pi), f, HeartRate, pf, pi), f, BloodSugar, pf, pi), f, Temperature, pf, pi)
  {
    PreparedStep(f, HeartRate, pf, pi);
    PreparedStep(f, BloodSugar, pf, pi);
    PreparedStep(f, Temperature, pf, pi);
  }

  lemma PreparedLastThree(f: FormData, pf: string -> Option<real>, pi: string -> Option<real>)
    ensures PreparedUpTo(f, 9, pf, pi) ==
      Assign(Assign(Assign(PreparedUpTo(f, 6, pf, pi), f, SleepDuration, pf, pi), f, CaloriesBurned, pf, pi), f, ExerciseData, pf, pi)
  {
    PreparedStep(f, SleepDuration, pf, pi);
    PreparedStep(f, CaloriesBurned, pf, pi);
    PreparedStep(f, ExerciseData, pf, pi);
  }

  lemma PreparedComplete(f: FormData, pf: string -> Option<real>, pi: string -> Option<real>)
    ensures PreparedUpTo(f, 9, pf, pi) == Prepared(f, pf, pi)
  {
  }

  /** The nine assignments in their order build the record of the form. */
  lemma PreparedByAssignments(f: FormData, pf: string -> Option<real>, pi: string -> Option<real>)
    ensures Prepared(f, pf, pi) ==
      Assign(Assign(Assign(Assign(Assign(Assign(Assign(Assign(Assign(map[],
        f, Weight, pf, pi), f, Height, pf, pi), f, BloodPressure, pf, pi), f, HeartRate, pf, pi),
        f, BloodSugar, pf, pi), f, Temperature, pf, pi), f, SleepDuration, pf, pi),
        f, CaloriesBurned, pf, pi), f, ExerciseData, pf, pi)
  {
    PreparedFirstThree(f, pf, pi);
    PreparedNextThree(f, pf, pi);
    PreparedLastThree(f, pf, pi);
    PreparedComplete(f, pf, pi);
  }

  /** prepareHealthData: starts from an empty record and sets one key per
      non-empty field. */
  method PrepareHealthData(f: FormData, parseFloat: string -> Option<real>, parseInt: string -> Option<real>)
    returns (healthData: map<Key, Entry>)
    ensures healthData == Prepared(f, parseFloat, parseInt)
  {
    healthData := map[];
    healthData := SetIfFilled(healthData, f, Weight, parseFloat, parseInt);
    healthData := SetIfFilled(healthData, f, Height, parseFloat, parseInt);
    healthData := SetIfFilled(healthData, f, BloodPressure, parseFloat, parseInt);
    healthData := SetIfFilled(healthData, f, HeartRate, parseFloat, parseInt);
    healthData := SetIfFilled(healthData, f, BloodSugar, parseFloat, parseInt);
    healthData := SetIfFilled(healthData, f, Temperature, parseFloat, parseInt);
    healthData := SetIfFilled(healthData, f, SleepDuration, parseFloat, parseInt);
    healthData := SetIfFilled(healthData, f, CaloriesBurned, parseFloat, parseInt);
    healthData := SetIfFilled(healthData, f, ExerciseData, parseFloat, parseInt);
    PreparedByAssignments(f, parseFloat, parseInt);
  }

  /** One `if (formData.x) healthData.x = convert(formData.x)` line. */
  method SetIfFilled(healthData: map<Key, Entry>, f: FormData, k: Key,
                     parseFloat: string -> Option<real>, parseInt: string -> Option<real>) returns (r: map<Key, Entry>)
    ensures r == Assign(healthData, f, k, parseFloat, parseInt)
  {
    r := healthData;
    var field := FieldOf(f, k);
    if field != "" {
      r := r[k := Convert(k, field, parseFloat, parseInt)];
    }
  }

  /** The record has a key exactly for each non-empty field; blood pressure
      and exercise notes are copied as text, the rest parsed as numbers. */
  lemma PreparedEntries(f: FormData, parseFloat: string -> Option<real>, parseInt: string -> Option<real>, k: Key)
    ensures k in Prepared(f, parseFloat, parseInt) <==> FieldOf(f, k) != ""
    ensures k in Prepared(f, parseFloat, parseInt) && k in {BloodPressure, ExerciseData} ==>
      Prepared(f, parseFloat, parseInt)[k] == Text(FieldOf(f, k))
    ensures k in Prepared(f, parseFloat, parseInt) && k !in {BloodPressure, ExerciseData} ==>
      Prepared(f, parseFloat, parseInt)[k].Number?
  {
  }

  /** A form passes the check exactly when its record carries a measurement. */
  lemma ValidIffMeasurementSent(f: FormData, parseFloat: string -> Option<real>, parseInt: string -> Option<real>)
    ensures ValidateHealthForm(f) == "" <==> exists k :: k in Prepared(f, parseFloat, parseInt) && k != ExerciseData
  {
    var p := Prepared(f, parseFloat, parseInt);
    if ValidateHealthForm(f) == "" {
      var k: Key :| k != ExerciseData && FieldOf(f, k) != "";
      assert k in p;
    }
  }

  /** A calendar date as JavaScript's Date reports it (month 0..11). */
  datatype CivilDate = CivilDate(year: int, month: int, day: int)

  predicate DateLeq(a: CivilDate, b: CivilDate) {
    a.year < b.year || (a.year == b.year && (a.month < b.month || (a.month == b.month && a.day <= b.day)))
  }

  /** The n-th anniversary of a date. */
  function Anniversary(birth: CivilDate, n: int): CivilDate {
    CivilDate(birth.year + n, birth.month, birth.day)
  }

  const DefaultAge := 30

  /** calculateAge: 30 without a date of birth; NaN (None) for a date the
      browser cannot read; otherwise the year difference, less one while this
      year's birthday is still ahead. */
  method CalculateAge(dob: Option<string>, dateOf: string -> Option<CivilDate>, today: CivilDate) returns (age: Option<int>)
    ensures (dob.None? || dob.value == "") ==> age == Some(DefaultAge)
    ensures dob.Some? && dob.value != "" && dateOf(dob.value).None? ==> age.None?
    ensures dob.Some? && dob.value != "" && dateOf(dob.value).Some? ==>
      age.Some? && DateLeq(Anniversary(dateOf(dob.value).value, age.value), today) &&
      !DateLeq(Anniversary(dateOf(dob.value).value, age.value + 1), today)
  {
    if dob.None? || dob.value == "" {
      return Some(DefaultAge);
    }
    var parsed := dateOf(dob.value);
    if parsed.None? {
      return None;
    }
    var birthDate := parsed.value;
    var a := today.year - birthDate.year;
    var m := today.month - birthDate.month;
    if m < 0 || (m == 0 && today.day < birthDate.day) {
      a := a - 1;
    }
    age := Some(a);
  }

  /** A health-tracking entry of the history list. */
  datatype HealthRecord = HealthRecord(trackingId: int, recordedAt: Option<string>)

  /** `record.recorded_at && new Date(record.recorded_at) >= cutoff`. */
  predicate RecordedSince(r: HealthRecord, cutoff: int, instantOf: string -> Option<int>) {
    r.recordedAt.Some? && r.recordedAt.value != "" &&
    instantOf(r.recordedAt.value).Some? && instantOf(r.recordedAt.value).value >= cutoff
  }

  /** The test `records.filter` applies for a cutoff. */
  function SinceCutoff(cutoff: int, instantOf: string -> Option<int>): (p: HealthRecord -> bool)
    ensures forall x :: p(x) == RecordedSince(x, cutoff, instantOf)
  {
    x => RecordedSince(x, cutoff, instantOf)
  }

  /** filterRecordsByTime; daysAgo(n) is the instant n days before now. */
  function FilterRecordsByTime(records: seq<HealthRecord>, timeFilter: string,
                               instantOf: string -> Option<int>, daysAgo: int -> int): (r: seq<HealthRecord>)
    ensures records == [] ==> r == []
    ensures timeFilter != "7days" && timeFilter != "30days" ==> r == records
  {
    if |records| == 0 then []
    else if timeFilter == "all" then records
    else if timeFilter == "7days" then Filter(records, SinceCutoff(daysAgo(7), instantOf))
    else if timeFilter == "30days" then Filter(records, SinceCutoff(daysAgo(30), instantOf))
    else records
  }

  /** Under '7days' or '30days' a record is kept exactly when it was recorded
      at or after the cutoff. */
  lemma TimeFilterKeeps(records: seq<HealthRecord>, timeFilter: string, instantOf: string -> Option<int>,
                        daysAgo: int -> int, x: HealthRecord)
    requires timeFilter == "7days" || timeFilter == "30days"
    ensures x in FilterRecordsByTime(records, timeFilter, instantOf, daysAgo) <==>
      x in records && RecordedSince(x, daysAgo(if timeFilter == "7days" then 7 else 30), instantOf)
  {
    var n := if timeFilter == "7days" then 7 else 30;
    if records != [] {
      FilterMembers(records, SinceCutoff(daysAgo(n), instantOf), x);
    }
  }

  /** Under '7days' or '30days' one more record is appended to the result
      exactly when it was recorded at or after the cutoff: the result is the
      in-order subsequence of the kept records. */
  lemma TimeFilterSnoc(records: seq<HealthRecord>, timeFilter: string, instantOf: string -> Option<int>,
                       daysAgo: int -> int, x: HealthRecord)
    requires timeFilter == "7days" || timeFilter == "30days"
    ensures FilterRecordsByTime(records + [x], timeFilter, instantOf, daysAgo) ==
      FilterRecordsByTime(records, timeFilter, instantOf, daysAgo) +
      (if RecordedSince(x, daysAgo(if timeFilter == "7days" then 7 else 30), instantOf) then [x] else [])
  {
    var p := SinceCutoff(daysAgo(if timeFilter == "7days" then 7 else 30), instantOf);
    FilterAppend(records, x, p);
    if records == [] {
      assert records + [x] == [x];
    }
  }

  /** Every record of the last seven days is also one of the last thirty. */
  lemma SevenDaysWithinThirty(records: seq<HealthRecord>, instantOf: string -> Option<int>, daysAgo: int -> int, x: HealthRecord)
    requires daysAgo(30) <= daysAgo(7)
    ensures x in FilterRecordsByTime(records, "7days", instantOf, daysAgo) ==>
      x in FilterRecordsByTime(records, "30days", instantOf, daysAgo)
  {
    TimeFilterKeeps(records, "7days", instantOf, daysAgo, x);
    TimeFilterKeeps(records, "30days", instantOf, daysAgo, x);
  }
}
