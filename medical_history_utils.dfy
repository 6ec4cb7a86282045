/**
 * The medical-record form: its default contents and the validation run
 * before a record is saved. Calendar dates are day numbers; the browser's
 * Date parsing is the parameter `dayOf` (None for an unparsable date) and
 * its time zone the offset, in minutes, by which local time is ahead of UTC.
 */
module MedicalHistoryUtils {
  import opened Wrappers
  import opened Strings

  datatype FormData = FormData(
    recordDate: string,
    diagnosis: string,
    symptoms: string,
    treatments: string,
    medications: string,
    doctorName: string,
    hospital: string,
    notes: string,
    recordType: string)

  const DateRequired := "Vui lòng chọn ngày khám"
  const DiagnosisRequired := "Vui lòng nhập chẩn đoán"
  const SymptomsRequired := "Vui lòng nhập triệu chứng"
  const TypeRequired := "Vui lòng chọn loại hồ sơ"
  const FutureDate := "Ngày khám không thể ở tương lai"
  const MinutesPerDay := 1440

  /** defaultFormData: today's ISO date, type 'checkup', every other field empty. */
  function DefaultFormData(isoToday: string): (fd: FormData)
    ensures fd.recordDate == isoToday && fd.recordType == "checkup"
    ensures fd.diagnosis == fd.symptoms == fd.treatments == fd.medications == ""
    ensures fd.doctorName == fd.hospital == fd.notes == ""
  {
    FormData(isoToday, "", "", "", "", "", "", "", "checkup")
  }

  /** The checks that come before the date comparison, in order. */
  function FieldError(fd: FormData): Option<string> {
    if fd.recordDate == "" then Some(DateRequired)
    else if JsTrim(fd.diagnosis) == "" then Some(DiagnosisRequired)
    else if JsTrim(fd.symptoms) == "" then Some(SymptomsRequired)
    else if fd.recordType == "" then Some(TypeRequired)
    else None
  }

  /** validateMedicalRecordForm as written: new Date('YYYY-MM-DD') is midnight
      UTC of that day, while `today` is midnight of the local day; an invalid
      date compares false and passes. Instants are minutes since the epoch. */
  function ValidateAsWritten(fd: FormData, dayOf: string -> Option<int>, todayLocal: int, utcOffset: int): (r: Option<string>)
    ensures FieldError(fd).Some? ==> r == FieldError(fd)
    ensures FieldError(fd).None? ==>
      (r == Some(FutureDate) <==>
         dayOf(fd.recordDate).Some? && dayOf(fd.recordDate).value * MinutesPerDay + utcOffset > todayLocal * MinutesPerDay)
    ensures FieldError(fd).None? ==> r.None? || r == Some(FutureDate)
  {
    if FieldError(fd).Some? then FieldError(fd)
    else
      var d := dayOf(fd.recordDate);
      if d.Some? && d.value * MinutesPerDay > todayLocal * MinutesPerDay - utcOffset then Some(FutureDate)
      else None
  }

  /** The intended validation: the same checks, with the record's calendar day
      compared to today's. */
  function Validate(fd: FormData, dayOf: string -> Option<int>, todayLocal: int): (r: Option<string>)
    ensures fd.recordDate == "" ==> r == Some(DateRequired)
    ensures fd.recordDate != "" && JsTrim(fd.diagnosis) == "" ==> r == Some(DiagnosisRequired)
    ensures fd.recordDate != "" && JsTrim(fd.diagnosis) != "" && JsTrim(fd.symptoms) == "" ==> r == Some(SymptomsRequired)
    ensures fd.recordDate != "" && JsTrim(fd.diagnosis) != "" && JsTrim(fd.symptoms) != "" && fd.recordType == "" ==>
      r == Some(TypeRequired)
    ensures r == None <==> FieldError(fd) == None && !(dayOf(fd.recordDate).Some? && dayOf(fd.recordDate).value > todayLocal)
  {
    if FieldError(fd).Some? then FieldError(fd)
    else
      var d := dayOf(fd.recordDate);
      if d.Some? && d.value > todayLocal then Some(FutureDate) else None
  }

  /** A record dated today is accepted and one dated later is rejected. */
  lemma TodayAcceptedLaterRejected(fd: FormData, dayOf: string -> Option<int>, todayLocal: int)
    requires FieldError(fd) == None && dayOf(fd.recordDate).Some?
    ensures dayOf(fd.recordDate).value <= todayLocal ==> Validate(fd, dayOf, todayLocal) == None
    ensures dayOf(fd.recordDate).value > todayLocal ==> Validate(fd, dayOf, todayLocal) == Some(FutureDate)
  {
  }

  /** A diagnosis or symptoms value of white space only is refused. */
  lemma BlankTextRejected(fd: FormData, dayOf: string -> Option<int>, todayLocal: int)
    requires fd.recordDate != ""
    requires AllSpace(fd.diagnosis, IsJsSpace) || AllSpace(fd.symptoms, IsJsSpace)
    ensures Validate(fd, dayOf, todayLocal) in {Some(DiagnosisRequired), Some(SymptomsRequired)}
  {
    TrimEmptyIffAllSpace(fd.diagnosis, IsJsSpace);
    TrimEmptyIffAllSpace(fd.symptoms, IsJsSpace);
  }

  /** The default form is stopped at the diagnosis check. */
  lemma DefaultFormNeedsDiagnosis(isoToday: string, dayOf: string -> Option<int>, todayLocal: int)
    requires isoToday != ""
    ensures Validate(DefaultFormData(isoToday), dayOf, todayLocal) == Some(DiagnosisRequired)
  {
  }

  /** Ahead of UTC (Vietnam is UTC+7, an offset of 420 minutes) the code as
      written refuses a record dated today. */
  lemma AsWrittenRejectsToday(fd: FormData, dayOf: string -> Option<int>, todayLocal: int, utcOffset: int)
    requires FieldError(fd) == None && dayOf(fd.recordDate) == Some(todayLocal)
    requires 0 < utcOffset
    ensures ValidateAsWritten(fd, dayOf, todayLocal, utcOffset) == Some(FutureDate)
    ensures Validate(fd, dayOf, todayLocal) == None
  {
  }

  /** At or behind UTC the code as written agrees with the intended check. */
  lemma AsWrittenAgreesBehindUtc(fd: FormData, dayOf: string -> Option<int>, todayLocal: int, utcOffset: int)
    requires -MinutesPerDay < utcOffset <= 0
    ensures ValidateAsWritten(fd, dayOf, todayLocal, utcOffset) == Validate(fd, dayOf, todayLocal)
  {
    var d := dayOf(fd.recordDate);
    if d.Some? {
      if d.value > todayLocal {
        assert d.value * MinutesPerDay >= todayLocal * MinutesPerDay + MinutesPerDay;
      } else {
        assert d.value * MinutesPerDay <= todayLocal * MinutesPerDay;
      }
    }
  }
}
