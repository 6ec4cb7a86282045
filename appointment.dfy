/**
 * The appointment middlewares: the body check of a booking, loading the
 * appointment named in the URL, and the rule that only its doctor or its
 * patient may act on it.
 */
module Appointment {
  import opened Wrappers
  import opened Json
  import opened Express

  const FieldsRequired := "doctor_id và appointment_time là bắt buộc"
  const NotFound := "Không tìm thấy lịch hẹn"
  const Forbidden := "Bạn không có quyền thực hiện hành động này"

  datatype AppointmentRow = AppointmentRow(doctorId: Value, patientId: Value, appointmentTime: Value)

  /** The authenticated user, as the auth middleware leaves it on the request. */
  datatype User = User(role: Value, userId: Value)

  /** validateAppointmentBody: both fields must be truthy. */
  function ValidateAppointmentBody(body: Fields): (outcome: Outcome)
    ensures outcome == Next <==> JsTruthy(Get(body, "doctor_id")) && JsTruthy(Get(body, "appointment_time"))
    ensures outcome != Next ==> outcome == Reject(400, FieldsRequired)
  {
    if !JsTruthy(Get(body, "doctor_id")) || !JsTruthy(Get(body, "appointment_time")) then Reject(400, FieldsRequired)
    else Next
  }

  class Request {
    var appointment: Option<AppointmentRow>

    constructor ()
      ensures appointment.None?
    {
      appointment := None;
    }

    /** loadAppointment against the appointments table, keyed by the URL id. */
    method LoadAppointment(appointments: map<string, AppointmentRow>, id: string) returns (outcome: Outcome)
      modifies this
      ensures outcome == Next <==> id in appointments
      ensures outcome != Next ==> outcome == Reject(404, NotFound) && appointment == old(appointment)
      ensures outcome == Next ==> appointment == Some(appointments[id])
    {
      if id !in appointments {
        return Reject(404, NotFound);
      }
      appointment := Some(appointments[id]);
      outcome := Next;
    }
  }

  predicate IsDoctor(user: User) {
    user.role == Str("Doctor")
  }

  /** authorizeAppointmentAccess: a doctor acts on their own appointments
      through doctor_id, everyone else through patient_id. */
  function AuthorizeAppointmentAccess(user: User, appt: AppointmentRow): (outcome: Outcome)
    ensures outcome == Next <==>
      (IsDoctor(user) && appt.doctorId == user.userId) || (!IsDoctor(user) && appt.patientId == user.userId)
    ensures outcome != Next ==> outcome == Reject(403, Forbidden)
  {
    var isDoctor := user.role == Str("Doctor") && appt.doctorId == user.userId;
    var isPatient := user.role != Str("Doctor") && appt.patientId == user.userId;
    if !isDoctor && !isPatient then Reject(403, Forbidden) else Next
  }

  /** A doctor who is only the patient of an appointment is refused, and a
      user of any other role is never let in through doctor_id. */
  lemma RolesDoNotMix(user: User, appt: AppointmentRow)
    ensures IsDoctor(user) && appt.doctorId != user.userId ==> AuthorizeAppointmentAccess(user, appt) == Reject(403, Forbidden)
    ensures !IsDoctor(user) && appt.patientId != user.userId ==> AuthorizeAppointmentAccess(user, appt) == Reject(403, Forbidden)
  {
  }

  /** Loading then authorising: a missing appointment stops with 404 before
      any role check. */
  method LoadThenAuthorize(req: Request, appointments: map<string, AppointmentRow>, id: string, user: User)
    returns (outcome: Outcome)
    modifies req
    ensures id !in appointments ==> outcome == Reject(404, NotFound)
    ensures id in appointments ==> outcome == AuthorizeAppointmentAccess(user, appointments[id])
  {
    outcome := req.LoadAppointment(appointments, id);
    if outcome == Next {
      outcome := AuthorizeAppointmentAccess(user, req.appointment.value);
    }
  }
}
