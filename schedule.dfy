/** The public booking page (src/pages/Schedule.jsx): the form's ordered
    validation, the request it files, and the form it shows for the next
    request. */
module SchedulePage {
  import opened Base
  import opened Schema
  import opened Db

  /** The form fields; "" is an unselected service or barber. */
  datatype BookingForm = BookingForm(
    clientName: string, clientPhone: string, preferredDate: string, preferredTime: string,
    serviceId: Id, barberId: Id, notes: string)

  datatype BookingError = NoName | NoPhone | NoDate | NoTime

  function ErrorMessage(e: BookingError): string
  {
    match e
    case NoName => "Informe seu nome"
    case NoPhone => "Informe seu telefone"
    case NoDate => "Selecione uma data"
    case NoTime => "Selecione um horário"
  }

  /** The first failing check of handleSubmit, if any. */
  function Validate(f: BookingForm): Option<BookingError>
  {
    if IsBlank(f.clientName) then Some(NoName)
    else if IsBlank(f.clientPhone) then Some(NoPhone)
    else if f.preferredDate == "" then Some(NoDate)
    else if f.preferredTime == "" then Some(NoTime)
    else None
  }

  /** The form passes exactly when name and phone are not blank and a date
      and a time are chosen; each error is reported only when every earlier
      check passed. */
  lemma ValidateOrder(f: BookingForm)
    ensures Validate(f).None? <==>
      !IsBlank(f.clientName) && !IsBlank(f.clientPhone) && f.preferredDate != "" && f.preferredTime != ""
    ensures Validate(f) == Some(NoPhone) ==> !IsBlank(f.clientName) && IsBlank(f.clientPhone)
    ensures Validate(f) == Some(NoDate) ==> !IsBlank(f.clientName) && !IsBlank(f.clientPhone) && f.preferredDate == ""
    ensures Validate(f) == Some(NoTime) ==>
      !IsBlank(f.clientName) && !IsBlank(f.clientPhone) && f.preferredDate != "" && f.preferredTime == ""
  {
  }

  /** What handleSubmit hands to createSchedulingRequest. */
  function FieldsOf(f: BookingForm): RequestFields
  {
    RequestFields(Trim(f.clientName), Trim(f.clientPhone), f.preferredDate, f.preferredTime,
                  f.serviceId, f.barberId, Trim(f.notes))
  }

  datatype BookingOutcome = Filed(request: SchedulingRequest) | Refused(error: BookingError)

  /** handleSubmit: on the first failing check nothing is filed; otherwise
      exactly one PENDING request is appended and nothing else changes. */
  method Submit(db: Document, f: BookingForm, freshId: Id, now: Time) returns (outcome: BookingOutcome)
    requires db.schedulingRequests.Some?
    modifies db
    ensures Validate(f).Some? ==> outcome == Refused(Validate(f).value) && db.State() == old(db.State())
    ensures Validate(f).None? ==>
      && outcome == Filed(NewRequest(FieldsOf(f), freshId, now))
      && db.State() == old(db.State()).(schedulingRequests :=
           Some(old(db.schedulingRequests.value) + [outcome.request]))
  {
    var err := Validate(f);
    if err.Some? {
      return Refused(err.value);
    }
    var request := db.CreateSchedulingRequest(FieldsOf(f), freshId, now);
    outcome := Filed(request);
  }

  /** A filed request is PENDING, carries a non-blank trimmed name and phone
      and trimmed notes, and has no service or barber exactly when none was
      chosen. */
  lemma FiledRequestFacts(f: BookingForm, freshId: Id, now: Time)
    requires Validate(f).None?
    ensures var r := NewRequest(FieldsOf(f), freshId, now);
      && r.status == Pending && r.createdAt == now && r.updatedAt == now
      && r.clientName == Trim(f.clientName) && !IsBlank(r.clientName)
      && r.clientPhone == Trim(f.clientPhone) && !IsBlank(r.clientPhone)
      && r.notes == Trim(f.notes)
      && (r.serviceId.None? <==> f.serviceId == "")
      && (r.barberId.None? <==> f.barberId == "")
  {
    TrimIdempotent(f.clientName);
    TrimIdempotent(f.clientPhone);
  }

  /** handleNewRequest: a cleared form for today with the default barber
      selected. */
  function NewBookingForm(defaultBarberId: Id, today: string): BookingForm
  {
    BookingForm("", "", today, "", "", defaultBarberId, "")
  }

  /** A cleared form cannot be submitted before a name is typed. */
  lemma NewBookingFormNeedsName(defaultBarberId: Id, today: string)
    ensures Validate(NewBookingForm(defaultBarberId, today)) == Some(NoName)
  {
    BlankIffAllWhitespace("");
  }
}
