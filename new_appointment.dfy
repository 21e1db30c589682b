/** Recording an appointment (src/pages/NewAppointment.jsx): the form's
    initial values, the prefill taken from a scheduling request, the
    ordered validation, and the submit that may add a client, adds the
    appointment and stamps the client's last visit. */
module NewAppointmentPage {
  import opened Base
  import opened Schema
  import opened Db
  import opened Helpers

  datatype ClientMode = Existing | New

  /** The form state. "" is an unselected client, service or barber; the
      price is None while its text is empty and the amount otherwise. */
  datatype AppointmentForm = AppointmentForm(
    mode: ClientMode, selectedClientId: Id, newClientName: string, newClientPhone: string,
    serviceId: Id, barberId: Id, price: Option<Money>, date: string)

  /** The form as useState first builds it, with today's date. */
  function BlankForm(today: string): AppointmentForm
  {
    AppointmentForm(Existing, "", "", "", "", "", None, today)
  }

  // ---------------------------------------------------------------------
  // Initial selection and prefill
  // ---------------------------------------------------------------------

  function ServiceIdIs(id: Id): Service -> bool
  {
    (v: Service) => v.id == id
  }

  /** The service chosen when nothing else is: the first one, with its
      price; with no services the selection is left alone. */
  function FirstService(f: AppointmentForm, services: seq<Service>): AppointmentForm
  {
    if |services| > 0 then f.(serviceId := services[0].id, price := Some(services[0].price)) else f
  }

  /** The barber chosen when nothing else is: defaultBarberId when set,
      else the first barber; with neither the selection is left alone. */
  function FallbackBarber(f: AppointmentForm, defaultBarberId: Id, barbers: seq<Barber>): AppointmentForm
  {
    if defaultBarberId != "" then f.(barberId := defaultBarberId)
    else if |barbers| > 0 then f.(barberId := barbers[0].id)
    else f
  }

  /** The initialisation without prefill. */
  function InitialForm(s: Snapshot, today: string): AppointmentForm
    requires s.barbers.Some?
  {
    FallbackBarber(FirstService(BlankForm(today), s.services), s.defaultBarberId, s.barbers.value)
  }

  /** The digits of a phone equal the request's digits; a client without a
      phone never matches. */
  function PhoneMatches(phone: string): Client -> bool
  {
    (c: Client) => c.phone != "" && DigitsOnly(c.phone) == DigitsOnly(phone)
  }

  /** The client part of handlePrefill: with a phone, the first client
      whose phone has the same digits, else a new client with the
      request's name and phone; without a phone but with a name, a new
      client with that name; otherwise the client fields stay. */
  function PrefillClient(f: AppointmentForm, clients: seq<Client>, req: SchedulingRequest): (p: AppointmentForm)
    ensures req.clientPhone != "" && (exists c :: c in clients && PhoneMatches(req.clientPhone)(c)) ==>
      && p.mode == Existing
      && exists i :: (0 <= i < |clients| && clients[i].id == p.selectedClientId
           && PhoneMatches(req.clientPhone)(clients[i])
           && forall j :: 0 <= j < i ==> !PhoneMatches(req.clientPhone)(clients[j]))
    ensures req.clientPhone != "" && (forall c :: c in clients ==> !PhoneMatches(req.clientPhone)(c)) ==>
      p.mode == New && p.newClientName == req.clientName && p.newClientPhone == req.clientPhone
    ensures req.clientPhone == "" && req.clientName != "" ==>
      p.mode == New && p.newClientName == req.clientName
    ensures req.clientPhone == "" && req.clientName == "" ==> p == f
    ensures p == f.(mode := p.mode, selectedClientId := p.selectedClientId,
                    newClientName := p.newClientName, newClientPhone := p.newClientPhone)
  {
    if req.clientPhone != "" then
      match Find(clients, PhoneMatches(req.clientPhone))
      case Some(c) =>
        FindFirst(clients, PhoneMatches(req.clientPhone));
        f.(mode := Existing, selectedClientId := c.id)
      case None => f.(mode := New, newClientName := req.clientName, newClientPhone := req.clientPhone)
    else if req.clientName != "" then f.(mode := New, newClientName := req.clientName)
    else f
  }

  /** The service part of handlePrefill: the request's service if it
      exists, with its price, else the first service. */
  function PrefillService(f: AppointmentForm, services: seq<Service>, req: SchedulingRequest): (p: AppointmentForm)
    ensures req.serviceId.Some? && req.serviceId.value != "" &&
            (exists v :: v in services && v.id == req.serviceId.value) ==>
      && p.serviceId == req.serviceId.value
      && exists v :: v in services && v.id == req.serviceId.value && p.price == Some(v.price)
    ensures (req.serviceId.None? || forall v :: v in services ==> v.id != req.serviceId.value) ==>
      p == FirstService(f, services)
    ensures p == f.(serviceId := p.serviceId, price := p.price)
  {
    if req.serviceId.Some? && req.serviceId.value != "" then
      match Find(services, ServiceIdIs(req.serviceId.value))
      case Some(v) => f.(serviceId := v.id, price := Some(v.price))
      case None => FirstService(f, services)
    else FirstService(f, services)
  }

  /** The barber part of handlePrefill: the request's barber if it exists,
      else defaultBarberId, else the first barber. */
  function PrefillBarber(f: AppointmentForm, s: Snapshot, req: SchedulingRequest): (p: AppointmentForm)
    requires s.barbers.Some?
    ensures req.barberId.Some? && req.barberId.value != "" && HasBarber(s.barbers.value, req.barberId.value) ==>
      p.barberId == req.barberId.value
    ensures (req.barberId.None? || !HasBarber(s.barbers.value, req.barberId.value)) ==>
      p == FallbackBarber(f, s.defaultBarberId, s.barbers.value)
    ensures p == f.(barberId := p.barberId)
  {
    if req.barberId.Some? && req.barberId.value != "" && HasBarber(s.barbers.value, req.barberId.value)
    then f.(barberId := req.barberId.value)
    else FallbackBarber(f, s.defaultBarberId, s.barbers.value)
  }

  /** handlePrefill: client, service, barber, then the preferred date when
      the request has one. */
  function Prefill(f: AppointmentForm, s: Snapshot, req: SchedulingRequest): AppointmentForm
    requires s.barbers.Some?
  {
    var p := PrefillBarber(PrefillService(PrefillClient(f, s.clients, req), s.services, req), s, req);
    if req.preferredDate != "" then p.(date := req.preferredDate) else p
  }

  /** A request with no service, barber, phone, name or date prefills the
      same selection as the plain initialisation. */
  lemma EmptyPrefillIsInitial(s: Snapshot, today: string, req: SchedulingRequest)
    requires s.barbers.Some?
    requires req.clientPhone == "" && req.clientName == "" && req.preferredDate == ""
    requires req.serviceId.None? && req.barberId.None?
    ensures Prefill(BlankForm(today), s, req) == InitialForm(s, today)
  {
  }

  // ---------------------------------------------------------------------
  // handleSubmit
  // ---------------------------------------------------------------------

  datatype FormError = NoClient | NoClientName | NoService | NoBarber | BadPrice | NoDate

  function ErrorMessage(e: FormError): string
  {
    match e
    case NoClient => "Selecione um cliente"
    case NoClientName => "Informe o nome do cliente"
    case NoService => "Selecione um serviço"
    case NoBarber => "Selecione um barbeiro"
    case BadPrice => "Informe um valor válido"
    case NoDate => "Informe a data"
  }

  /** The first failing check of handleSubmit, if any. */
  function Validate(f: AppointmentForm): Option<FormError>
  {
    if f.mode == Existing && f.selectedClientId == "" then Some(NoClient)
    else if f.mode == New && IsBlank(f.newClientName) then Some(NoClientName)
    else if f.serviceId == "" then Some(NoService)
    else if f.barberId == "" then Some(NoBarber)
    else if f.price.None? || f.price.value < 0 then Some(BadPrice)
    else if f.date == "" then Some(NoDate)
    else None
  }

  /** The form passes exactly when a client is given for its mode, a
      service and a barber are chosen, a price of at least zero (zero
      included) is entered and a date is chosen. */
  lemma ValidateAccepts(f: AppointmentForm)
    ensures Validate(f).None? <==>
      && (f.mode == Existing ==> f.selectedClientId != "")
      && (f.mode == New ==> !IsBlank(f.newClientName))
      && f.serviceId != "" && f.barberId != ""
      && f.price.Some? && f.price.value >= 0
      && f.date != ""
  {
  }

  /** The day number of the date part of the ISO date-time text that
      new Date(date + 'T12:00:00') reads: exactly four year digits, '-',
      two month digits 01..12, '-', two day digits 01..31, the year kept
      as written. A day past the end of its month rolls into the next
      month. Any other text gives None. */
  function IsoDateDay(date: string): (r: Option<int>)
    ensures r.Some? ==> |date| == 10 && date[4] == '-' && date[7] == '-'
  {
    if |date| != 10 || date[4] != '-' || date[7] != '-' then None
    else
      var y, m, d := ParseNumber(date[..4]), ParseNumber(date[5..7]), ParseNumber(date[8..]);
      if y.Some? && m.Some? && d.Some? && 1 <= m.value <= 12 && 1 <= d.value <= 31 then
        Some(Calendar.DaysFromCivil(y.value, m.value - 1, d.value))
      else None
  }

  /** new Date(date + 'T12:00:00'): noon of the chosen local day, or an
      Invalid Date for text that is not a YYYY-MM-DD date. */
  function NoonOf(date: string): (r: DateValue)
    ensures !r.Null?
    ensures r.Valid? ==> r.time % DayMs == DayMs / 2
    ensures r.Valid? ==> |date| == 10 && date[4] == '-' && date[7] == '-'
  {
    match IsoDateDay(date)
    case Some(z) => MiddayOfMidnight(z * DayMs); Valid(z * DayMs + DayMs / 2)
    case None => Invalid
  }

  /** Half a day after a midnight is noon. */
  lemma MiddayOfMidnight(t: Time)
    requires t % DayMs == 0
    ensures (t + DayMs / 2) % DayMs == DayMs / 2
  {
    var q := t / DayMs;
    assert t == q * DayMs;
    assert t + DayMs / 2 == q * DayMs + DayMs / 2;
  }

  /** The appointment is stored at noon of exactly the date typed: for
      every four-digit year, years 0000..0099 included, and every day that
      exists in its month, the calendar date of the stored instant is the
      one the text names. */
  lemma NoonOfReadsBack(date: string, y: nat, m: nat, d: nat)
    requires |date| == 10 && date[4] == '-' && date[7] == '-'
    requires ParseNumber(date[..4]) == Some(y)
    requires ParseNumber(date[5..7]) == Some(m) && ParseNumber(date[8..]) == Some(d)
    requires 1 <= m <= 12 && 1 <= d <= Calendar.MonthLength(y, m)
    ensures NoonOf(date).Valid?
    ensures var t := NoonOf(date).time;
      Calendar.CivilFromDays(Day(t)) == Calendar.Civil(y, m, d) && t - StartOfDay(t) == 12 * 3_600_000
  {
    var z := Calendar.DaysFromCivil(y, m - 1, d);
    assert IsoDateDay(date) == Some(z);
    assert Day(z * DayMs + DayMs / 2) == z;
    Calendar.CivilRoundTrip(y, m, d);
  }

  /** Noon of the day whose date text toDateInputValue gives, for every
      year written with four digits. */
  lemma NoonOfDateInput(t: Time)
    requires 1000 <= Calendar.CivilFromDays(Day(t)).year <= 9999
    ensures NoonOf(ToDateInputValue(t)) == Valid(StartOfDay(t) + 12 * 3_600_000)
  {
    var c := Calendar.CivilFromDays(Day(t));
    var ys, ms, ds := NatToString(c.year), Pad2(NatToString(c.month)), Pad2(NatToString(c.day));
    FourDigits(c.year);
    DateInputNumbers(c.year, c.month, c.day);
    var date := ToDateInputValue(t);
    assert IntToString(c.year) == ys;
    assert date == ys + "-" + ms + "-" + ds;
    assert date[..4] == ys && date[5..7] == ms && date[8..] == ds;
    assert IsoDateDay(date) == Some(Day(t));
  }

  /** A year from 1000 to 9999 is written with four digits. */
  lemma FourDigits(n: nat)
    requires 1000 <= n <= 9999
    ensures |NatToString(n)| == 4
  {
    assert (n / 10) / 10 == n / 100 && (n / 100) / 10 == n / 1000;
    assert |NatToString(n / 1000)| == 1;
    assert |NatToString(n / 100)| == 2;
    assert |NatToString(n / 10)| == 3;
  }

  /** submit either saves the appointment, reports a check that failed, or
      throws on a date that does not parse (toISOString of an Invalid
      Date), in which case nothing is saved. */
  datatype SubmitOutcome = Saved(appointment: Appointment) | Rejected(error: FormError) | DateThrows

  datatype Submission = Submission(doc: Snapshot, outcome: SubmitOutcome)

  function ClientIdIs(id: Id): Client -> bool
  {
    (c: Client) => c.id == id
  }

  /** The document after handleSubmit. */
  function SubmitSpec(s: Snapshot, f: AppointmentForm, clientId: Id, appointmentId: Id): Submission
  {
    match Validate(f)
    case Some(e) => Submission(s, Rejected(e))
    case None =>
      match NoonOf(f.date)
      case Valid(at) =>
        var newClient := Client(clientId, Trim(f.newClientName), Trim(f.newClientPhone), None);
        var clients1 := if f.mode == New then s.clients + [newClient] else s.clients;
        var cid := if f.mode == New then clientId else f.selectedClientId;
        var apt := Appointment(appointmentId, cid, f.serviceId, f.barberId, f.price.value, at);
        var k := FindIndex(clients1, ClientIdIs(cid));
        var clients2 := if k == -1 then clients1 else clients1[k := clients1[k].(lastVisitAt := Some(at))];
        Submission(s.(clients := clients2, appointments := s.appointments + [apt]), Saved(apt))
      case _ => Submission(s, DateThrows)
  }

  method Submit(db: Document, f: AppointmentForm, clientId: Id, appointmentId: Id)
    returns (outcome: SubmitOutcome)
    modifies db
    ensures Submission(db.State(), outcome) == SubmitSpec(old(db.State()), f, clientId, appointmentId)
  {
    var err := Validate(f);
    if err.Some? {
      return Rejected(err.value);
    }
    var at := NoonOf(f.date);
    if !at.Valid? {
      return DateThrows;
    }
    var cid := f.selectedClientId;
    if f.mode == New {
      var newClient := Client(clientId, Trim(f.newClientName), Trim(f.newClientPhone), None);
      db.clients := db.clients + [newClient];
      cid := newClient.id;
    }
    var appointment := Appointment(appointmentId, cid, f.serviceId, f.barberId, f.price.value, at.time);
    db.appointments := db.appointments + [appointment];
    var k := FindIndex(db.clients, ClientIdIs(cid));
    if k != -1 {
      db.clients := db.clients[k := db.clients[k].(lastVisitAt := Some(at.time))];
    }
    outcome := Saved(appointment);
  }

  /** A saved submission appends exactly one appointment at noon of the
      chosen day, with the form's service, barber and price, naming the
      fresh client in new-client mode and the selected one otherwise; only
      the clients and the appointments change. */
  lemma SubmitFacts(s: Snapshot, f: AppointmentForm, clientId: Id, appointmentId: Id)
    requires Validate(f).None? && NoonOf(f.date).Valid?
    ensures var r := SubmitSpec(s, f, clientId, appointmentId);
      && r.outcome.Saved?
      && var apt := r.outcome.appointment;
      && r.doc.appointments == s.appointments + [apt]
      && apt.id == appointmentId && apt.dateAt == NoonOf(f.date).time
      && apt.serviceId == f.serviceId && apt.barberId == f.barberId && apt.price == f.price.value
      && apt.price >= 0
      && apt.clientId == (if f.mode == New then clientId else f.selectedClientId)
      && r.doc == s.(clients := r.doc.clients, appointments := r.doc.appointments)
  {
  }

  /** In new-client mode exactly one client is appended, with the fresh id,
      the trimmed name and phone and the appointment's instant as its last
      visit. The appointment's client, when it exists, has its lastVisitAt
      overwritten with the appointment's instant, even when that is earlier
      than before; every other client is untouched. */
  lemma SubmitClientFacts(s: Snapshot, f: AppointmentForm, clientId: Id, appointmentId: Id)
    requires Validate(f).None? && NoonOf(f.date).Valid?
    requires f.mode == New ==> forall c :: c in s.clients ==> c.id != clientId
    ensures var r := SubmitSpec(s, f, clientId, appointmentId);
      var at := NoonOf(f.date).time;
      var cid := if f.mode == New then clientId else f.selectedClientId;
      && |r.doc.clients| == |s.clients| + (if f.mode == New then 1 else 0)
      && (f.mode == New ==>
            r.doc.clients[|s.clients|] == Client(clientId, Trim(f.newClientName), Trim(f.newClientPhone), Some(at)))
      && (forall i :: 0 <= i < |s.clients| ==>
            r.doc.clients[i] == if s.clients[i].id == cid && (forall j :: 0 <= j < i ==> s.clients[j].id != cid)
                                then s.clients[i].(lastVisitAt := Some(at))
                                else s.clients[i])
  {
    var at := NoonOf(f.date).time;
    var newClient := Client(clientId, Trim(f.newClientName), Trim(f.newClientPhone), None);
    var clients1 := if f.mode == New then s.clients + [newClient] else s.clients;
    var cid := if f.mode == New then clientId else f.selectedClientId;
    var apt := Appointment(appointmentId, cid, f.serviceId, f.barberId, f.price.value, at);
    var k := FindIndex(clients1, ClientIdIs(cid));
    var clients2 := if k == -1 then clients1 else clients1[k := clients1[k].(lastVisitAt := Some(at))];
    assert SubmitSpec(s, f, clientId, appointmentId).doc.clients == clients2;
    if f.mode == New {
      assert ClientIdIs(cid)(clients1[|s.clients|]);
      forall j | 0 <= j < |s.clients| ensures !ClientIdIs(cid)(clients1[j]) {
        assert s.clients[j] in s.clients;
      }
      assert k == |s.clients|;
      forall i | 0 <= i < |s.clients| ensures clients2[i] == s.clients[i] && s.clients[i].id != cid {
        assert s.clients[i] in s.clients;
      }
    } else {
      StampFirst(s.clients, cid, at);
    }
  }

  /** Stamping lastVisitAt on the first client with the id changes that
      client only. */
  lemma StampFirst(cs: seq<Client>, cid: Id, at: Time)
    ensures var k := FindIndex(cs, ClientIdIs(cid));
      var cs2 := if k == -1 then cs else cs[k := cs[k].(lastVisitAt := Some(at))];
      && |cs2| == |cs|
      && forall i :: 0 <= i < |cs| ==>
           cs2[i] == if cs[i].id == cid && (forall j :: 0 <= j < i ==> cs[j].id != cid)
                     then cs[i].(lastVisitAt := Some(at)) else cs[i]
  {
    var k := FindIndex(cs, ClientIdIs(cid));
    forall i | 0 <= i < |cs| && cs[i].id == cid ensures k != -1 && k <= i {
      assert ClientIdIs(cid)(cs[i]);
    }
    forall i | 0 <= i < |cs| && k != -1 && k < i
      ensures !(cs[i].id == cid && forall j :: 0 <= j < i ==> cs[j].id != cid)
    {
      assert ClientIdIs(cid)(cs[k]);
    }
  }

  /** A backdated appointment lowers the stored last visit of an existing
      client: lastVisitAt is overwritten, not kept at the maximum. */
  lemma BackdatedVisitLowersLastVisit(s: Snapshot, f: AppointmentForm, clientId: Id, appointmentId: Id, v: Time)
    requires Validate(f).None? && NoonOf(f.date).Valid? && NoonOf(f.date).time < v
    requires f.mode == Existing && |s.clients| > 0
    requires s.clients[0].id == f.selectedClientId && s.clients[0].lastVisitAt == Some(v)
    ensures var r := SubmitSpec(s, f, clientId, appointmentId).doc;
      r.clients[0].lastVisitAt.Some? && r.clients[0].lastVisitAt.value < v
  {
    SubmitClientFacts(s, f, clientId, appointmentId);
  }

  // ---------------------------------------------------------------------
  // resetForm
  // ---------------------------------------------------------------------

  /** resetForm: back to an existing client with nothing selected and
      today's date; service, barber and price stay. */
  function ResetForm(f: AppointmentForm, today: string): (r: AppointmentForm)
    ensures r.serviceId == f.serviceId && r.barberId == f.barberId && r.price == f.price
  {
    f.(mode := Existing, selectedClientId := "", newClientName := "", newClientPhone := "", date := today)
  }

  /** After a reset the form is refused until a client is chosen. */
  lemma ResetNeedsClient(f: AppointmentForm, today: string)
    ensures Validate(ResetForm(f, today)) == Some(NoClient)
  {
  }
}
