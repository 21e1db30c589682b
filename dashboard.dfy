/** The Dashboard (src/pages/Dashboard.jsx): the reporting period and its
    label, the validation of a custom period, and the statistics computed
    for the period (clients served, revenue, revenue per barber) together
    with the clients who have not come back for 15 days or more. */
module DashboardPage {
  import opened Base
  import opened Schema
  import opened Db
  import opened Helpers

  // ---------------------------------------------------------------------
  // The period
  // ---------------------------------------------------------------------

  /** A PRESET period of the last `days` days, or a CUSTOM period between
      two YYYY-MM-DD texts. */
  datatype Period = Preset(days: int) | Custom(start: string, end: string)

  /** DEFAULT_PERIOD. */
  const DefaultPeriod := Preset(7)

  datatype DateRange = DateRange(start: DateValue, end: DateValue)

  /** getDateRangeFromPeriod, with "now" passed in: a custom period parses
      its two texts; a preset ends now and starts days - 1 days earlier at
      the same time of day. */
  function DateRangeOf(p: Period, now: Time): DateRange
  {
    match p
    case Custom(start, end) => DateRange(ParseYmd(start), ParseYmd(end))
    case Preset(days) => DateRange(Valid(now - (days - 1) * DayMs), Valid(now))
  }

  /** The instant startOfDay and endOfDay start from: the current time for a
      falsy date, nothing (NaN) for an Invalid Date. */
  function Bound(d: DateValue, now: Time): Option<Time>
  {
    match d
    case Null => Some(now)
    case Invalid => None
    case Valid(t) => Some(t)
  }

  /** filterAppointmentsByRange applied to a range: a NaN bound makes every
      comparison false, so nothing is kept. */
  function AppointmentsInPeriod(apts: seq<Appointment>, range: DateRange, now: Time): seq<Appointment>
  {
    var lo, hi := Bound(range.start, now), Bound(range.end, now);
    if lo.None? || hi.None? then [] else FilterAppointmentsByRange(apts, lo.value, hi.value)
  }

  /** A preset of n days holds exactly the appointments of today and the
      n - 1 days before it (none when n < 1). */
  lemma PresetWindow(apts: seq<Appointment>, days: int, now: Time)
    ensures forall a :: a in AppointmentsInPeriod(apts, DateRangeOf(Preset(days), now), now)
                    <==> a in apts && Day(now) - days < Day(a.dateAt) <= Day(now)
  {
    var start := now - (days - 1) * DayMs;
    DayShift(now, days - 1);
    InPeriodValid(apts, DateRangeOf(Preset(days), now), start, now, now);
    RangeByDays(apts, start, now);
  }

  /** Going back k whole days moves the day number back by k. */
  lemma DayShift(t: Time, k: int)
    ensures Day(t - k * DayMs) == Day(t) - k
  {
  }

  /** A custom period of two well-formed dates holds exactly the
      appointments from midnight of the first day to the last millisecond
      of the second; "now" plays no part. */
  lemma CustomWindow(apts: seq<Appointment>, start: string, end: string, now: Time)
    requires ParseYmd(start).Valid? && ParseYmd(end).Valid?
    ensures var lo, hi := ParseYmd(start).time, ParseYmd(end).time;
      forall a :: a in AppointmentsInPeriod(apts, DateRangeOf(Custom(start, end), now), now)
             <==> a in apts && lo <= a.dateAt < hi + DayMs
  {
    var lo, hi := ParseYmd(start).time, ParseYmd(end).time;
    InPeriodValid(apts, DateRangeOf(Custom(start, end), now), lo, hi, now);
    WholeDaysWindow(apts, lo, hi);
  }

  /** Between two midnights, the range runs from the first midnight to the
      last millisecond of the second day. */
  lemma WholeDaysWindow(apts: seq<Appointment>, lo: Time, hi: Time)
    requires lo % DayMs == 0 && hi % DayMs == 0
    ensures forall a :: a in FilterAppointmentsByRange(apts, lo, hi) <==> a in apts && lo <= a.dateAt < hi + DayMs
  {
    assert StartOfDay(lo) == lo && EndOfDay(hi) == hi + DayMs - 1;
  }

  /** With two well-formed bounds the period is filterAppointmentsByRange
      over them. */
  lemma InPeriodValid(apts: seq<Appointment>, range: DateRange, lo: Time, hi: Time, now: Time)
    requires range.start == Valid(lo) && range.end == Valid(hi)
    ensures AppointmentsInPeriod(apts, range, now) == FilterAppointmentsByRange(apts, lo, hi)
  {
  }

  /** getPeriodLabel. */
  function PeriodLabel(p: Period): (r: string)
    ensures p.Preset? ==> (r == "Hoje" <==> p.days == 1)
  {
    match p
    case Custom(start, end) => FormatDateBR(ParseYmd(start)) + " – " + FormatDateBR(ParseYmd(end))
    case Preset(days) =>
      if days == 1 then "Hoje"
      else if days == 7 then "Últimos 7 dias"
      else if days == 30 then "Últimos 30 dias"
      else "Últimos " + IntToString(days) + " dias"
  }

  /** The fixed labels for 7 and 30 days read like every other preset but
      one day. */
  lemma PresetLabelTemplate(n: int)
    requires n != 1
    ensures PeriodLabel(Preset(n)) == "Últimos " + IntToString(n) + " dias"
  {
    if n == 7 {
      assert IntToString(7) == "7";
    } else if n == 30 {
      assert IntToString(30) == NatToString(3) + [DigitChar(0)] == "30";
    }
  }

  /** Different presets get different labels. */
  lemma PresetLabelsDistinct(n: int, m: int)
    requires n != m
    ensures PeriodLabel(Preset(n)) != PeriodLabel(Preset(m))
  {
    if n != 1 && m != 1 {
      PresetLabelTemplate(n);
      PresetLabelTemplate(m);
      var x, y := IntToString(n), IntToString(m);
      var l, l' := "Últimos " + x + " dias", "Últimos " + y + " dias";
      assert x == l[8..|l| - 5];
      assert y == l'[8..|l'| - 5];
      IntToStringInjective(n, m);
    }
  }

  // ---------------------------------------------------------------------
  // PeriodSelectorModal: handleApply
  // ---------------------------------------------------------------------

  /** What the modal has selected. */
  datatype Selection = PresetChoice(days: int) | CustomChoice(start: string, end: string)

  datatype ApplyError = MissingDates | StartAfterEnd

  function ApplyMessage(e: ApplyError): string
  {
    match e
    case MissingDates => "Selecione as datas de início e fim"
    case StartAfterEnd => "A data inicial deve ser anterior à data final"
  }

  datatype ApplyOutcome = Applied(period: Period) | Refused(error: ApplyError)

  /** handleApply: a custom range needs both dates and a start not after
      the end; an Invalid Date compares as NaN and so passes. */
  function Apply(sel: Selection): ApplyOutcome
  {
    match sel
    case PresetChoice(days) => Applied(Preset(days))
    case CustomChoice(start, end) =>
      var s, e := ParseYmd(start), ParseYmd(end);
      if s.Null? || e.Null? then Refused(MissingDates)
      else if s.Valid? && e.Valid? && s.time > e.time then Refused(StartAfterEnd)
      else Applied(Custom(start, end))
  }

  /** A custom selection is refused exactly when a date is missing or the
      start is after the end; when both dates are well formed, the period
      applied holds at least the whole first day. */
  lemma ApplyFacts(start: string, end: string, apts: seq<Appointment>, now: Time)
    ensures Apply(CustomChoice(start, end)).Refused? <==>
      start == "" || end == "" || (ParseYmd(start).Valid? && ParseYmd(end).Valid? && ParseYmd(start).time > ParseYmd(end).time)
    ensures Apply(CustomChoice(start, end)) == Refused(MissingDates) <==> start == "" || end == ""
    ensures var out := Apply(CustomChoice(start, end));
      out.Applied? && ParseYmd(start).Valid? && ParseYmd(end).Valid? ==>
        forall a :: a in apts && ParseYmd(start).time <= a.dateAt < ParseYmd(start).time + DayMs ==>
          a in AppointmentsInPeriod(apts, DateRangeOf(out.period, now), now)
  {
    var out := Apply(CustomChoice(start, end));
    if out.Applied? && ParseYmd(start).Valid? && ParseYmd(end).Valid? {
      CustomWindow(apts, start, end, now);
    }
  }

  /** A custom period whose text is not a date shows no appointments. */
  lemma InvalidCustomIsEmpty(apts: seq<Appointment>, start: string, end: string, now: Time)
    requires start != "" && end != ""
    requires ParseYmd(start).Invalid? || ParseYmd(end).Invalid?
    ensures Apply(CustomChoice(start, end)).Applied?
    ensures AppointmentsInPeriod(apts, DateRangeOf(Custom(start, end), now), now) == []
  {
  }

  // ---------------------------------------------------------------------
  // computeStats: revenue per barber
  // ---------------------------------------------------------------------

  /** An entry of barberRevenueMap. */
  datatype Tally = Tally(revenue: Money, count: nat)

  function PriceOf(a: Appointment): int
  {
    a.price
  }

  function BarberIs(id: Id): Appointment -> bool
  {
    (a: Appointment) => a.barberId == id
  }

  /** What the map yields for a barber id: the revenue and the number of
      the appointments naming it; nothing for a falsy id, which the loop
      skips. */
  function BarberTally(apts: seq<Appointment>, id: Id): Tally
  {
    if id == "" then Tally(0, 0)
    else
      var mine := Filter(apts, BarberIs(id));
      Tally(Sum(mine, PriceOf), |mine|)
  }

  /** `barberRevenueMap.get(id) || { revenue: 0, count: 0 }`. */
  function Lookup(m: map<Id, Tally>, id: Id): Tally
  {
    if id in m then m[id] else Tally(0, 0)
  }

  /** One more appointment adds its price and one visit to its barber's
      tally and leaves the other tallies alone. */
  lemma TallyAppend(apts: seq<Appointment>, a: Appointment, id: Id)
    requires id != ""
    ensures BarberTally(apts + [a], id) ==
      if a.barberId == id then Tally(BarberTally(apts, id).revenue + a.price, BarberTally(apts, id).count + 1)
      else BarberTally(apts, id)
  {
    FilterAppend(apts, [a], BarberIs(id));
    SumAppend(Filter(apts, BarberIs(id)), Filter([a], BarberIs(id)), PriceOf);
  }

  /** The map after the forEach callback has seen one more appointment:
      an appointment with a falsy barberId is skipped. */
  function Recorded(m: map<Id, Tally>, apt: Appointment): map<Id, Tally>
  {
    if apt.barberId == "" then m
    else
      var current := Lookup(m, apt.barberId);
      m[apt.barberId := Tally(current.revenue + apt.price, current.count + 1)]
  }

  /** A map that tallies a list tallies the list plus one appointment once
      that appointment is recorded. */
  lemma RecordedTallies(m: map<Id, Tally>, done: seq<Appointment>, apt: Appointment)
    requires "" !in m
    requires forall id :: Lookup(m, id) == BarberTally(done, id)
    ensures "" !in Recorded(m, apt)
    ensures forall id :: Lookup(Recorded(m, apt), id) == BarberTally(done + [apt], id)
  {
    forall id ensures Lookup(Recorded(m, apt), id) == BarberTally(done + [apt], id) {
      if id != "" {
        TallyAppend(done, apt, id);
      }
    }
  }

  /** The forEach of computeStats that fills barberRevenueMap. */
  method TallyByBarber(apts: seq<Appointment>) returns (m: map<Id, Tally>)
    ensures forall id :: Lookup(m, id) == BarberTally(apts, id)
  {
    m := map[];
    var i := 0;
    while i < |apts|
      invariant 0 <= i <= |apts|
      invariant "" !in m
      invariant forall id :: Lookup(m, id) == BarberTally(apts[..i], id)
    {
      var apt := apts[i];
      RecordedTallies(m, apts[..i], apt);
      assert apts[..i + 1] == apts[..i] + [apt];
      m := Recorded(m, apt);
      i := i + 1;
    }
    assert apts[..i] == apts;
  }

  /** A tally counts only appointments of the list and has revenue only
      when it has visits. */
  lemma TallyFacts(apts: seq<Appointment>, id: Id)
    ensures BarberTally(apts, id).count <= |apts|
    ensures BarberTally(apts, id).count == Count(apts, BarberIs(id)) || id == ""
    ensures BarberTally(apts, id).count == 0 ==> BarberTally(apts, id).revenue == 0
  {
    var mine := Filter(apts, BarberIs(id));
    if mine == [] {
      assert Sum(mine, PriceOf) == 0;
    }
  }

  /** An entry of revenueByBarber. */
  datatype BarberStat = BarberStat(id: Id, name: string, isDefault: bool, revenue: Money, count: nat)

  function StatOf(b: Barber, t: Tally): BarberStat
  {
    BarberStat(b.id, b.name, b.isDefault, t.revenue, t.count)
  }

  function RevenueRank(e: BarberStat): Rank
  {
    Score(e.revenue)
  }

  function HasRevenue(e: BarberStat): bool
  {
    e.revenue > 0
  }

  /** Every barber with its tally, in roster order. */
  function BarberStats(barbers: seq<Barber>, apts: seq<Appointment>): seq<BarberStat>
  {
    Map(barbers, (b: Barber) => StatOf(b, BarberTally(apts, b.id)))
  }

  /** revenueByBarber: the barbers with revenue in the period, highest
      revenue first. */
  function RevenueByBarber(barbers: seq<Barber>, apts: seq<Appointment>): seq<BarberStat>
  {
    SortDesc(Filter(BarberStats(barbers, apts), HasRevenue), RevenueRank)
  }

  /** The list is ordered by revenue, shows a barber exactly when its
      tally has positive revenue, with that barber's name, flag, revenue
      and number of appointments, and has at most one entry per barber: it
      is a reordering of the roster's stats with positive revenue. */
  lemma RevenueByBarberFacts(barbers: seq<Barber>, apts: seq<Appointment>)
    ensures var r := RevenueByBarber(barbers, apts);
      && SortedDesc(r, RevenueRank)
      && multiset(r) == multiset(Filter(BarberStats(barbers, apts), HasRevenue))
      && |r| <= |barbers|
      && (forall e :: e in r ==> e.revenue > 0 && e.count >= 1)
      && (forall e :: e in r <==> exists b :: b in barbers && e == StatOf(b, BarberTally(apts, b.id)) && e.revenue > 0)
  {
    var stats := BarberStats(barbers, apts);
    var r := RevenueByBarber(barbers, apts);
    var kept := Filter(stats, HasRevenue);
    assert multiset(r) == multiset(kept);
    forall e ensures e in r <==> exists b :: b in barbers && e == StatOf(b, BarberTally(apts, b.id)) && e.revenue > 0 {
      assert e in r <==> e in multiset(kept);
      assert e in r <==> e in kept;
      assert e in kept <==> e in stats && e.revenue > 0;
      InBarberStats(barbers, apts, e);
    }
    forall e | e in r ensures e.revenue > 0 && e.count >= 1 {
      var b :| b in barbers && e == StatOf(b, BarberTally(apts, b.id)) && e.revenue > 0;
      TallyFacts(apts, b.id);
    }
  }

  /** The stats list holds exactly each barber's stat. */
  lemma InBarberStats(barbers: seq<Barber>, apts: seq<Appointment>, e: BarberStat)
    ensures e in BarberStats(barbers, apts) <==> exists b :: b in barbers && e == StatOf(b, BarberTally(apts, b.id))
  {
    var stats := BarberStats(barbers, apts);
    if e in stats {
      var i :| 0 <= i < |barbers| && stats[i] == e;
      assert barbers[i] in barbers;
    }
    if exists b :: b in barbers && e == StatOf(b, BarberTally(apts, b.id)) {
      var b :| b in barbers && e == StatOf(b, BarberTally(apts, b.id));
      var i :| 0 <= i < |barbers| && barbers[i] == b;
      assert stats[i] == e;
    }
  }

  /** Barbers with equal revenue keep their roster order. */
  lemma RevenueTiesKeepRosterOrder(barbers: seq<Barber>, apts: seq<Appointment>, revenue: Money)
    ensures WithRank(RevenueByBarber(barbers, apts), RevenueRank, Score(revenue))
         == WithRank(Filter(BarberStats(barbers, apts), HasRevenue), RevenueRank, Score(revenue))
  {
    SortStable(Filter(BarberStats(barbers, apts), HasRevenue), RevenueRank, Score(revenue));
  }

  // ---------------------------------------------------------------------
  // computeStats: inactive clients
  // ---------------------------------------------------------------------

  /** An entry of inactiveClients. */
  datatype InactiveClient = InactiveClient(client: Client, daysSince: Option<int>, caption: string)

  /** Not seen for 15 days or more, or never seen. */
  function IsInactive(now: Time): Client -> bool
  {
    (c: Client) => c.lastVisitAt.None? || DaysBetween(c.lastVisitAt.value, now) >= 15
  }

  function Annotate(now: Time): Client -> InactiveClient
  {
    (c: Client) =>
      if c.lastVisitAt.None? then InactiveClient(c, None, "Nunca visitou")
      else
        var days := DaysBetween(c.lastVisitAt.value, now);
        InactiveClient(c, Some(days), IntToString(days) + " dias")
  }

  function InactiveRank(e: InactiveClient): Rank
  {
    DaysSinceRank(e.daysSince)
  }

  /** inactiveClients: not tied to the period, always relative to now. */
  function InactiveClients(clients: seq<Client>, now: Time): seq<InactiveClient>
  {
    SortDesc(Map(Filter(clients, IsInactive(now)), Annotate(now)), InactiveRank)
  }

  /** The list holds one entry per inactive client and nothing else; a
      client never seen is labelled "Nunca visitou", any other one "N dias"
      with N at least 15. */
  lemma InactiveClientsMembers(clients: seq<Client>, now: Time)
    ensures var r := InactiveClients(clients, now);
      && |r| == Count(clients, IsInactive(now))
      && (forall c :: c in clients && IsInactive(now)(c) ==> Annotate(now)(c) in r)
      && (forall e :: e in r ==> e.client in clients && IsInactive(now)(e.client) && e == Annotate(now)(e.client))
  {
    var kept := Filter(clients, IsInactive(now));
    var entries := Map(kept, Annotate(now));
    var r := InactiveClients(clients, now);
    assert multiset(r) == multiset(entries);
    forall e | e in r ensures e.client in kept && e == Annotate(now)(e.client) {
      assert e in multiset(entries);
      var i :| 0 <= i < |entries| && entries[i] == e;
      assert kept[i] in kept;
    }
    forall c | c in clients && IsInactive(now)(c) ensures Annotate(now)(c) in r {
      var i :| 0 <= i < |kept| && kept[i] == c;
      assert entries[i] in multiset(entries);
    }
  }

  /** The caption tells a client never seen from one seen N days ago, and
      an inactive client seen before was seen at least 15 days ago. */
  lemma AnnotateCaption(c: Client, now: Time)
    requires IsInactive(now)(c)
    ensures var e := Annotate(now)(c);
      && (e.daysSince.None? <==> e.caption == "Nunca visitou")
      && (e.daysSince.Some? ==> e.daysSince.value >= 15 && e.caption == IntToString(e.daysSince.value) + " dias")
  {
    var e := Annotate(now)(c);
    if e.daysSince.Some? {
      assert e.caption[|e.caption| - 1] == 's';
    }
  }

  /** Clients never seen come first; the rest follow with the most days
      since their last visit first. */
  lemma InactiveClientsOrder(clients: seq<Client>, now: Time)
    ensures var r := InactiveClients(clients, now);
      && (forall i, j :: 0 <= i < j < |r| && r[j].daysSince.None? ==> r[i].daysSince.None?)
      && (forall i, j :: 0 <= i < j < |r| && r[i].daysSince.Some? && r[j].daysSince.Some? ==>
            r[i].daysSince.value >= r[j].daysSince.value)
  {
    var r := InactiveClients(clients, now);
    assert SortedDesc(r, InactiveRank);
    forall i, j | 0 <= i < j < |r| ensures RankAtLeast(InactiveRank(r[i]), InactiveRank(r[j])) {
    }
  }

  // ---------------------------------------------------------------------
  // computeStats
  // ---------------------------------------------------------------------

  datatype Stats = Stats(
    clientsServed: nat, revenue: Money,
    inactiveClients: seq<InactiveClient>, revenueByBarber: seq<BarberStat>)

  function ClientOf(a: Appointment): Id
  {
    a.clientId
  }

  /** The distinct clients of a list of appointments. */
  function ClientsServed(apts: seq<Appointment>): nat
  {
    |Image(apts, ClientOf)|
  }

  /** At most one client per appointment, and at least one when there is
      an appointment; the count ignores repeat visits. */
  lemma ClientsServedBounds(apts: seq<Appointment>, a: Appointment)
    ensures ClientsServed(apts) <= |apts|
    ensures ClientsServed(apts) == 0 <==> apts == []
    ensures a in apts ==> ClientsServed(apts + [a]) == ClientsServed(apts)
  {
    ImageSize(apts, ClientOf);
    if apts != [] {
      assert apts[0].clientId in Image(apts, ClientOf);
    }
    ImageAppend(apts, a, ClientOf);
    if a in apts {
      var i :| 0 <= i < |apts| && apts[i] == a;
      assert ClientOf(apts[i]) == ClientOf(a);
      assert Image(apts, ClientOf) + {ClientOf(a)} == Image(apts, ClientOf);
    }
  }

  /** computeStats on a loaded (migrated, so with a barber list) document,
      with "now" passed in. */
  method ComputeStats(s: Snapshot, period: Period, now: Time) returns (stats: Stats)
    requires s.barbers.Some?
    ensures var apts := AppointmentsInPeriod(s.appointments, DateRangeOf(period, now), now);
      && stats.clientsServed == ClientsServed(apts)
      && stats.revenue == Sum(apts, PriceOf)
      && stats.revenueByBarber == RevenueByBarber(s.barbers.value, apts)
      && stats.inactiveClients == InactiveClients(s.clients, now)
  {
    var apts := AppointmentsInPeriod(s.appointments, DateRangeOf(period, now), now);
    var tallies := TallyByBarber(apts);
    var barbers := s.barbers.value;
    var rows := Map(barbers, (b: Barber) => StatOf(b, Lookup(tallies, b.id)));
    assert rows == BarberStats(barbers, apts);
    var revenueByBarber := SortDesc(Filter(rows, HasRevenue), RevenueRank);
    stats := Stats(ClientsServed(apts), Sum(apts, PriceOf), InactiveClients(s.clients, now), revenueByBarber);
  }
}
