/** The persisted document and its mutation helpers (src/storage/db.js).
    Loading and saving through localStorage are not modelled: a Document
    object is the in-memory record that loadDB returns and saveDB writes. */
module Db {
  import opened Base
  import opened Schema

  /** The schema version the current code writes. */
  const CurrentVersion := 3

  /** ui.lastSeenRequestAt: missing (undefined), null, or an instant. */
  datatype LastSeen = Undefined | NullValue | SeenAt(time: Time)

  /** The ui object: missing, or present with its lastSeenRequestAt. */
  datatype Ui = NoUi | UiRecord(lastSeenRequestAt: LastSeen)

  /** The barber that migration creates when a document has none. */
  function SeedBarber(id: Id): Barber
  {
    Barber(id, "Barbeiro 1", "", true)
  }

  /** The whole document as one value. The barbers and schedulingRequests
      arrays may be missing from documents written by older versions. */
  datatype Snapshot = Snapshot(
    version: Option<int>,
    barbershopName: string,
    services: seq<Service>,
    clients: seq<Client>,
    barbers: Option<seq<Barber>>,
    defaultBarberId: Id,
    appointments: seq<Appointment>,
    schedulingRequests: Option<seq<SchedulingRequest>>,
    ui: Ui)

  datatype Migration = Migration(doc: Snapshot, changed: bool)

  /** createInitialDB, with the four randomUUID ids passed in: the current
      version, three services (prices in cents), one default barber, and
      empty clients, appointments and requests. */
  function InitialDB(barberId: Id, cutId: Id, beardId: Id, comboId: Id): Snapshot
  {
    Snapshot(Some(CurrentVersion), "Barbearia Ousadia",
      [Service(cutId, "Corte", 3000), Service(beardId, "Barba", 2500), Service(comboId, "Corte + Barba", 5000)],
      [], Some([SeedBarber(barberId)]), barberId, [], Some([]), UiRecord(NullValue))
  }

  // ---------------------------------------------------------------------
  // migrateDB, step by step
  // ---------------------------------------------------------------------

  /** Appointments without a barber get the given one. */
  function Backfilled(apts: seq<Appointment>, id: Id): (r: seq<Appointment>)
    ensures |r| == |apts|
    ensures forall i :: 0 <= i < |apts| ==>
      r[i] == apts[i].(barberId := if apts[i].barberId == "" then id else apts[i].barberId)
  {
    Map(apts, (a: Appointment) => a.(barberId := if a.barberId == "" then id else a.barberId))
  }

  /** Step 1: no barbers array, so seed one default barber and give it
      every appointment lacking a barber. */
  function StepSeedBarbers(s: Snapshot, freshId: Id): Migration
  {
    if s.barbers.None? then
      Migration(s.(barbers := Some([SeedBarber(freshId)]), defaultBarberId := freshId,
                   appointments := Backfilled(s.appointments, freshId)), true)
    else Migration(s, false)
  }

  /** Step 2: no defaultBarberId, so elect the first flagged barber, or
      else the first barber, and flag it. */
  function StepElectDefault(s: Snapshot): Migration
    requires s.barbers.Some?
  {
    var bs := s.barbers.value;
    if s.defaultBarberId == "" && |bs| > 0 then
      var k := FindIndex(bs, (b: Barber) => b.isDefault);
      var i := if k >= 0 then k else 0;
      Migration(s.(defaultBarberId := bs[i].id,
                   barbers := Some(bs[i := bs[i].(isDefault := true)])), true)
    else Migration(s, false)
  }

  /** Step 3: no barber flagged, so flag the first one. */
  function StepFlagFirst(s: Snapshot): Migration
    requires s.barbers.Some?
  {
    var bs := s.barbers.value;
    if (forall b :: b in bs ==> !b.isDefault) && |bs| > 0 then
      Migration(s.(barbers := Some(bs[0 := bs[0].(isDefault := true)]),
                   defaultBarberId := bs[0].id), true)
    else Migration(s, false)
  }

  /** Step 4: no schedulingRequests array, so start an empty one. */
  function StepRequests(s: Snapshot): Migration
  {
    if s.schedulingRequests.None? then Migration(s.(schedulingRequests := Some([])), true)
    else Migration(s, false)
  }

  /** Steps 5 and 6: no ui object, or one without lastSeenRequestAt. */
  function StepUi(s: Snapshot): Migration
  {
    match s.ui
    case NoUi => Migration(s.(ui := UiRecord(NullValue)), true)
    case UiRecord(Undefined) => Migration(s.(ui := UiRecord(NullValue)), true)
    case _ => Migration(s, false)
  }

  /** Step 7: a numeric version below 3 becomes 3 (a missing version is
      left alone, as undefined < 3 is false). */
  function StepVersion(s: Snapshot): Migration
  {
    if s.version.Some? && s.version.value < CurrentVersion then
      Migration(s.(version := Some(CurrentVersion)), true)
    else Migration(s, false)
  }

  /** migrateDB: the steps in order; `changed` is the source's `migrated`. */
  function Migrate(s: Snapshot, freshId: Id): Migration
  {
    var m1 := StepSeedBarbers(s, freshId);
    var m2 := StepElectDefault(m1.doc);
    var m3 := StepFlagFirst(m2.doc);
    var m4 := StepRequests(m3.doc);
    var m5 := StepUi(m4.doc);
    var m6 := StepVersion(m5.doc);
    Migration(m6.doc,
      m1.changed || m2.changed || m3.changed || m4.changed || m5.changed || m6.changed)
  }

  ghost predicate HasDefault(bs: seq<Barber>)
  {
    exists b :: b in bs && b.isDefault
  }

  /** What a migrated document satisfies. */
  ghost predicate Upgraded(s: Snapshot)
  {
    && s.barbers.Some?
    && (|s.barbers.value| > 0 ==> HasDefault(s.barbers.value))
    && s.schedulingRequests.Some?
    && s.ui.UiRecord? && !s.ui.lastSeenRequestAt.Undefined?
    && (s.version.Some? ==> s.version.value >= CurrentVersion)
  }

  /** Electing a default touches only the barbers' flags and
      defaultBarberId, and leaves a flagged barber when it acts. */
  lemma ElectDefaultKeeps(s: Snapshot)
    requires s.barbers.Some?
    ensures var d := StepElectDefault(s).doc;
      && d == s.(barbers := d.barbers, defaultBarberId := d.defaultBarberId)
      && d.barbers.Some? && BarberIds(d.barbers.value) == BarberIds(s.barbers.value)
      && (StepElectDefault(s).changed ==> HasDefault(d.barbers.value))
  {
    var bs := s.barbers.value;
    if s.defaultBarberId == "" && |bs| > 0 {
      var k := FindIndex(bs, (b: Barber) => b.isDefault);
      var i := if k >= 0 then k else 0;
      var bs2 := bs[i := bs[i].(isDefault := true)];
      assert bs2[i] in bs2;
      assert BarberIds(bs2) == BarberIds(bs);
    }
  }

  /** Flagging the first barber touches only that flag and
      defaultBarberId, and a non-empty list ends with a flagged barber. */
  lemma FlagFirstKeeps(s: Snapshot)
    requires s.barbers.Some?
    ensures var d := StepFlagFirst(s).doc;
      && d == s.(barbers := d.barbers, defaultBarberId := d.defaultBarberId)
      && d.barbers.Some? && BarberIds(d.barbers.value) == BarberIds(s.barbers.value)
      && (|d.barbers.value| > 0 ==> HasDefault(d.barbers.value))
  {
    var bs := s.barbers.value;
    if (forall b :: b in bs ==> !b.isDefault) && |bs| > 0 {
      var bs2 := bs[0 := bs[0].(isDefault := true)];
      assert bs2[0] in bs2;
      assert BarberIds(bs2) == BarberIds(bs);
    }
  }

  /** Steps 1 to 3, which settle the barbers. */
  function BarberSteps(s: Snapshot, freshId: Id): Snapshot
  {
    var m1 := StepSeedBarbers(s, freshId);
    var m2 := StepElectDefault(m1.doc);
    StepFlagFirst(m2.doc).doc
  }

  /** Steps 4 to 7, which fill in the requests, the ui and the version. */
  function LateSteps(s: Snapshot): Snapshot
  {
    StepVersion(StepUi(StepRequests(s).doc).doc).doc
  }

  /** The document migrateDB produces is the two groups of steps in turn. */
  lemma MigrateDoc(s: Snapshot, freshId: Id)
    ensures Migrate(s, freshId).doc == LateSteps(BarberSteps(s, freshId))
  {
  }

  /** Steps 4 to 7 touch only schedulingRequests, ui and version: they
      leave an existing request list alone, define lastSeenRequestAt and
      raise a numeric version to at least 3. */
  lemma LateStepsKeep(s: Snapshot)
    ensures var d := LateSteps(s);
      && d == s.(schedulingRequests := d.schedulingRequests, ui := d.ui, version := d.version)
      && d.schedulingRequests.Some?
      && (s.schedulingRequests.Some? ==> d.schedulingRequests == s.schedulingRequests)
      && d.ui.UiRecord? && !d.ui.lastSeenRequestAt.Undefined?
      && (s.version.Some? ==> d.version.Some? && d.version.value >= CurrentVersion && d.version.value >= s.version.value)
      && (s.version.None? ==> d.version.None?)
  {
  }

  /** A missing barber list becomes the seeded default barber, which every
      appointment lacking a barber then references. */
  lemma SeededBarbers(s: Snapshot, freshId: Id)
    requires s.barbers.None?
    ensures var d := BarberSteps(s, freshId);
      d == s.(barbers := Some([SeedBarber(freshId)]), defaultBarberId := freshId,
               appointments := Backfilled(s.appointments, freshId))
  {
    var m1 := StepSeedBarbers(s, freshId);
    var seed := [SeedBarber(freshId)];
    assert m1.doc.barbers == Some(seed);
    assert seed[0] in seed && seed[0].isDefault;
    assert seed[0 := seed[0].(isDefault := true)] == seed;
    var m2 := StepElectDefault(m1.doc);
    assert m2.doc == m1.doc;
    assert StepFlagFirst(m2.doc).doc == m2.doc;
  }

  /** Steps 1 to 3 touch only the barbers, defaultBarberId and the
      appointments; an existing list keeps its ids in order and its
      appointments, and a non-empty list ends with a flagged barber. */
  lemma BarberStepsKeep(s: Snapshot, freshId: Id)
    ensures var d := BarberSteps(s, freshId);
      && d == s.(barbers := d.barbers, defaultBarberId := d.defaultBarberId, appointments := d.appointments)
      && d.barbers.Some?
      && (|d.barbers.value| > 0 ==> HasDefault(d.barbers.value))
      && (s.barbers.Some? ==>
            BarberIds(d.barbers.value) == BarberIds(s.barbers.value) && d.appointments == s.appointments)
  {
    var m1 := StepSeedBarbers(s, freshId);
    var m2 := StepElectDefault(m1.doc);
    ElectDefaultKeeps(m1.doc);
    FlagFirstKeeps(m2.doc);
    if s.barbers.None? {
      SeededBarbers(s, freshId);
      assert SeedBarber(freshId) in [SeedBarber(freshId)];
    }
  }

  /** After migrateDB: barbers and schedulingRequests are arrays, a
      non-empty barber list has a flagged barber, ui.lastSeenRequestAt is
      defined, and a numeric version is at least 3 and never lowered. */
  lemma MigrateUpgrades(s: Snapshot, freshId: Id)
    ensures var d := Migrate(s, freshId).doc;
      && Upgraded(d)
      && (s.version.Some? ==> d.version.Some? && d.version.value >= s.version.value)
      && (s.version.None? ==> d.version.None?)
  {
    MigrateDoc(s, freshId);
    BarberStepsKeep(s, freshId);
    LateStepsKeep(BarberSteps(s, freshId));
  }

  /** migrateDB removes nothing: services, clients and the shop name are
      kept, existing requests are kept, existing barbers keep their ids in
      order, and appointments are untouched. A missing barber list becomes
      the seeded default barber, which every appointment lacking a barber
      then references. */
  lemma MigrateKeeps(s: Snapshot, freshId: Id)
    ensures var d := Migrate(s, freshId).doc;
      && (s.barbers.None? ==>
            && d.barbers == Some([SeedBarber(freshId)]) && d.defaultBarberId == freshId
            && d.appointments == Backfilled(s.appointments, freshId))
      && (s.barbers.Some? ==>
            BarberIds(d.barbers.value) == BarberIds(s.barbers.value) && d.appointments == s.appointments)
      && d.services == s.services && d.clients == s.clients
      && d.barbershopName == s.barbershopName
      && (s.schedulingRequests.Some? ==> d.schedulingRequests == s.schedulingRequests)
  {
    MigrateDoc(s, freshId);
    BarberStepsKeep(s, freshId);
    LateStepsKeep(BarberSteps(s, freshId));
    if s.barbers.None? {
      SeededBarbers(s, freshId);
    }
  }

  /** Steps 1 to 3 keep barber ids non-empty when they start so, and leave
      a non-empty defaultBarberId beside a non-empty list. */
  lemma BarberStepsIds(s: Snapshot, freshId: Id)
    requires freshId != ""
    requires s.barbers.Some? ==> forall b :: b in s.barbers.value ==> b.id != ""
    ensures var d := BarberSteps(s, freshId);
      && d.barbers.Some?
      && (|d.barbers.value| > 0 ==> d.defaultBarberId != "")
      && (forall b :: b in d.barbers.value ==> b.id != "")
  {
    var m1 := StepSeedBarbers(s, freshId);
    var m2 := StepElectDefault(m1.doc);
    var m3 := StepFlagFirst(m2.doc);
    var bs1, bs2, bs3 := m1.doc.barbers.value, m2.doc.barbers.value, m3.doc.barbers.value;
    assert forall b :: b in bs1 ==> b.id != "";
    ElectDefaultKeeps(m1.doc);
    FlagFirstKeeps(m2.doc);
    SameIdsNonEmpty(bs1, bs2);
    SameIdsNonEmpty(bs2, bs3);
    if |bs3| > 0 {
      assert bs2[0] in bs2;
      if m2.changed {
        assert m2.doc.defaultBarberId in BarberIds(bs1) by {
          var k := FindIndex(bs1, (b: Barber) => b.isDefault);
          var i := if k >= 0 then k else 0;
          assert BarberIds(bs1)[i] == bs1[i].id;
        }
      }
    }
  }

  /** Rosters with the same ids in order agree on every id being non-empty. */
  lemma SameIdsNonEmpty(bs: seq<Barber>, bs': seq<Barber>)
    requires BarberIds(bs) == BarberIds(bs')
    requires forall b :: b in bs ==> b.id != ""
    ensures forall b :: b in bs' ==> b.id != ""
    ensures forall x :: x in BarberIds(bs) ==> x != ""
  {
    forall b | b in bs' ensures b.id != "" {
      var i :| 0 <= i < |bs'| && bs'[i] == b;
      assert BarberIds(bs)[i] == bs[i].id;
      assert bs[i] in bs;
    }
    forall x | x in BarberIds(bs) ensures x != "" {
      var i :| 0 <= i < |bs| && BarberIds(bs)[i] == x;
      assert bs[i] in bs;
    }
  }

  /** A migrated document whose barber ids are non-empty (randomUUID ids
      always are) has a non-empty defaultBarberId when it has barbers. */
  lemma MigrateSetsDefaultId(s: Snapshot, freshId: Id)
    requires freshId != ""
    requires s.barbers.Some? ==> forall b :: b in s.barbers.value ==> b.id != ""
    ensures var d := Migrate(s, freshId).doc;
      && (|d.barbers.value| > 0 ==> d.defaultBarberId != "")
      && (forall b :: b in d.barbers.value ==> b.id != "")
  {
    MigrateDoc(s, freshId);
    BarberStepsIds(s, freshId);
    LateStepsKeep(BarberSteps(s, freshId));
  }

  /** migrateDB is idempotent: a second run reports no change and leaves
      the document as it is, whatever id it would draw. */
  lemma {:induction false} MigrateIdempotent(s: Snapshot, freshId: Id, freshId2: Id)
    requires freshId != ""
    requires s.barbers.Some? ==> forall b :: b in s.barbers.value ==> b.id != ""
    ensures var d := Migrate(s, freshId).doc;
      Migrate(d, freshId2) == Migration(d, false)
  {
    var d := Migrate(s, freshId).doc;
    MigrateUpgrades(s, freshId);
    MigrateSetsDefaultId(s, freshId);
    var bs := d.barbers.value;
    assert StepSeedBarbers(d, freshId2) == Migration(d, false);
    assert StepElectDefault(d) == Migration(d, false);
    if |bs| > 0 {
      var b :| b in bs && b.isDefault;
      assert !(forall x :: x in bs ==> !x.isDefault);
    }
    assert StepFlagFirst(d) == Migration(d, false);
  }

  /** A freshly seeded document is already current: migrating it reports
      no change, whatever id migration would draw. */
  lemma InitialIsCurrent(barberId: Id, cutId: Id, beardId: Id, comboId: Id, freshId: Id)
    requires barberId != ""
    ensures var s := InitialDB(barberId, cutId, beardId, comboId);
      Upgraded(s) && Migrate(s, freshId) == Migration(s, false)
  {
    var bs := [SeedBarber(barberId)];
    assert bs[0] in bs && bs[0].isDefault;
  }

  /** Migration promises at least one flagged barber, not exactly one, and
      does not check defaultBarberId against the flags: a document with two
      flagged barbers and a dangling defaultBarberId comes back unchanged. */
  lemma MigrateKeepsTwoDefaults()
    ensures var bs := [Barber("a", "A", "", true), Barber("b", "B", "", true)];
      var s := Snapshot(Some(3), "", [], [], Some(bs), "gone", [], Some([]), UiRecord(NullValue));
      Migrate(s, "fresh") == Migration(s, false)
  {
    var bs := [Barber("a", "A", "", true), Barber("b", "B", "", true)];
    assert bs[0] in bs && bs[0].isDefault;
  }

  // ---------------------------------------------------------------------
  // Barber helpers
  // ---------------------------------------------------------------------

  /** The barbers after setDefaultBarber(db, id): each flag says whether
      the barber's id is id; everything else is as it was. */
  function WithDefault(bs: seq<Barber>, id: Id): (r: seq<Barber>)
    ensures |r| == |bs|
    ensures forall i :: 0 <= i < |bs| ==> r[i] == bs[i].(isDefault := bs[i].id == id)
  {
    Map(bs, (b: Barber) => b.(isDefault := b.id == id))
  }

  function IsDefaultBarber(b: Barber): bool
  {
    b.isDefault
  }

  /** Number of flagged barbers. */
  function DefaultCount(bs: seq<Barber>): nat
  {
    Count(bs, IsDefaultBarber)
  }

  function HasId(id: Id): Barber -> bool
  {
    (b: Barber) => b.id == id
  }

  /** After setDefaultBarber(db, id) exactly as many barbers are flagged as
      carry the id: one when ids are unique and id is present, none for an
      unknown id. */
  lemma {:induction false} WithDefaultCount(bs: seq<Barber>, id: Id)
    ensures DefaultCount(WithDefault(bs, id)) == Count(bs, HasId(id))
  {
    if bs != [] {
      var r := WithDefault(bs, id);
      assert r[1..] == WithDefault(bs[1..], id);
      CountCons(r, IsDefaultBarber);
      CountCons(bs, HasId(id));
      WithDefaultCount(bs[1..], id);
    }
  }

  /** With unique ids, an id occurs at most once; once if it is present. */
  lemma {:induction false} UniqueIdCount(bs: seq<Barber>, id: Id)
    requires UniqueBarberIds(bs)
    ensures Count(bs, HasId(id)) == if exists b :: b in bs && b.id == id then 1 else 0
  {
    if bs != [] {
      var rest := bs[1..];
      CountCons(bs, HasId(id));
      UniqueTail(bs);
      UniqueIdCount(rest, id);
      if bs[0].id == id {
        forall b | b in rest ensures b.id != id {
          var j :| 0 <= j < |rest| && rest[j] == b;
          assert bs[j + 1] == b;
        }
      } else {
        forall b | b in bs && b.id == id ensures b in rest {
          var j :| 0 <= j < |bs| && bs[j] == b;
          assert rest[j - 1] == b;
        }
      }
    }
  }

  /** The appointments after reassignAppointmentsBarber(db, from, to):
      exactly the appointments of `from` now name `to`; nothing else
      changes, and length and order are kept. */
  function Reassigned(apts: seq<Appointment>, from: Id, to: Id): (r: seq<Appointment>)
    ensures |r| == |apts|
    ensures forall i :: 0 <= i < |apts| ==>
      r[i] == if apts[i].barberId == from then apts[i].(barberId := to) else apts[i]
  {
    Map(apts, (a: Appointment) => if a.barberId == from then a.(barberId := to) else a)
  }

  /** After reassignment no appointment names `from` (unless from == to),
      and `to` holds the appointments of both. */
  lemma {:induction false} ReassignedCounts(apts: seq<Appointment>, from: Id, to: Id)
    requires from != to
    ensures forall a :: a in Reassigned(apts, from, to) ==> a.barberId != from
    ensures Count(Reassigned(apts, from, to), (a: Appointment) => a.barberId == to)
         == Count(apts, (a: Appointment) => a.barberId == to)
          + Count(apts, (a: Appointment) => a.barberId == from)
  {
    var pTo := (a: Appointment) => a.barberId == to;
    var pFrom := (a: Appointment) => a.barberId == from;
    if apts != [] {
      var r := Reassigned(apts, from, to);
      ReassignedCounts(apts[1..], from, to);
      assert r[1..] == Reassigned(apts[1..], from, to);
      CountCons(r, pTo);
      CountCons(apts, pTo);
      CountCons(apts, pFrom);
    }
    forall a | a in Reassigned(apts, from, to) ensures a.barberId != from {
      var j :| 0 <= j < |apts| && Reassigned(apts, from, to)[j] == a;
    }
  }

  /** getDefaultBarber: the first flagged barber, else the first barber,
      else none. */
  function GetDefaultBarber(bs: seq<Barber>): (r: Option<Barber>)
    ensures r.None? <==> bs == []
    ensures r.Some? ==> r.value in bs
    ensures HasDefault(bs) ==>
      && r.Some? && r.value.isDefault
      && exists i :: 0 <= i < |bs| && bs[i] == r.value && forall j :: 0 <= j < i ==> !bs[j].isDefault
    ensures !HasDefault(bs) && bs != [] ==> r == Some(bs[0])
  {
    var k := FindIndex(bs, IsDefaultBarber);
    if k >= 0 then Some(bs[k])
    else if bs != [] then Some(bs[0])
    else None
  }

  // ---------------------------------------------------------------------
  // Scheduling requests
  // ---------------------------------------------------------------------

  function IsPending(r: SchedulingRequest): bool
  {
    r.status == Pending
  }

  /** countPendingRequests. */
  function CountPendingRequests(reqs: seq<SchedulingRequest>): (n: nat)
    ensures n <= |reqs|
    ensures n == 0 <==> forall r :: r in reqs ==> r.status != Pending
  {
    var f := Filter(reqs, IsPending);
    assert f != [] ==> f[0] in f;
    |f|
  }

  /** The lastSeenRequestAt a document carries, if it is truthy. */
  function LastSeenOf(ui: Ui): Option<Time>
  {
    if ui.UiRecord? && ui.lastSeenRequestAt.SeenAt? then Some(ui.lastSeenRequestAt.time) else None
  }

  /** countNewRequests: pending requests created after lastSeenRequestAt;
      all pending requests when it is unset. */
  function CountNewRequests(reqs: seq<SchedulingRequest>, ui: Ui): (n: nat)
    ensures n <= CountPendingRequests(reqs)
    ensures LastSeenOf(ui).None? ==> n == CountPendingRequests(reqs)
    ensures LastSeenOf(ui).Some? ==> (n == 0 <==> forall r :: r in reqs && r.status == Pending ==> r.createdAt <= LastSeenOf(ui).value)
  {
    match LastSeenOf(ui)
    case None => Count(reqs, IsPending)
    case Some(seen) =>
      var p := (r: SchedulingRequest) => r.status == Pending && r.createdAt > seen;
      CountMonotone(reqs, p, IsPending);
      var f := Filter(reqs, p);
      assert f != [] ==> f[0] in f;
      |f|
  }

  /** The fields the public form hands to createSchedulingRequest; "" is
      a falsy serviceId, barberId or notes. */
  datatype RequestFields = RequestFields(
    clientName: string, clientPhone: string, preferredDate: string, preferredTime: string,
    serviceId: Id, barberId: Id, notes: string)

  /** Optional id of a possibly falsy one (`x || null`). */
  function OrNull(id: Id): (r: Option<Id>)
    ensures r.None? <==> id == ""
    ensures r.Some? ==> r.value == id
  {
    if id == "" then None else Some(id)
  }

  /** The record createSchedulingRequest builds. */
  function NewRequest(f: RequestFields, id: Id, now: Time): SchedulingRequest
  {
    SchedulingRequest(id, f.clientName, f.clientPhone, f.preferredDate, f.preferredTime,
      OrNull(f.serviceId), OrNull(f.barberId), f.notes, Pending, now, now)
  }

  function HasRequestId(id: Id): SchedulingRequest -> bool
  {
    (r: SchedulingRequest) => r.id == id
  }

  /** The requests after updateRequestStatus: the first request with the
      id gets the status and updatedAt = now; the others are untouched. */
  function StatusUpdated(reqs: seq<SchedulingRequest>, id: Id, status: Status, now: Time): (r: seq<SchedulingRequest>)
    ensures |r| == |reqs|
    ensures (forall q :: q in reqs ==> q.id != id) ==> r == reqs
    ensures var k := FindIndex(reqs, HasRequestId(id));
      k >= 0 ==>
        && reqs[k].id == id && (forall i :: 0 <= i < k ==> reqs[i].id != id)
        && r[k] == reqs[k].(status := status, updatedAt := now)
        && (forall i :: 0 <= i < |reqs| && i != k ==> r[i] == reqs[i])
  {
    var k := FindIndex(reqs, HasRequestId(id));
    if k < 0 then reqs else reqs[k := reqs[k].(status := status, updatedAt := now)]
  }

  /** The pending count after a status change: the request leaves the
      count if it was pending and joins it if its new status is PENDING. */
  lemma StatusUpdatedPending(reqs: seq<SchedulingRequest>, id: Id, status: Status, now: Time)
    requires exists q :: q in reqs && q.id == id
    ensures var k := FindIndex(reqs, HasRequestId(id));
      0 <= k
      && CountPendingRequests(StatusUpdated(reqs, id, status, now))
         == CountPendingRequests(reqs)
            - (if reqs[k].status == Pending then 1 else 0)
            + (if status == Pending then 1 else 0)
  {
    var k := FindIndex(reqs, HasRequestId(id));
    var q :| q in reqs && q.id == id;
    assert HasRequestId(id)(q);
    CountUpdate(reqs, k, reqs[k].(status := status, updatedAt := now), IsPending);
  }

  // ---------------------------------------------------------------------
  // The document
  // ---------------------------------------------------------------------

  class Document {
    var version: Option<int>
    var barbershopName: string
    var services: seq<Service>
    var clients: seq<Client>
    var barbers: Option<seq<Barber>>
    var defaultBarberId: Id
    var appointments: seq<Appointment>
    var schedulingRequests: Option<seq<SchedulingRequest>>
    var ui: Ui

    function State(): Snapshot
      reads this
    {
      Snapshot(version, barbershopName, services, clients, barbers, defaultBarberId,
               appointments, schedulingRequests, ui)
    }

    /** The shape every loaded (hence migrated) document has, which the
        pages rely on when they index barbers and schedulingRequests. */
    ghost predicate Loaded()
      reads this
    {
      barbers.Some? && schedulingRequests.Some?
    }

    /** migrateDB: upgrades the document in place, step by step, and
        reports whether anything changed. */
    method MigrateDB(freshId: Id) returns (migrated: bool)
      modifies this
      ensures Migration(State(), migrated) == Migrate(old(State()), freshId)
    {
      var c1 := SeedBarbers(freshId);
      var c2 := ElectDefault();
      var c3 := FlagFirst();
      var c4 := AddRequests();
      var c5 := FillUi();
      var c6 := RaiseVersion();
      migrated := c1 || c2 || c3 || c4 || c5 || c6;
    }

    method SeedBarbers(freshId: Id) returns (changed: bool)
      modifies this
      ensures Migration(State(), changed) == StepSeedBarbers(old(State()), freshId)
    {
      changed := false;
      if barbers.None? {
        barbers := Some([SeedBarber(freshId)]);
        defaultBarberId := freshId;
        changed := true;
        appointments := Backfilled(appointments, freshId);
      }
    }

    method ElectDefault() returns (changed: bool)
      requires barbers.Some?
      modifies this
      ensures Migration(State(), changed) == StepElectDefault(old(State()))
    {
      changed := false;
      var bs := barbers.value;
      if defaultBarberId == "" && |bs| > 0 {
        var k := FindIndex(bs, (b: Barber) => b.isDefault);
        var i := if k >= 0 then k else 0;
        defaultBarberId := bs[i].id;
        barbers := Some(bs[i := bs[i].(isDefault := true)]);
        changed := true;
      }
    }

    method FlagFirst() returns (changed: bool)
      requires barbers.Some?
      modifies this
      ensures Migration(State(), changed) == StepFlagFirst(old(State()))
    {
      changed := false;
      var bs := barbers.value;
      var hasDefault := exists b :: b in bs && b.isDefault;
      if !hasDefault && |bs| > 0 {
        barbers := Some(bs[0 := bs[0].(isDefault := true)]);
        defaultBarberId := bs[0].id;
        changed := true;
      }
    }

    method AddRequests() returns (changed: bool)
      modifies this
      ensures Migration(State(), changed) == StepRequests(old(State()))
    {
      changed := false;
      if schedulingRequests.None? {
        schedulingRequests := Some([]);
        changed := true;
      }
    }

    method FillUi() returns (changed: bool)
      modifies this
      ensures Migration(State(), changed) == StepUi(old(State()))
    {
      changed := false;
      if ui.NoUi? {
        ui := UiRecord(NullValue);
        changed := true;
      }
      if ui.UiRecord? && ui.lastSeenRequestAt.Undefined? {
        ui := UiRecord(NullValue);
        changed := true;
      }
    }

    method RaiseVersion() returns (changed: bool)
      modifies this
      ensures Migration(State(), changed) == StepVersion(old(State()))
    {
      changed := false;
      if version.Some? && version.value < CurrentVersion {
        version := Some(CurrentVersion);
        changed := true;
      }
    }

    /** setDefaultBarber: visits every barber and flags exactly those with
        the id, then records the id (even one no barber has). */
    method SetDefaultBarber(id: Id)
      requires barbers.Some?
      modifies this
      ensures barbers == Some(WithDefault(old(barbers.value), id))
      ensures defaultBarberId == id
      ensures State() == old(State()).(barbers := barbers, defaultBarberId := id)
    {
      var bs := barbers.value;
      var i := 0;
      while i < |bs|
        invariant 0 <= i <= |bs| == |old(barbers.value)|
        invariant bs[..i] == WithDefault(old(barbers.value)[..i], id)
        invariant bs[i..] == old(barbers.value)[i..]
      {
        bs := bs[i := bs[i].(isDefault := bs[i].id == id)];
        i := i + 1;
      }
      assert bs == bs[..i] && old(barbers.value) == old(barbers.value)[..i];
      barbers := Some(bs);
      defaultBarberId := id;
    }

    /** reassignAppointmentsBarber. */
    method ReassignAppointmentsBarber(from: Id, to: Id)
      modifies this
      ensures appointments == Reassigned(old(appointments), from, to)
      ensures State() == old(State()).(appointments := appointments)
    {
      appointments := Reassigned(appointments, from, to);
    }

    /** updateLastSeenRequestAt, with "now" passed in. */
    method UpdateLastSeenRequestAt(now: Time)
      modifies this
      ensures ui == UiRecord(SeenAt(now))
      ensures State() == old(State()).(ui := ui)
    {
      ui := UiRecord(SeenAt(now));
    }

    /** createSchedulingRequest: appends one PENDING request stamped with
        now and returns it; earlier requests are untouched. */
    method CreateSchedulingRequest(f: RequestFields, freshId: Id, now: Time)
      returns (req: SchedulingRequest)
      requires schedulingRequests.Some?
      modifies this
      ensures req == NewRequest(f, freshId, now)
      ensures req.status == Pending && req.createdAt == req.updatedAt == now
      ensures schedulingRequests == Some(old(schedulingRequests.value) + [req])
      ensures State() == old(State()).(schedulingRequests := schedulingRequests)
    {
      req := NewRequest(f, freshId, now);
      schedulingRequests := Some(schedulingRequests.value + [req]);
    }

    /** updateRequestStatus: sets the status and updatedAt of the first
        request with the id and returns it; on an unknown id nothing
        changes and nothing is returned. */
    method UpdateRequestStatus(id: Id, status: Status, now: Time)
      returns (found: Option<SchedulingRequest>)
      requires schedulingRequests.Some?
      modifies this
      ensures schedulingRequests == Some(StatusUpdated(old(schedulingRequests.value), id, status, now))
      ensures found.None? <==> forall q :: q in old(schedulingRequests.value) ==> q.id != id
      ensures found.Some? ==> found.value.id == id && found.value.status == status
                              && found.value.updatedAt == now && found.value in schedulingRequests.value
      ensures State() == old(State()).(schedulingRequests := schedulingRequests)
    {
      var reqs := schedulingRequests.value;
      var k := FindIndex(reqs, HasRequestId(id));
      if k < 0 {
        found := None;
      } else {
        var updated := reqs[k].(status := status, updatedAt := now);
        schedulingRequests := Some(reqs[k := updated]);
        found := Some(updated);
        assert schedulingRequests.value[k] == updated;
      }
    }
  }
}
