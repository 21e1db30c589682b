/** The records held in the barbershop document (src/storage/db.js). */
module Schema {
  import opened Base

  /** Identifiers are the strings crypto.randomUUID produces. The empty
      string stands for every falsy id (undefined, null or ''). */
  type Id = string

  /** An instant, in milliseconds since the epoch. The source stores ISO
      strings; ISO strings of the same length order like the instants. */
  type Time = int

  /** Money in cents; the source keeps JavaScript numbers. */
  type Money = int

  datatype Service = Service(id: Id, name: string, price: Money)

  datatype Client = Client(id: Id, name: string, phone: string, lastVisitAt: Option<Time>)

  datatype Barber = Barber(id: Id, name: string, phone: string, isDefault: bool)

  datatype Appointment = Appointment(
    id: Id, clientId: Id, serviceId: Id, barberId: Id, price: Money, dateAt: Time)

  /** REQUEST_STATUS, plus whatever other text a stored document may hold. */
  datatype Status = Pending | Seen | Done | Dismissed | Other(name: string)

  datatype SchedulingRequest = SchedulingRequest(
    id: Id,
    clientName: string,
    clientPhone: string,
    preferredDate: string,
    preferredTime: string,
    serviceId: Option<Id>,
    barberId: Option<Id>,
    notes: string,
    status: Status,
    createdAt: Time,
    updatedAt: Time)

  /** The ids of a list of barbers, in order. */
  function BarberIds(bs: seq<Barber>): (r: seq<Id>)
    ensures |r| == |bs| && forall i :: 0 <= i < |bs| ==> r[i] == bs[i].id
  {
    Map(bs, (b: Barber) => b.id)
  }

  /** No two barbers share an id (true of ids drawn from randomUUID). */
  ghost predicate UniqueBarberIds(bs: seq<Barber>)
  {
    forall i, j :: 0 <= i < j < |bs| ==> bs[i].id != bs[j].id
  }

  /** Some barber in bs carries the id. */
  predicate HasBarber(bs: seq<Barber>, id: Id)
  {
    exists b :: b in bs && b.id == id
  }

  /** Filtering barbers keeps their ids distinct. */
  lemma {:induction false} FilterKeepsUnique(bs: seq<Barber>, p: Barber -> bool)
    requires UniqueBarberIds(bs)
    ensures UniqueBarberIds(Filter(bs, p))
  {
    if bs != [] {
      var rest := bs[1..];
      UniqueTail(bs);
      FilterKeepsUnique(rest, p);
      var t := Filter(rest, p);
      if p(bs[0]) {
        forall b | b in t ensures b.id != bs[0].id {
          var j :| 0 <= j < |rest| && rest[j] == b;
          assert bs[j + 1] == b;
        }
        UniqueCons(bs[0], t);
        assert Filter(bs, p) == [bs[0]] + t;
      } else {
        assert Filter(bs, p) == t;
      }
    }
  }

  lemma UniqueTail(bs: seq<Barber>)
    requires bs != [] && UniqueBarberIds(bs)
    ensures UniqueBarberIds(bs[1..])
  {
    var rest := bs[1..];
    forall i, j | 0 <= i < j < |rest| ensures rest[i].id != rest[j].id {
      assert rest[i] == bs[i + 1] && rest[j] == bs[j + 1];
    }
  }

  lemma UniqueCons(b: Barber, t: seq<Barber>)
    requires UniqueBarberIds(t)
    requires forall x :: x in t ==> x.id != b.id
    ensures UniqueBarberIds([b] + t)
  {
    var r := [b] + t;
    forall i, j | 0 <= i < j < |r| ensures r[i].id != r[j].id {
      assert r[j] == t[j - 1];
      if i > 0 {
        assert r[i] == t[i - 1];
      }
    }
  }
}
