/** The Clients page (src/pages/Clients.jsx): adding a client and removing
    one together with its appointments. */
module ClientsPage {
  import opened Base
  import opened Schema
  import opened Db

  /** Every appointment names a client of the document. */
  ghost predicate ClientsLinked(s: Snapshot)
  {
    forall a :: a in s.appointments ==> exists c :: c in s.clients && c.id == a.clientId
  }

  // ---------------------------------------------------------------------
  // handleAdd
  // ---------------------------------------------------------------------

  /** The document after handleAdd: a blank name is ignored; otherwise a
      client with trimmed name and phone and no visit is appended. */
  function AddClientSpec(s: Snapshot, name: string, phone: string, freshId: Id): Snapshot
  {
    if IsBlank(name) then s
    else s.(clients := s.clients + [Client(freshId, Trim(name), Trim(phone), None)])
  }

  method AddClient(db: Document, name: string, phone: string, freshId: Id) returns (added: bool)
    modifies db
    ensures added <==> !IsBlank(name)
    ensures db.State() == AddClientSpec(old(db.State()), name, phone, freshId)
  {
    if IsBlank(name) {
      return false;
    }
    var newClient := Client(freshId, Trim(name), Trim(phone), None);
    db.clients := db.clients + [newClient];
    added := true;
  }

  /** Adding grows the list by exactly one client when the name is not
      blank, keeps the earlier clients in place, stores a non-blank name,
      and keeps every appointment linked. */
  lemma AddClientFacts(s: Snapshot, name: string, phone: string, freshId: Id)
    requires ClientsLinked(s)
    ensures var r := AddClientSpec(s, name, phone, freshId);
      && ClientsLinked(r)
      && r.appointments == s.appointments
      && |r.clients| == |s.clients| + (if IsBlank(name) then 0 else 1)
      && r.clients[..|s.clients|] == s.clients
      && (!IsBlank(name) ==>
            var c := r.clients[|s.clients|];
            c.id == freshId && c.lastVisitAt.None? && c.name != [] && !IsBlank(c.name))
  {
    var r := AddClientSpec(s, name, phone, freshId);
    if !IsBlank(name) {
      TrimIdempotent(name);
      assert r.clients[..|s.clients|] == s.clients;
      forall a | a in r.appointments ensures exists c :: c in r.clients && c.id == a.clientId {
        var c :| c in s.clients && c.id == a.clientId;
        assert c in r.clients;
      }
    }
  }

  // ---------------------------------------------------------------------
  // handleRemove
  // ---------------------------------------------------------------------

  function ClientIdIsNot(id: Id): Client -> bool
  {
    (c: Client) => c.id != id
  }

  function ClientOfIsNot(id: Id): Appointment -> bool
  {
    (a: Appointment) => a.clientId != id
  }

  /** The document after handleRemove(id): the client and all of its
      appointments are dropped; the rest keep their order. */
  function RemoveClientSpec(s: Snapshot, id: Id): Snapshot
  {
    s.(clients := Filter(s.clients, ClientIdIsNot(id)),
       appointments := Filter(s.appointments, ClientOfIsNot(id)))
  }

  method RemoveClient(db: Document, id: Id)
    modifies db
    ensures db.State() == RemoveClientSpec(old(db.State()), id)
  {
    db.clients := Filter(db.clients, ClientIdIsNot(id));
    db.appointments := Filter(db.appointments, ClientOfIsNot(id));
  }

  /** After removal nothing refers to the client, every other client and
      appointment is still there, exactly the client's appointments are
      gone, and appointments stay linked to clients. */
  lemma RemoveClientFacts(s: Snapshot, id: Id)
    requires ClientsLinked(s)
    ensures var r := RemoveClientSpec(s, id);
      && ClientsLinked(r)
      && (forall c :: c in r.clients <==> c in s.clients && c.id != id)
      && (forall a :: a in r.appointments <==> a in s.appointments && a.clientId != id)
      && |r.appointments| + Count(s.appointments, (a: Appointment) => a.clientId == id) == |s.appointments|
      && r.barbers == s.barbers && r.services == s.services
      && r.schedulingRequests == s.schedulingRequests
  {
    var r := RemoveClientSpec(s, id);
    CountComplement(s.appointments, (a: Appointment) => a.clientId == id, ClientOfIsNot(id));
    forall a | a in r.appointments ensures exists c :: c in r.clients && c.id == a.clientId {
      var c :| c in s.clients && c.id == a.clientId;
      assert c in r.clients;
    }
  }

  /** formatPhone: a dash for a missing phone, the phone otherwise. */
  function FormatPhone(phone: string): (r: string)
    ensures r != []
    ensures phone != [] ==> r == phone
  {
    if phone == "" then "—" else phone
  }
}
