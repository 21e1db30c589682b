/** The Services page (src/pages/Services.jsx): adding and removing a
    service. The price field is the text of a number input; here it is
    None when empty and the parsed amount in cents otherwise. */
module ServicesPage {
  import opened Base
  import opened Schema
  import opened Db

  /** The document after handleAdd: ignored when the trimmed name is blank
      or the price is empty; otherwise one service is appended. The price
      is not checked for sign. */
  function AddServiceSpec(s: Snapshot, name: string, price: Option<Money>, freshId: Id): Snapshot
  {
    if IsBlank(name) || price.None? then s
    else s.(services := s.services + [Service(freshId, Trim(name), price.value)])
  }

  method AddService(db: Document, name: string, price: Option<Money>, freshId: Id) returns (added: bool)
    modifies db
    ensures added <==> !IsBlank(name) && price.Some?
    ensures db.State() == AddServiceSpec(old(db.State()), name, price, freshId)
  {
    if IsBlank(name) || price.None? {
      return false;
    }
    var newService := Service(freshId, Trim(name), price.value);
    db.services := db.services + [newService];
    added := true;
  }

  /** Adding touches only the service list, which grows by the one new
      service exactly when both fields are filled in; a negative price is
      accepted. */
  lemma AddServiceFacts(s: Snapshot, name: string, price: Option<Money>, freshId: Id)
    ensures var r := AddServiceSpec(s, name, price, freshId);
      && r == s.(services := r.services)
      && |r.services| == |s.services| + (if IsBlank(name) || price.None? then 0 else 1)
      && r.services[..|s.services|] == s.services
      && (!IsBlank(name) && price.Some? ==>
            r.services[|s.services|] == Service(freshId, Trim(name), price.value))
  {
    var r := AddServiceSpec(s, name, price, freshId);
    assert r.services[..|s.services|] == s.services;
  }

  function ServiceIdIsNot(id: Id): Service -> bool
  {
    (v: Service) => v.id != id
  }

  /** The document after handleRemove(id): only the service list changes. */
  function RemoveServiceSpec(s: Snapshot, id: Id): Snapshot
  {
    s.(services := Filter(s.services, ServiceIdIsNot(id)))
  }

  method RemoveService(db: Document, id: Id)
    modifies db
    ensures db.State() == RemoveServiceSpec(old(db.State()), id)
  {
    db.services := Filter(db.services, ServiceIdIsNot(id));
  }

  /** Removal drops exactly the services with the id and leaves the
      appointments and requests as they were, so their serviceIds may now
      name no service. */
  lemma RemoveServiceFacts(s: Snapshot, id: Id)
    ensures var r := RemoveServiceSpec(s, id);
      && (forall v :: v in r.services <==> v in s.services && v.id != id)
      && |r.services| + Count(s.services, (v: Service) => v.id == id) == |s.services|
      && r.appointments == s.appointments
      && r.schedulingRequests == s.schedulingRequests
  {
    CountComplement(s.services, (v: Service) => v.id == id, ServiceIdIsNot(id));
  }

  /** A dangling reference: removing the only service leaves an
      appointment that still names it. */
  lemma RemoveServiceLeavesDangling()
    ensures var apt := Appointment("a", "c", "s", "b", 1000, 0);
      var s := Snapshot(Some(3), "", [Service("s", "Corte", 1000)], [], Some([]), "", [apt], Some([]), NoUi);
      var r := RemoveServiceSpec(s, "s");
      r.services == [] && apt in r.appointments
  {
    var s := Snapshot(Some(3), "", [Service("s", "Corte", 1000)], [], Some([]), "", [Appointment("a", "c", "s", "b", 1000, 0)], Some([]), NoUi);
    assert Filter([Service("s", "Corte", 1000)], ServiceIdIsNot("s")) == [];
  }
}
