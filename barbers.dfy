/** The Barbers page (src/pages/Barbers.jsx): adding a barber, choosing
    the default one, and removing one while its appointments move to the
    default barber. Each handler loads the document, changes it and saves
    it; here it changes a loaded Document. */
module BarbersPage {
  import opened Base
  import opened Schema
  import opened Db

  const LastBarberMessage := "Precisa ter pelo menos 1 barbeiro."

  /** The roster a loaded document should keep: distinct barber ids, the
      flagged barbers exactly those with defaultBarberId, which names a
      barber whenever there is one, and every appointment assigned to an
      existing barber. */
  ghost predicate Consistent(s: Snapshot)
  {
    && s.barbers.Some?
    && UniqueBarberIds(s.barbers.value)
    && (forall b :: b in s.barbers.value ==> (b.isDefault <==> b.id == s.defaultBarberId))
    && (|s.barbers.value| > 0 ==> HasBarber(s.barbers.value, s.defaultBarberId))
    && (forall a :: a in s.appointments ==> HasBarber(s.barbers.value, a.barberId))
  }

  /** In a consistent document exactly one barber is the default. */
  lemma ConsistentHasOneDefault(s: Snapshot)
    requires Consistent(s) && |s.barbers.value| > 0
    ensures DefaultCount(s.barbers.value) == 1
  {
    var bs := s.barbers.value;
    assert WithDefault(bs, s.defaultBarberId) == bs;
    WithDefaultCount(bs, s.defaultBarberId);
    UniqueIdCount(bs, s.defaultBarberId);
  }

  /** The seeded document is consistent, with its one barber the default. */
  lemma InitialConsistent(barberId: Id, cutId: Id, beardId: Id, comboId: Id)
    ensures var s := InitialDB(barberId, cutId, beardId, comboId);
      Consistent(s) && DefaultCount(s.barbers.value) == 1
  {
    var s := InitialDB(barberId, cutId, beardId, comboId);
    assert s.barbers.value[0] in s.barbers.value;
    ConsistentHasOneDefault(s);
  }

  // ---------------------------------------------------------------------
  // handleAdd
  // ---------------------------------------------------------------------

  /** The document after handleAdd: a blank name is ignored; otherwise the
      barber, with trimmed name and phone, is appended, flagged and made
      the default only when the list was empty. */
  function AddBarberSpec(s: Snapshot, name: string, phone: string, freshId: Id): Snapshot
    requires s.barbers.Some?
  {
    if IsBlank(name) then s
    else
      var bs := s.barbers.value;
      var b := Barber(freshId, Trim(name), Trim(phone), |bs| == 0);
      s.(barbers := Some(bs + [b]),
         defaultBarberId := if b.isDefault then freshId else s.defaultBarberId)
  }

  method AddBarber(db: Document, name: string, phone: string, freshId: Id) returns (added: bool)
    requires db.barbers.Some?
    modifies db
    ensures added <==> !IsBlank(name)
    ensures db.State() == AddBarberSpec(old(db.State()), name, phone, freshId)
  {
    if IsBlank(name) {
      return false;
    }
    var bs := db.barbers.value;
    var newBarber := Barber(freshId, Trim(name), Trim(phone), |bs| == 0);
    db.barbers := Some(bs + [newBarber]);
    if newBarber.isDefault {
      db.defaultBarberId := newBarber.id;
    }
    added := true;
  }

  /** Adding a barber with a fresh id keeps the roster consistent; the
      list grows by one exactly when the name is not blank, and the first
      barber becomes the default. */
  lemma AddBarberKeepsConsistent(s: Snapshot, name: string, phone: string, freshId: Id)
    requires Consistent(s)
    requires !HasBarber(s.barbers.value, freshId)
    ensures var r := AddBarberSpec(s, name, phone, freshId);
      && Consistent(r)
      && |r.barbers.value| == |s.barbers.value| + (if IsBlank(name) then 0 else 1)
      && (!IsBlank(name) && s.barbers.value == [] ==> r.defaultBarberId == freshId)
      && (!IsBlank(name) && s.barbers.value != [] ==> r.defaultBarberId == s.defaultBarberId)
  {
    if !IsBlank(name) {
      var bs := s.barbers.value;
      var b := Barber(freshId, Trim(name), Trim(phone), |bs| == 0);
      var bs2 := bs + [b];
      forall i, j | 0 <= i < j < |bs2| ensures bs2[i].id != bs2[j].id {
        if j == |bs| {
          assert bs[i] in bs;
        } else {
          assert bs2[i] == bs[i] && bs2[j] == bs[j];
        }
      }
      assert bs2[|bs|] == b;
      if |bs| > 0 {
        assert b.id != s.defaultBarberId;
      }
    }
  }

  // ---------------------------------------------------------------------
  // handleSetDefault
  // ---------------------------------------------------------------------

  /** handleSetDefault: setDefaultBarber on the loaded document. */
  method SetDefault(db: Document, id: Id)
    requires db.barbers.Some?
    modifies db
    ensures db.State() == old(db.State()).(barbers := Some(WithDefault(old(db.barbers.value), id)),
                                           defaultBarberId := id)
  {
    db.SetDefaultBarber(id);
  }

  /** Setting flags keeps barber ids distinct. */
  lemma WithDefaultKeepsUnique(bs: seq<Barber>, d: Id)
    requires UniqueBarberIds(bs)
    ensures UniqueBarberIds(WithDefault(bs, d))
  {
    var ws := WithDefault(bs, d);
    forall i, j | 0 <= i < j < |ws| ensures ws[i].id != ws[j].id {
      assert ws[i].id == bs[i].id && ws[j].id == bs[j].id;
    }
  }

  /** Choosing a listed barber as the default keeps the roster consistent
      and flags exactly that barber. */
  lemma SetDefaultKeepsConsistent(s: Snapshot, id: Id)
    requires Consistent(s) && HasBarber(s.barbers.value, id)
    ensures var r := s.(barbers := Some(WithDefault(s.barbers.value, id)), defaultBarberId := id);
      Consistent(r) && DefaultCount(r.barbers.value) == 1
  {
    var bs := s.barbers.value;
    var r := s.(barbers := Some(WithDefault(bs, id)), defaultBarberId := id);
    var ws := WithDefault(bs, id);
    WithDefaultKeepsUnique(bs, id);
    forall b | b in ws ensures b.isDefault <==> b.id == id {
      var i :| 0 <= i < |ws| && ws[i] == b;
    }
    forall x ensures HasBarber(ws, x) <==> HasBarber(bs, x) {
      WithDefaultHas(bs, id, x);
    }
    assert Consistent(r);
    ConsistentHasOneDefault(r);
  }

  // ---------------------------------------------------------------------
  // handleRemove
  // ---------------------------------------------------------------------

  /** What handleRemove does: removes the barber, refuses to remove the
      only barber, or throws (reading isDefault of undefined) for an id
      that no barber has, before anything is saved. */
  datatype RemoveOutcome = Removed | LastBarber | UnknownBarber

  datatype Removal = Removal(doc: Snapshot, outcome: RemoveOutcome)

  function NotId(id: Id): Barber -> bool
  {
    (b: Barber) => b.id != id
  }

  /** The default id handleRemove settles on: the first remaining barber
      when the removed one was flagged, the current default otherwise. */
  function NewDefaultId(bs: seq<Barber>, barber: Barber, id: Id, d: Id): Id
  {
    var remaining := Filter(bs, NotId(id));
    if barber.isDefault && |remaining| > 0 then remaining[0].id else d
  }

  /** The roster handleRemove saves: when a new default was chosen the
      flags are set for it first, then the removed barber is filtered out. */
  function RosterAfter(bs: seq<Barber>, barber: Barber, id: Id, d: Id): seq<Barber>
  {
    var remaining := Filter(bs, NotId(id));
    var bs1 := if barber.isDefault && |remaining| > 0 then WithDefault(bs, NewDefaultId(bs, barber, id, d)) else bs;
    Filter(bs1, NotId(id))
  }

  /** The document after handleRemove(id). When the removed barber is the
      flagged one, the first other barber becomes the default; the removed
      barber's appointments move to the (possibly new) default id. */
  function RemoveBarberSpec(s: Snapshot, id: Id): Removal
    requires s.barbers.Some?
  {
    var bs := s.barbers.value;
    if |bs| == 1 then Removal(s, LastBarber)
    else match Find(bs, HasId(id))
      case None => Removal(s, UnknownBarber)
      case Some(barber) =>
        var newDefault := NewDefaultId(bs, barber, id, s.defaultBarberId);
        Removal(s.(barbers := Some(RosterAfter(bs, barber, id, s.defaultBarberId)),
                   defaultBarberId := newDefault,
                   appointments := Reassigned(s.appointments, id, newDefault)),
                Removed)
  }

  method RemoveBarber(db: Document, id: Id) returns (outcome: RemoveOutcome)
    requires db.barbers.Some?
    modifies db
    ensures Removal(db.State(), outcome) == RemoveBarberSpec(old(db.State()), id)
  {
    var bs := db.barbers.value;
    var barber := Find(bs, HasId(id));
    if |bs| == 1 {
      return LastBarber;
    }
    if barber.None? {
      return UnknownBarber;
    }
    var newDefaultId := db.defaultBarberId;
    if barber.value.isDefault {
      var remaining := Filter(bs, NotId(id));
      if |remaining| > 0 {
        newDefaultId := remaining[0].id;
        db.SetDefaultBarber(newDefaultId);
      }
    }
    db.ReassignAppointmentsBarber(id, newDefaultId);
    db.barbers := Some(Filter(db.barbers.value, NotId(id)));
    outcome := Removed;
  }

  /** handleRemove succeeds exactly when the barber exists and is not the
      only one. */
  lemma RemoveOutcomes(s: Snapshot, id: Id)
    requires s.barbers.Some?
    ensures var r := RemoveBarberSpec(s, id);
      && (r.outcome == Removed <==> |s.barbers.value| != 1 && HasBarber(s.barbers.value, id))
      && (r.outcome == LastBarber <==> |s.barbers.value| == 1)
      && (r.outcome != Removed ==> r.doc == s)
  {
    var bs := s.barbers.value;
    if HasBarber(bs, id) {
      var b :| b in bs && b.id == id;
      assert HasId(id)(b);
    }
  }

  /** Filtering by id and setting the flags commute, since setting the
      flags keeps every id. */
  lemma {:induction false} FilterWithDefault(bs: seq<Barber>, d: Id, id: Id)
    ensures Filter(WithDefault(bs, d), NotId(id)) == WithDefault(Filter(bs, NotId(id)), d)
  {
    if bs != [] {
      var b := bs[0].(isDefault := bs[0].id == d);
      var ws := WithDefault(bs, d);
      WithDefaultCons(bs, d);
      assert ws == [b] + WithDefault(bs[1..], d);
      FilterWithDefault(bs[1..], d, id);
      var f := Filter(bs[1..], NotId(id));
      if NotId(id)(bs[0]) {
        assert Filter(bs, NotId(id)) == [bs[0]] + f;
        WithDefaultCons([bs[0]] + f, d);
        assert ([bs[0]] + f)[1..] == f;
      }
    }
  }

  /** Setting the flags of a non-empty roster, one barber at a time. */
  lemma WithDefaultCons(bs: seq<Barber>, d: Id)
    requires bs != []
    ensures WithDefault(bs, d) == [bs[0].(isDefault := bs[0].id == d)] + WithDefault(bs[1..], d)
  {
  }

  /** Setting the flags keeps the set of ids. */
  lemma WithDefaultHas(bs: seq<Barber>, d: Id, x: Id)
    ensures HasBarber(WithDefault(bs, d), x) <==> HasBarber(bs, x)
  {
    var ws := WithDefault(bs, d);
    if HasBarber(bs, x) {
      var b :| b in bs && b.id == x;
      var i :| 0 <= i < |bs| && bs[i] == b;
      assert ws[i] in ws;
    }
    if HasBarber(ws, x) {
      var b :| b in ws && b.id == x;
      var i :| 0 <= i < |ws| && ws[i] == b;
      assert bs[i] in bs;
    }
  }

  /** Filtering an id out keeps every other id. */
  lemma FilterOtherIds(bs: seq<Barber>, id: Id, x: Id)
    requires HasBarber(bs, x) && x != id
    ensures HasBarber(Filter(bs, NotId(id)), x)
  {
    var b :| b in bs && b.id == x;
    assert b in Filter(bs, NotId(id));
  }

  /** Filtering out a listed id from a roster with distinct ids: one fewer
      barber, distinct ids, and every other id stays. */
  lemma RemainingFacts(bs: seq<Barber>, id: Id)
    requires UniqueBarberIds(bs) && HasBarber(bs, id)
    ensures var remaining := Filter(bs, NotId(id));
      && UniqueBarberIds(remaining)
      && |remaining| == |bs| - 1
      && !HasBarber(remaining, id)
      && (forall x :: HasBarber(bs, x) && x != id ==> HasBarber(remaining, x))
  {
    UniqueIdCount(bs, id);
    CountComplement(bs, HasId(id), NotId(id));
    FilterKeepsUnique(bs, NotId(id));
    forall x | HasBarber(bs, x) && x != id ensures HasBarber(Filter(bs, NotId(id)), x) {
      FilterOtherIds(bs, id, x);
    }
  }

  /** When the default barber is removed, the roster saved is the rest
      flagged for the first of them. */
  lemma PromotedRoster(bs: seq<Barber>, id: Id, nd: Id)
    requires UniqueBarberIds(Filter(bs, NotId(id)))
    requires Filter(bs, NotId(id)) != [] && nd == Filter(bs, NotId(id))[0].id
    ensures var remaining, bs2 := Filter(bs, NotId(id)), Filter(WithDefault(bs, nd), NotId(id));
      && UniqueBarberIds(bs2)
      && |bs2| == |remaining|
      && HasBarber(bs2, nd)
      && (forall b :: b in bs2 ==> (b.isDefault <==> b.id == nd))
      && (forall x :: HasBarber(bs2, x) <==> HasBarber(remaining, x))
  {
    var remaining := Filter(bs, NotId(id));
    FilterWithDefault(bs, nd, id);
    var bs2 := WithDefault(remaining, nd);
    WithDefaultKeepsUnique(remaining, nd);
    forall x ensures HasBarber(bs2, x) <==> HasBarber(remaining, x) {
      WithDefaultHas(remaining, nd, x);
    }
    assert remaining[0] in remaining;
    forall b | b in bs2 ensures b.isDefault <==> b.id == nd {
      var i :| 0 <= i < |bs2| && bs2[i] == b;
    }
  }

  /** Setting the flags before filtering leaves the remaining ids, in order. */
  lemma PromotedIds(bs: seq<Barber>, id: Id, nd: Id)
    ensures BarberIds(Filter(WithDefault(bs, nd), NotId(id))) == BarberIds(Filter(bs, NotId(id)))
  {
    FilterWithDefault(bs, nd, id);
    var remaining := Filter(bs, NotId(id));
    assert BarberIds(WithDefault(remaining, nd)) == BarberIds(remaining);
  }

  /** The roster side of removing a listed barber from a consistent roster
      of two or more: the remaining barbers keep distinct ids, one fewer,
      every other barber stays, in its old order, and the flags point at
      the new default, which is one of them. */
  lemma RosterAfterFacts(bs: seq<Barber>, id: Id, d: Id)
    requires UniqueBarberIds(bs)
    requires forall b :: b in bs ==> (b.isDefault <==> b.id == d)
    requires HasBarber(bs, d) && HasBarber(bs, id) && |bs| >= 2
    ensures Find(bs, HasId(id)).Some?
    ensures var barber := Find(bs, HasId(id)).value;
      var nd, bs2 := NewDefaultId(bs, barber, id, d), RosterAfter(bs, barber, id, d);
      && nd != id
      && UniqueBarberIds(bs2)
      && |bs2| == |bs| - 1
      && !HasBarber(bs2, id)
      && HasBarber(bs2, nd)
      && (forall b :: b in bs2 ==> (b.isDefault <==> b.id == nd))
      && (forall x :: HasBarber(bs, x) && x != id ==> HasBarber(bs2, x))
      && BarberIds(bs2) == BarberIds(Filter(bs, NotId(id)))
  {
    var w :| w in bs && w.id == id;
    assert HasId(id)(w);
    var barber := Find(bs, HasId(id)).value;
    var remaining := Filter(bs, NotId(id));
    RemainingFacts(bs, id);
    if barber.isDefault {
      var nd := remaining[0].id;
      assert remaining[0] in remaining;
      assert NewDefaultId(bs, barber, id, d) == nd;
      assert RosterAfter(bs, barber, id, d) == Filter(WithDefault(bs, nd), NotId(id));
      PromotedRoster(bs, id, nd);
      PromotedIds(bs, id, nd);
    } else {
      assert NewDefaultId(bs, barber, id, d) == d;
      assert RosterAfter(bs, barber, id, d) == remaining;
    }
  }

  /** Appointments that all name listed barbers still do after those of
      the removed barber move to a barber that stays. */
  lemma ReassignedLinked(apts: seq<Appointment>, bs: seq<Barber>, bs2: seq<Barber>, id: Id, nd: Id)
    requires forall a :: a in apts ==> HasBarber(bs, a.barberId)
    requires forall x :: HasBarber(bs, x) && x != id ==> HasBarber(bs2, x)
    requires HasBarber(bs2, nd)
    ensures forall a :: a in Reassigned(apts, id, nd) ==> HasBarber(bs2, a.barberId)
  {
    var r := Reassigned(apts, id, nd);
    forall a | a in r ensures HasBarber(bs2, a.barberId) {
      var k :| 0 <= k < |r| && r[k] == a;
      assert apts[k] in apts;
    }
  }

  /** Removing a listed barber from a consistent document with at least
      two barbers keeps it consistent: the barber is gone, the list is one
      shorter, no appointment refers to it, its appointments now belong to
      the default barber and all others keep their barber. */
  lemma RemoveKeepsConsistent(s: Snapshot, id: Id)
    requires Consistent(s) && HasBarber(s.barbers.value, id) && |s.barbers.value| >= 2
    ensures var r := RemoveBarberSpec(s, id);
      && r.outcome == Removed
      && Consistent(r.doc)
      && !HasBarber(r.doc.barbers.value, id)
      && |r.doc.barbers.value| == |s.barbers.value| - 1
      && |r.doc.appointments| == |s.appointments|
      && (forall i :: 0 <= i < |s.appointments| ==>
            r.doc.appointments[i].barberId ==
              if s.appointments[i].barberId == id then r.doc.defaultBarberId else s.appointments[i].barberId)
  {
    var bs := s.barbers.value;
    RosterAfterFacts(bs, id, s.defaultBarberId);
    var barber := Find(bs, HasId(id)).value;
    var nd, bs2 := NewDefaultId(bs, barber, id, s.defaultBarberId), RosterAfter(bs, barber, id, s.defaultBarberId);
    ReassignedLinked(s.appointments, bs, bs2, id, nd);
    RemovedDoc(s, id);
    var t := s.(barbers := Some(bs2), defaultBarberId := nd, appointments := Reassigned(s.appointments, id, nd));
    assert RemoveBarberSpec(s, id).doc == t;
    assert UniqueBarberIds(t.barbers.value);
    assert HasBarber(t.barbers.value, t.defaultBarberId);
    assert Consistent(t);
  }

  /** The document handleRemove saves for a listed barber when there are
      two or more. */
  lemma RemovedDoc(s: Snapshot, id: Id)
    requires s.barbers.Some? && HasBarber(s.barbers.value, id) && |s.barbers.value| >= 2
    ensures Find(s.barbers.value, HasId(id)).Some?
    ensures var bs, d := s.barbers.value, s.defaultBarberId;
      var barber := Find(bs, HasId(id)).value;
      var nd := NewDefaultId(bs, barber, id, d);
      RemoveBarberSpec(s, id)
        == Removal(s.(barbers := Some(RosterAfter(bs, barber, id, d)), defaultBarberId := nd,
                      appointments := Reassigned(s.appointments, id, nd)), Removed)
  {
    var w :| w in s.barbers.value && w.id == id;
    assert HasId(id)(w);
  }

  /** Choosing a barber that does not exist flags nobody: setDefaultBarber
      does not check the id. */
  lemma SetUnknownDefaultFlagsNone(bs: seq<Barber>, id: Id)
    requires !HasBarber(bs, id)
    ensures DefaultCount(WithDefault(bs, id)) == 0
  {
    WithDefaultCount(bs, id);
    FilterNone(bs, HasId(id));
  }
}
