/** The appointment store as an object: three indexes and a database updated in place (src/watcher/store.ts). */
module AppointmentStoreService {
  import opened Wrappers
  import opened MapOfSets
  import opened AppointmentStore

  class Appointments {
    var appointmentsById: map<string, Appointment>
    var appointmentsByLocator: map<string, Appointment>
    const appointmentsByCustomer: SetMap<string, Appointment>
    var db: map<string, Appointment>

    constructor (db: map<string, Appointment>)
      ensures fresh(appointmentsByCustomer)
      ensures Abstract() == EMPTY.(db := db)
    {
      appointmentsById, appointmentsByLocator, this.db := map[], map[], db;
      appointmentsByCustomer := new SetMap();
    }

    ghost function Abstract(): Store
      reads this, appointmentsByCustomer
    {
      Store(appointmentsById, appointmentsByLocator, appointmentsByCustomer.sets, db)
    }

    ghost predicate Valid()
      reads this, appointmentsByCustomer
    {
      Consistent(Abstract())
    }

    method AddOrUpdateByLocator(a: Appointment) returns (fault: Option<Fault>)
      requires Valid() && GoodAddress(a)
      modifies this, appointmentsByCustomer
      ensures Valid()
      ensures AddOrUpdate(old(Abstract()), a) == if fault.Some? then Failure(fault.value) else Success(Abstract())
      ensures fault.Some? ==> Abstract() == old(Abstract())
    {
      UpdateKeepsConsistent(Abstract(), a);
      var current := if Locator(a) in appointmentsByLocator then Some(appointmentsByLocator[Locator(a)]) else None;

      var batch := db;
      if current.Some? {
        if a.nonce <= current.value.nonce {
          return Some(NonceNotLarger);
        }
        batch := batch - {Id(current.value)};
      }
      batch := batch[Id(a) := a];

      // database
      db := batch;

      // memory
      if current.Some? {
        appointmentsById := appointmentsById - {Id(current.value)};
        var missing, _ := appointmentsByCustomer.DeleteFromSet(a.customerAddress, current.value);
      }
      appointmentsByLocator := appointmentsByLocator[Locator(a) := a];
      appointmentsById := appointmentsById[Id(a) := a];
      appointmentsByCustomer.AddToSet(a.customerAddress, a);
      fault := None;
    }

    method RemoveById(id: string) returns (removed: bool, fault: Option<Fault>)
      requires Valid()
      modifies this, appointmentsByCustomer
      ensures Valid() && fault.None?
      ensures removed <==> id in old(appointmentsById)
      ensures Abstract() == After(old(Abstract()), Remove(id))
    {
      fault := None;
      if id !in appointmentsById {
        return false, None;
      }
      RemoveKeepsConsistent(Abstract(), id);
      var appointment := appointmentsById[id];
      db := db - {id};
      var stateLocator := Locator(appointment);
      appointmentsById := appointmentsById - {id};
      if stateLocator !in appointmentsByLocator {
        return true, Some(MissingLocator);
      }
      if Id(appointmentsByLocator[stateLocator]) == id {
        appointmentsByLocator := appointmentsByLocator - {stateLocator};
      }
      var missing, _ := appointmentsByCustomer.DeleteFromSet(appointment.customerAddress, appointment);
      removed := true;
    }

    method AddToIndexes(a: Appointment)
      modifies this, appointmentsByCustomer
      ensures Abstract() == Indexed(old(Abstract()), a)
    {
      appointmentsById := appointmentsById[Id(a) := a];
      appointmentsByLocator := appointmentsByLocator[Locator(a) := a];
      appointmentsByCustomer.AddToSet(a.customerAddress, a);
    }

    /** Loading a database that some consistent store has written rebuilds exactly that store's indexes. */
    method Start(ghost writer: Store)
      requires Abstract() == EMPTY.(db := db) && Consistent(writer) && writer.db == db
      modifies this, appointmentsByCustomer
      ensures Abstract() == writer
    {
      var ids := db.Keys;
      assert Loaded(writer, Abstract(), ids);
      while ids != {}
        invariant ids <= db.Keys && db == old(db)
        invariant Loaded(writer, Abstract(), ids)
        decreases ids
      {
        var id :| id in ids;
        LoadOne(writer, Abstract(), ids, id);
        ids := ids - {id};
        AddToIndexes(db[id]);
      }
      LoadedAll(writer, Abstract());
    }
  }

  function Indexed(s: Store, a: Appointment): Store {
    Store(s.byId[Id(a) := a], s.byLocator[Locator(a) := a], Added(s.byCustomer, a.customerAddress, a), s.db)
  }

  /** The indexes are those of a store that holds all of the database but the entries for `ids`. */
  ghost predicate Loaded(writer: Store, s: Store, ids: set<string>) {
    && s.db == writer.db
    && Consistent(s.(db := s.byId))
    && s.byId == map id | id in writer.db && id !in ids :: writer.db[id]
  }

  lemma IndexOne(s: Store, a: Appointment)
    requires Consistent(s.(db := s.byId)) && GoodAddress(a) && Locator(a) !in s.byLocator
    ensures Consistent(Indexed(s, a).(db := Indexed(s, a).byId))
  {
    var t := s.(db := s.byId);
    UpdateKeepsConsistent(t, a);
    assert AddOrUpdate(t, a).value == Indexed(s, a).(db := Indexed(s, a).byId);
  }

  lemma LoadOne(writer: Store, s: Store, ids: set<string>, id: string)
    requires Consistent(writer) && Loaded(writer, s, ids) && id in ids && id in writer.db
    ensures Loaded(writer, Indexed(s, writer.db[id]), ids - {id})
  {
    var a := writer.db[id];
    assert Id(a) == id && Has(writer, a);
    assert Locator(a) !in s.byLocator by {
      FirstForItsLocator(writer, s.(db := s.byId), a);
    }
    IndexOne(s, a);
    MapGrows(writer.db, ids, id);
  }

  lemma MapGrows<V>(m: map<string, V>, ids: set<string>, id: string)
    requires id in ids && id in m
    ensures (map i | i in m && i !in ids :: m[i])[id := m[id]] == map i | i in m && i !in ids - {id} :: m[i]
  {
  }

  lemma LoadedAll(writer: Store, s: Store)
    requires Consistent(writer) && Loaded(writer, s, {})
    ensures s == writer
  {
    assert s.byId == writer.db;
    DatabaseDetermines(s.(db := s.byId), writer);
  }

  lemma FirstForItsLocator(writer: Store, loaded: Store, a: Appointment)
    requires Consistent(writer) && Consistent(loaded)
    requires Has(writer, a) && !Has(loaded, a)
    requires forall id :: id in loaded.db ==> id in writer.db && writer.db[id] == loaded.db[id]
    ensures Current(loaded, a).None?
  {
    if Locator(a) in loaded.byLocator {
      var b := loaded.byLocator[Locator(a)];
      assert Has(writer, b);
    }
  }
}
