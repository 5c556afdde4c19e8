/**
 * The store of actions (src/blockMonitor/actionStore.ts): every action is kept under its component in memory and under
 * one key of component and identifier in the database.
 */
module ActionStore {

  /** An action as it is written to the database. */
  type Action = string

  datatype Entry = Entry(id: string, action: Action)

  type Memory = map<string, set<Entry>>

  type Disk = map<string, Action>

  function At(memory: Memory, component: string): set<Entry> {
    if component in memory then memory[component] else {}
  }

  function KeyOf(component: string, id: string): string {
    component + ":" + id
  }

  /** The position of the first colon, or -1. */
  function FirstColon(key: string): (i: int)
    ensures -1 <= i < |key|
  {
    if key == "" then -1
    else if key[0] == ':' then 0
    else var i := FirstColon(key[1..]); if i < 0 then -1 else i + 1
  }

  /** Takes a key apart at its first colon; without one, all of it is the identifier. */
  function Split(key: string): (string, string) {
    var i := FirstColon(key);
    if i < 0 then ("", key) else (key[..i], key[i + 1..])
  }

  lemma {:induction false} FirstColonOfKey(component: string, id: string)
    ensures ':' !in component ==> FirstColon(KeyOf(component, id)) == |component|
    ensures ':' in component ==> 0 <= FirstColon(KeyOf(component, id)) < |component|
  {
    if component == "" {
      assert KeyOf(component, id)[0] == ':';
    } else {
      assert KeyOf(component, id)[1..] == KeyOf(component[1..], id);
      FirstColonOfKey(component[1..], id);
    }
  }

  /** A key is read back as it was written if and only if the name of the component holds no colon. */
  lemma KeysRoundTripIff(component: string, id: string)
    ensures Split(KeyOf(component, id)) == (component, id) <==> ':' !in component
  {
    FirstColonOfKey(component, id);
    var key := KeyOf(component, id);
    assert key[..|component|] == component && key[|component| + 1..] == id;
  }

  lemma KeysDetermine(c: string, i: string, d: string, j: string)
    requires ':' !in c && ':' !in d && KeyOf(c, i) == KeyOf(d, j)
    ensures c == d && i == j
  {
    KeysRoundTripIff(c, i);
    KeysRoundTripIff(d, j);
  }

  // ---- Memory and database -----------------------------------------------------------------------------

  ghost predicate InDatabase(disk: Disk, component: string, e: Entry) {
    ':' !in component && KeyOf(component, e.id) in disk && disk[KeyOf(component, e.id)] == e.action
  }

  /** Every entry in memory is in the database under its key, and the other way round. */
  ghost predicate Agrees(memory: Memory, disk: Disk) {
    && (forall c, e :: e in At(memory, c) ==> InDatabase(disk, c, e))
    && (forall key :: key in disk ==> key == KeyOf(Split(key).0, Split(key).1))
    && (forall key :: key in disk ==> Entry(Split(key).1, disk[key]) in At(memory, Split(key).0))
  }

  function PutAll(disk: Disk, component: string, entries: seq<Entry>): Disk
    decreases |entries|
  {
    if entries == [] then disk
    else
      var last := entries[|entries| - 1];
      PutAll(disk, component, entries[..|entries| - 1])[KeyOf(component, last.id) := last.action]
  }

  function Members(entries: seq<Entry>): set<Entry> {
    set e | e in entries
  }

  ghost predicate Fresh(disk: Disk, component: string, entries: seq<Entry>) {
    && (forall i :: 0 <= i < |entries| ==> KeyOf(component, entries[i].id) !in disk)
    && (forall i, j :: 0 <= i < j < |entries| ==> entries[i].id != entries[j].id)
  }

  lemma OneMoreAgrees(memory: Memory, disk: Disk, component: string, e: Entry)
    requires Agrees(memory, disk) && ':' !in component && KeyOf(component, e.id) !in disk
    ensures Agrees(memory[component := At(memory, component) + {e}], disk[KeyOf(component, e.id) := e.action])
  {
    var after := memory[component := At(memory, component) + {e}];
    var more := disk[KeyOf(component, e.id) := e.action];
    KeysRoundTripIff(component, e.id);
    forall c ensures At(after, c) == if c == component then At(memory, c) + {e} else At(memory, c) {}
    forall c, x | x in At(after, c) ensures InDatabase(more, c, x) {
      assert x in At(memory, c) ==> InDatabase(disk, c, x);
    }
  }

  lemma {:induction false} PutAllKeys(disk: Disk, component: string, entries: seq<Entry>)
    ensures forall key :: key in PutAll(disk, component, entries) <==> key in disk || PutsKey(component, entries, key)
    decreases |entries|
  {
    if entries != [] {
      var n := |entries| - 1;
      var rest := entries[..n];
      PutAllKeys(disk, component, rest);
      forall key ensures PutsKey(component, entries, key)
        <==> PutsKey(component, rest, key) || key == KeyOf(component, entries[n].id)
      {
        if i :| 0 <= i < n && key == KeyOf(component, entries[i].id) {
          assert rest[i] == entries[i];
        }
        if i :| 0 <= i < |rest| && key == KeyOf(component, rest[i].id) {
          assert entries[i] == rest[i];
        }
      }
    }
  }

  ghost predicate PutsKey(component: string, entries: seq<Entry>, key: string) {
    exists i :: 0 <= i < |entries| && key == KeyOf(component, entries[i].id)
  }

  lemma SameEntries(memory: Memory, other: Memory, disk: Disk)
    requires Agrees(memory, disk) && forall c :: At(other, c) == At(memory, c)
    ensures Agrees(other, disk)
  {
    forall c, e | e in At(other, c) ensures InDatabase(disk, c, e) {
      assert At(other, c) == At(memory, c);
    }
    forall key | key in disk ensures Entry(Split(key).1, disk[key]) in At(other, Split(key).0) {
      assert At(other, Split(key).0) == At(memory, Split(key).0);
    }
  }

  lemma OneMoreStored(memory: Memory, disk: Disk, component: string, members: set<Entry>, last: Entry)
    requires Agrees(memory[component := At(memory, component) + members], disk)
    requires ':' !in component && KeyOf(component, last.id) !in disk
    ensures Agrees(memory[component := At(memory, component) + (members + {last})],
                   disk[KeyOf(component, last.id) := last.action])
  {
    hide Agrees, KeyOf;
    var m := memory[component := At(memory, component) + members];
    OneMoreAgrees(m, disk, component, last);
    assert (At(memory, component) + members) + {last} == At(memory, component) + (members + {last});
    assert m[component := At(m, component) + {last}] == memory[component := At(m, component) + {last}];
  }

  lemma LastIsNew(disk: Disk, component: string, entries: seq<Entry>)
    requires ':' !in component && Fresh(disk, component, entries) && entries != []
    ensures var n := |entries| - 1;
      && Fresh(disk, component, entries[..n])
      && KeyOf(component, entries[n].id) !in PutAll(disk, component, entries[..n])
      && Members(entries) == Members(entries[..n]) + {entries[n]}
  {
    hide PutAll, KeyOf, Split, FirstColon;
    var n := |entries| - 1;
    var rest := entries[..n];
    PutAllKeys(disk, component, rest);
    if PutsKey(component, rest, KeyOf(component, entries[n].id)) {
      var i :| 0 <= i < |rest| && KeyOf(component, entries[n].id) == KeyOf(component, rest[i].id);
      assert rest[i] == entries[i];
      KeysDetermine(component, entries[i].id, component, entries[n].id);
      assert false;
    }
  }

  lemma {:induction false} StoringAgrees(memory: Memory, disk: Disk, component: string, entries: seq<Entry>)
    requires Agrees(memory, disk) && ':' !in component && Fresh(disk, component, entries)
    ensures Agrees(memory[component := At(memory, component) + Members(entries)], PutAll(disk, component, entries))
    decreases |entries|
  {
    hide Agrees, Fresh, KeyOf, Members;
    if entries == [] {
      NoMembers(memory, component);
      SameEntries(memory, memory[component := At(memory, component) + Members(entries)], disk);
    } else {
      var n := |entries| - 1;
      LastIsNew(disk, component, entries);
      StoringAgrees(memory, disk, component, entries[..n]);
      OneMoreStored(memory, PutAll(disk, component, entries[..n]), component, Members(entries[..n]), entries[n]);
    }
  }

  lemma NoMembers(memory: Memory, component: string)
    ensures forall c :: At(memory[component := At(memory, component) + Members([])], c) == At(memory, c)
  {
    assert At(memory, component) + Members([]) == At(memory, component);
  }

  lemma SameKeySameEntry(memory: Memory, disk: Disk, c: string, x: Entry, d: string, e: Entry)
    requires Agrees(memory, disk) && x in At(memory, c) && e in At(memory, d) && KeyOf(c, x.id) == KeyOf(d, e.id)
    ensures c == d && x == e
  {
    KeysDetermine(c, x.id, d, e.id);
  }

  lemma RemovingAgrees(memory: Memory, disk: Disk, component: string, e: Entry)
    requires Agrees(memory, disk) && e in At(memory, component)
    ensures Agrees(memory[component := At(memory, component) - {e}], disk - {KeyOf(component, e.id)})
  {
    var after := memory[component := At(memory, component) - {e}];
    var less := disk - {KeyOf(component, e.id)};
    KeysRoundTripIff(component, e.id);
    forall c ensures At(after, c) == if c == component then At(memory, c) - {e} else At(memory, c) {}
    forall c, x | x in At(after, c) ensures InDatabase(less, c, x) {
      assert x in At(memory, c);
      if KeyOf(c, x.id) == KeyOf(component, e.id) {
        SameKeySameEntry(memory, disk, c, x, component, e);
      }
    }
    forall key | key in less ensures Entry(Split(key).1, less[key]) in At(after, Split(key).0) {
      assert Entry(Split(key).1, disk[key]) in At(memory, Split(key).0);
      assert key == KeyOf(Split(key).0, Split(key).1);
    }
  }

  /** A restart from the database gives back the entries of every component. */
  lemma RestartGivesBack(memory: Memory, restarted: Memory, disk: Disk, component: string)
    requires Agrees(memory, disk) && Agrees(restarted, disk)
    ensures At(restarted, component) == At(memory, component)
  {
    forall e ensures e in At(restarted, component) <==> e in At(memory, component) {
      KeysRoundTripIff(component, e.id);
      var key := KeyOf(component, e.id);
      if e in At(restarted, component) || e in At(memory, component) {
        assert InDatabase(disk, component, e);
        assert Entry(Split(key).1, disk[key]) == e;
      }
    }
  }

  // ---- The store as an object --------------------------------------------------------------------------

  class Store {
    var actions: Memory
    var disk: Disk

    constructor (disk: Disk)
      ensures actions == map[] && this.disk == disk
    {
      actions, this.disk := map[], disk;
    }

    /** Loads the records one by one, in any order. */
    method StartInternal()
      requires actions == map[]
      requires forall key :: key in disk ==> key == KeyOf(Split(key).0, Split(key).1)
      modifies this`actions
      ensures Agrees(actions, disk)
    {
      hide Agrees, Split, KeyOf;
      var keys := disk.Keys;
      NothingLoaded(disk);
      while keys != {}
        invariant keys <= disk.Keys && Agrees(actions, disk - keys)
        decreases |keys|
      {
        var key :| key in keys;
        var (componentName, actionId) := Split(key);
        LoadStep(actions, disk, keys, key);
        actions := actions[componentName := At(actions, componentName) + {Entry(actionId, disk[key])}];
        keys := keys - {key};
      }
      assert disk - keys == disk;
    }

    function GetActions(component: string): (r: set<Entry>)
      reads this
    {
      At(actions, component)
    }

    /** The database is written first, in one batch. `ids` are new and all different. */
    method StoreActions(component: string, acts: seq<Action>, ids: seq<string>) returns (entries: seq<Entry>)
      requires Agrees(actions, disk) && ':' !in component && |ids| == |acts|
      requires forall i :: 0 <= i < |ids| ==> KeyOf(component, ids[i]) !in disk
      requires forall i, j :: 0 <= i < j < |ids| ==> ids[i] != ids[j]
      modifies this
      ensures |entries| == |acts| && forall i :: 0 <= i < |acts| ==> entries[i] == Entry(ids[i], acts[i])
      ensures disk == PutAll(old(disk), component, entries) && Agrees(actions, disk)
      ensures forall c :: GetActions(c) == old(GetActions(c)) + if c == component then Members(entries) else {}
    {
      entries := seq(|acts|, i requires 0 <= i < |acts| => Entry(ids[i], acts[i]));
      assert Fresh(disk, component, entries);
      StoringAgrees(actions, disk, component, entries);
      hide Agrees, PutAll;
      disk := PutAll(disk, component, entries);
      actions := actions[component := At(actions, component) + Members(entries)];
    }

    method RemoveAction(component: string, e: Entry)
      requires Agrees(actions, disk) && e in GetActions(component)
      modifies this
      ensures disk == old(disk) - {KeyOf(component, e.id)} && Agrees(actions, disk)
      ensures forall c :: GetActions(c) == old(GetActions(c)) - if c == component then {e} else {}
    {
      RemovingAgrees(actions, disk, component, e);
      hide Agrees;
      disk := disk - {KeyOf(component, e.id)};
      actions := actions[component := At(actions, component) - {e}];
    }
  }

  lemma NothingLoaded(disk: Disk)
    ensures Agrees(map[], disk - disk.Keys)
  {
    assert disk - disk.Keys == map[];
  }

  lemma {:induction false} NoColonBefore(key: string)
    ensures ':' !in Split(key).0
  {
    if key != "" && key[0] != ':' {
      NoColonBefore(key[1..]);
      var i := FirstColon(key);
      if i > 0 {
        assert key[..i] == [key[0]] + key[1..][..i - 1];
      }
    }
  }

  lemma LoadStep(memory: Memory, disk: Disk, keys: set<string>, key: string)
    requires forall k :: k in disk ==> k == KeyOf(Split(k).0, Split(k).1)
    requires Agrees(memory, disk - keys) && key in keys && key in disk
    ensures var (c, id) := Split(key);
      Agrees(memory[c := At(memory, c) + {Entry(id, disk[key])}], disk - (keys - {key}))
  {
    var (c, id) := Split(key);
    NoColonBefore(key);
    OneMoreAgrees(memory, disk - keys, c, Entry(id, disk[key]));
    assert (disk - keys)[KeyOf(c, id) := disk[key]] == disk - (keys - {key});
  }
}
