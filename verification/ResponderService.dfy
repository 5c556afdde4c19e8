/**
 * The responder's store with its database and the service that drives it, as objects that are updated in place
 * (src/responder/store.ts, src/responder/multiResponder.ts).
 */
module ResponderService {
  import opened Wrappers
  import opened GasQueue
  import opened GasQueueBuffer
  import opened GasQueueConstructor
  import opened GasQueueAdd
  import opened GasQueuePrepend
  import opened GasQueueRuns
  import opened Responder
  import opened ResponderTheorems

  /** One database holds the queue, under its own key, and the responses, under their ids. */
  datatype Stored = StoredQueue(queue: GasQueue) | StoredItem(item: Item)

  /** What the database holds for a queue that was written and for the responses on record. */
  function Disk(queueKey: string, queue: Option<GasQueue>, transactions: map<string, Item>): map<string, Stored> {
    (map id | id in transactions :: StoredItem(transactions[id]))
    + (if queue.Some? then map[queueKey := StoredQueue(queue.value)] else map[])
  }

  lemma {:induction false} RecordedOnDisk(queueKey: string, queue: Option<GasQueue>, transactions: map<string, Item>, items: seq<Item>)
    requires forall i :: 0 <= i < |items| ==> items[i].request.id != queueKey
    ensures WithItems(Disk(queueKey, queue, transactions), items) == Disk(queueKey, queue, Recorded(transactions, items))
    decreases |items|
  {
    if items != [] {
      var id := items[0].request.id;
      assert Disk(queueKey, queue, transactions)[id := StoredItem(items[0])]
          == Disk(queueKey, queue, transactions[id := items[0]]);
      RecordedOnDisk(queueKey, queue, transactions[id := items[0]], items[1..]);
    }
  }

  function WithItems(db: map<string, Stored>, items: seq<Item>): map<string, Stored>
    decreases |items|
  {
    if items == [] then db else WithItems(db[items[0].request.id := StoredItem(items[0])], items[1..])
  }

  lemma {:induction false} ItemsAppended(db: map<string, Stored>, items: seq<Item>, item: Item)
    ensures WithItems(db, items + [item]) == WithItems(db, items)[item.request.id := StoredItem(item)]
    decreases |items|
  {
    if items == [] {
      assert items + [item] == [item];
    } else {
      ItemsAppended(db[items[0].request.id := StoredItem(items[0])], items[1..], item);
      assert (items + [item])[1..] == items[1..] + [item];
    }
  }

  lemma {:induction false} RecordAppended(transactions: map<string, Item>, items: seq<Item>, item: Item)
    ensures Recorded(transactions, items + [item]) == Recorded(transactions, items)[item.request.id := item]
    decreases |items|
  {
    if items == [] {
      assert items + [item] == [item];
    } else {
      RecordAppended(transactions[items[0].request.id := items[0]], items[1..], item);
      assert (items + [item])[1..] == items[1..] + [item];
    }
  }

  method PutItems(db: map<string, Stored>, items: seq<Item>) returns (batch: map<string, Stored>)
    ensures batch == WithItems(db, items)
  {
    batch := db;
    for i := 0 to |items|
      invariant batch == WithItems(db, items[..i])
    {
      ItemsAppended(db, items[..i], items[i]);
      assert items[..i + 1] == items[..i] + [items[i]];
      batch := batch[items[i].request.id := StoredItem(items[i])];
    }
    assert items[..|items|] == items;
  }

  method SetItems(transactions: map<string, Item>, items: seq<Item>) returns (recorded: map<string, Item>)
    ensures recorded == Recorded(transactions, items)
  {
    recorded := transactions;
    for i := 0 to |items|
      invariant recorded == Recorded(transactions, items[..i])
    {
      RecordAppended(transactions, items[..i], items[i]);
      assert items[..i + 1] == items[..i] + [items[i]];
      recorded := recorded[items[i].request.id := items[i]];
    }
    assert items[..|items|] == items;
  }

  /** Writing a queue and what changed in it over a faithful database leaves a faithful database. */
  lemma BatchOnDisk(queueKey: string, before: Option<GasQueue>, transactions: map<string, Item>, q: GasQueue,
                    difference: seq<Item>, others: seq<Item>)
    requires queueKey !in transactions && difference == Missing(q.items, others)
    requires forall i :: 0 <= i < |q.items| ==> q.items[i].request.id != queueKey
    ensures WithItems(Disk(queueKey, before, transactions)[queueKey := StoredQueue(q)], difference)
         == Disk(queueKey, Some(q), Recorded(transactions, difference))
    ensures queueKey !in Recorded(transactions, difference)
  {
    MissingIsSubset(q.items, others);
    forall i | 0 <= i < |difference| ensures difference[i].request.id != queueKey {
      assert difference[i] in q.items;
    }
    assert Disk(queueKey, before, transactions)[queueKey := StoredQueue(q)] == Disk(queueKey, Some(q), transactions);
    RecordedOnDisk(queueKey, Some(q), transactions, difference);
    RecordedAvoids(transactions, difference, queueKey);
  }

  class ResponderStore {
    var queue: GasQueue
    var transactions: map<string, Item>
    var db: map<string, Stored>
    const queueKey: string

    constructor (queueKey: string, seedQueue: GasQueue, db: map<string, Stored>)
      ensures this.queueKey == queueKey && queue == seedQueue && transactions == map[] && this.db == db
    {
      this.queueKey, this.queue, this.transactions, this.db := queueKey, seedQueue, map[], db;
    }

    /** The database holds what memory holds; `written` tells whether a queue was ever written. */
    ghost predicate Persisted(written: bool)
      reads this
    {
      && queueKey !in transactions
      && db == Disk(queueKey, if written then Some(queue) else None, transactions)
    }

    /** No queued request uses the key that the queue itself is stored under. */
    ghost predicate KeysApart(q: GasQueue) {
      forall i :: 0 <= i < |q.items| ==> q.items[i].request.id != queueKey
    }

    method UpdateQueue(q: GasQueue) returns (difference: seq<Item>)
      requires KeysApart(q)
      modifies this
      ensures difference == Difference(q, old(queue))
      ensures queue == q && transactions == Recorded(old(transactions), difference)
      ensures old(Persisted(false)) || old(Persisted(true)) ==> Persisted(true)
    {
      difference := Difference(q, queue);
      if Persisted(false) || Persisted(true) {
        BatchOnDisk(queueKey, if Persisted(true) then Some(queue) else None, transactions, q, difference, queue.items);
      }

      // database: one batch with the queue and every changed item
      var batch := PutItems(db[queueKey := StoredQueue(q)], difference);
      db := batch;

      // memory
      var recorded := SetItems(transactions, difference);
      transactions := recorded;
      queue := q;
    }

    method RemoveResponse(id: string)
      requires id != queueKey
      modifies this
      ensures queue == old(queue) && transactions == old(transactions) - {id}
      ensures forall written :: old(Persisted(written)) ==> Persisted(written)
    {
      db := db - {id};
      transactions := transactions - {id};
    }

    /** Reloads the database into a fresh store; the queue takes over the settings of the seed queue. */
    method Start() returns (fault: Option<QueueError>)
      modifies this
      ensures db == old(db)
      ensures forall q, txs :: queueKey !in txs && db == Disk(queueKey, Some(q), txs) ==>
        var reloaded := q.(replacementRate := old(queue).replacementRate, maxQueueDepth := old(queue).maxQueueDepth);
        && (fault.None? <==> Valid(reloaded))
        && (fault.None? ==> queue == reloaded && transactions == old(transactions) + txs)
      ensures forall txs :: queueKey !in txs && db == Disk(queueKey, None, txs) ==>
        fault.None? && queue == old(queue) && transactions == old(transactions) + txs
    {
      var storedQueue: Option<GasQueue> := None;
      var responded: map<string, Item> := map[];
      var keys := db.Keys;
      while keys != {}
        invariant keys <= db.Keys
        invariant unchanged(this)
        invariant storedQueue.Some? <==> queueKey in db && queueKey !in keys && db[queueKey].StoredQueue?
        invariant storedQueue.Some? ==> db[queueKey] == StoredQueue(storedQueue.value)
        invariant responded == map id | id in db.Keys - keys && id != queueKey && db[id].StoredItem? :: db[id].item
        decreases keys
      {
        var key :| key in keys;
        keys := keys - {key};
        if key == queueKey {
          if db[key].StoredQueue? { storedQueue := Some(db[key].queue); }
        } else if db[key].StoredItem? {
          responded := responded[key := db[key].item];
        }
      }
      assert forall q, txs :: queueKey !in txs && db == Disk(queueKey, q, txs) ==> responded == txs && storedQueue == q by {
        forall q, txs | queueKey !in txs && db == Disk(queueKey, q, txs) ensures responded == txs && storedQueue == q {
          DiskDetermines(queueKey, q, txs, responded);
        }
      }
      fault := None;
      if storedQueue.Some? {
        var reloaded := storedQueue.value.(replacementRate := queue.replacementRate, maxQueueDepth := queue.maxQueueDepth);
        MakeIffValid(reloaded);
        var constructed := Construct(reloaded);
        match constructed
        case Failure(e) => return Some(e);
        case Success(q) => queue := q;
      }
      transactions := transactions + responded;
    }
  }

  /** Keeps the queue and broadcasts what every change of it requires. */
  class MultiResponder {
    const store: ResponderStore
    var sent: seq<Item>

    constructor (store: ResponderStore)
      ensures this.store == store && sent == []
    {
      this.store, this.sent := store, [];
    }

    ghost function Abstract(): State
      reads this, store
    {
      State(store.queue, store.transactions, sent)
    }

    /** Queue, records and network are in step and the database holds queue and records. */
    ghost predicate Valid(owner: string -> Identifier)
      reads this, store
    {
      && Tracked(Abstract(), owner)
      && (store.Persisted(false) || store.Persisted(true))
    }

    method Broadcast(items: seq<Item>)
      modifies this`sent
      ensures sent == old(sent) + items
    {
      sent := sent + items;
    }

    method UpdateAndBroadcast(q: GasQueue, ghost owner: string -> Identifier)
      requires Valid(owner) && store.KeysApart(q)
      requires Tracked(UpdateQueue(Abstract(), q), owner)
      modifies this`sent, store
      ensures Abstract() == UpdateQueue(old(Abstract()), q)
      ensures Valid(owner)
    {
      var difference := store.UpdateQueue(q);
      Broadcast(difference);
    }

    method StartResponse(request: Request, ghost owner: string -> Identifier) returns (alreadyAdded: bool)
      requires Valid(owner) && Same(request.identifier, owner(request.id)) && request.id != store.queueKey
      modifies this`sent, store
      ensures Valid(owner)
      ensures Abstract() == Responder.StartResponse(old(Abstract()), request)
      ensures alreadyAdded == ReportsAlreadyAdded(old(Abstract()), request)
    {
      AddedKeys(store, request, owner, sent);
      if DepthIsReached(store.queue) {
        return false;
      }
      var replaced := AddInPlace(store.queue, request);
      match replaced
      case Failure(e) => alreadyAdded := e == AlreadyAdded;
      case Success(q) =>
        UpdateAndBroadcast(q, owner);
        alreadyAdded := false;
    }

    method TxMined(identifier: Identifier, nonce: int, ghost owner: string -> Identifier)
      requires Valid(owner)
      modifies this`sent, store
      ensures Valid(owner)
      ensures Abstract() == Responder.TxMined(old(Abstract()), identifier, nonce)
    {
      if store.queue.items == [] || IndexOf(store.queue.items, identifier) == -1
         || store.queue.items[0].nonce != nonce {
        return;
      }
      MinedKeys(store, identifier, nonce, owner, sent);
      var reduced;
      if Same(identifier, store.queue.items[0].request.identifier) {
        reduced := Construct(store.queue.(items := store.queue.items[1..]));
      } else {
        reduced := ConsumeInPlace(store.queue, identifier);
      }
      match reduced
      case Failure(_) =>
      case Success(q) => UpdateAndBroadcast(q, owner);
    }

    method ReEnqueueMissingItems(ids: seq<string>, ghost owner: string -> Identifier) returns (thrown: bool)
      requires Valid(owner)
      modifies this`sent, store
      ensures Valid(owner)
      ensures Abstract() == Responder.ReEnqueueMissingItems(old(Abstract()), ids)
      ensures thrown ==> Abstract() == old(Abstract())
    {
      var missing := Responder.MissingItems(State(store.queue, store.transactions, []), ids);
      SameMissing(Abstract(), State(store.queue, store.transactions, []), ids);
      ReEnqueueKeepsTracked(Abstract(), ids, owner);
      if missing.None? {
        return true;
      }
      if missing.value == [] {
        return false;
      }
      MissingItemsAreGood(Abstract(), ids, owner);
      MissingItemsAreRecorded(Abstract(), ids);
      forall i | 0 <= i < |missing.value| ensures missing.value[i].idealGasPrice == missing.value[i].request.idealGasPrice {
        assert missing.value[i] in missing.value;
      }
      PrependOutcome(store.queue, missing.value);
      var unlocked := PrependInPlace(store.queue, missing.value);
      match unlocked
      case Failure(_) => thrown := true;
      case Success(q) =>
        PrependedKeys(store, q, missing.value, owner, sent);
        UpdateAndBroadcast(q, owner);
        thrown := false;
    }

    method EndResponse(id: string, ghost owner: string -> Identifier)
      requires Valid(owner) && Allowed(Abstract(), End(id), owner) && id != store.queueKey
      modifies store
      ensures Valid(owner)
      ensures Abstract() == Responder.EndResponse(old(Abstract()), id)
    {
      store.RemoveResponse(id);
    }
  }

  lemma {:induction false} SameMissing(s: State, t: State, ids: seq<string>)
    requires s.queue == t.queue && s.transactions == t.transactions
    ensures MissingItems(s, ids) == MissingItems(t, ids)
    decreases |ids|
  {
    if ids != [] {
      SameMissing(s, t, ids[1..]);
    }
  }

  lemma {:induction false} MissingItemsAreRecorded(s: State, ids: seq<string>)
    requires MissingItems(s, ids).Some?
    ensures forall x :: x in MissingItems(s, ids).value ==> exists id :: id in s.transactions && s.transactions[id] == x
    decreases |ids|
  {
    if ids != [] {
      MissingItemsAreRecorded(s, ids[1..]);
    }
  }

  lemma KeysStayApart(store: ResponderStore, q: GasQueue, requests: seq<Request>, owner: string -> Identifier, sent: seq<Item>)
    requires store.Persisted(false) || store.Persisted(true)
    requires Tracked(State(store.queue, store.transactions, sent), owner)
    requires multiset(Requests(q.items)) <= multiset(requests)
    requires forall r :: r in requests ==> r in Requests(store.queue.items) || r.id != store.queueKey
    ensures store.KeysApart(q)
  {
    forall i | 0 <= i < |q.items| ensures q.items[i].request.id != store.queueKey {
      assert Requests(q.items)[i] in multiset(Requests(q.items));
      assert q.items[i].request in requests;
      if q.items[i].request in Requests(store.queue.items) {
        var j :| 0 <= j < |store.queue.items| && Requests(store.queue.items)[j] == q.items[i].request;
        assert store.queue.items[j].request.id in store.transactions;
      }
    }
  }

  lemma AddedKeys(store: ResponderStore, request: Request, owner: string -> Identifier, sent: seq<Item>)
    requires store.Persisted(false) || store.Persisted(true)
    requires Tracked(State(store.queue, store.transactions, sent), owner)
    requires Same(request.identifier, owner(request.id)) && request.id != store.queueKey
    ensures Add(store.queue, request).Success? ==>
      var q := Add(store.queue, request).value;
      store.KeysApart(q) && Tracked(UpdateQueue(State(store.queue, store.transactions, sent), q), owner)
  {
    if Add(store.queue, request).Success? {
      var rs := Requests(store.queue.items) + [request];
      StartKeepsTracked(State(store.queue, store.transactions, sent), request, owner);
      AddIsInsertion(store.queue, request);
      hide Add, Difference, Valid, Coherent, InsertRequest, LeastPremium;
      InsertRequestAdds(Requests(store.queue.items), request);
      assert multiset(rs) == multiset(Requests(store.queue.items)) + multiset{request};
      KeysStayApart(store, Add(store.queue, request).value, rs, owner, sent);
    }
  }

  lemma MinedKeys(store: ResponderStore, identifier: Identifier, nonce: int, owner: string -> Identifier, sent: seq<Item>)
    requires store.Persisted(false) || store.Persisted(true)
    requires Tracked(State(store.queue, store.transactions, sent), owner)
    requires AcceptsMined(State(store.queue, store.transactions, sent), identifier, nonce)
    ensures var s := State(store.queue, store.transactions, sent);
      && Reduced(s, identifier).Success?
      && store.KeysApart(Reduced(s, identifier).value)
      && Tracked(UpdateQueue(s, Reduced(s, identifier).value), owner)
  {
    var s := State(store.queue, store.transactions, sent);
    MinedKeepsTracked(s, identifier, nonce, owner);
    MinedRequestsRemain(s, identifier, nonce, owner);
    KeysStayApart(store, Reduced(s, identifier).value, Requests(store.queue.items), owner, sent);
  }

  lemma PrependedKeys(store: ResponderStore, q: GasQueue, lower: seq<Item>, owner: string -> Identifier, sent: seq<Item>)
    requires store.Persisted(false) || store.Persisted(true)
    requires Tracked(State(store.queue, store.transactions, sent), owner)
    requires multiset(Requests(q.items)) == multiset(Requests(lower + store.queue.items))
    requires forall x :: x in lower ==> exists id :: id in store.transactions && store.transactions[id] == x
    ensures store.KeysApart(q)
  {
    var rs := Requests(lower + store.queue.items);
    forall r | r in rs ensures r in Requests(store.queue.items) || r.id != store.queueKey {
      var i :| 0 <= i < |rs| && rs[i] == r;
      if i < |lower| {
        assert lower[i] in lower;
        var id :| id in store.transactions && store.transactions[id] == lower[i];
        assert GoodRecord(owner, id, store.transactions[id]);
      } else {
        assert r == Requests(store.queue.items)[i - |lower|];
      }
    }
    KeysStayApart(store, q, rs, owner, sent);
  }

  lemma DiskDetermines(queueKey: string, queue: Option<GasQueue>, transactions: map<string, Item>, responded: map<string, Item>)
    requires queueKey !in transactions
    requires var db := Disk(queueKey, queue, transactions);
      responded == map id | id in db.Keys && id != queueKey && db[id].StoredItem? :: db[id].item
    ensures responded == transactions
    ensures queueKey in Disk(queueKey, queue, transactions) <==> queue.Some?
  {
  }

  lemma {:induction false} MissingIsSubset(items: seq<Item>, others: seq<Item>)
    ensures forall x :: x in Missing(items, others) ==> x in items
  {
    if items != [] {
      MissingIsSubset(items[1..], others);
    }
  }

  lemma {:induction false} RecordedAvoids(transactions: map<string, Item>, items: seq<Item>, key: string)
    requires key !in transactions
    requires forall i :: 0 <= i < |items| ==> items[i].request.id != key
    ensures key !in Recorded(transactions, items)
    decreases |items|
  {
    if items != [] {
      RecordedAvoids(transactions[items[0].request.id := items[0]], items[1..], key);
    }
  }
}
