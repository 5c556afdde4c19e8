/** Requests that come back into the queue after a reorganisation, and what is sent when they do. */
module ResponderReorg {
  import opened Wrappers
  import opened GasQueue
  import opened GasQueueAdd
  import opened GasQueuePrepend
  import opened GasQueueRuns
  import opened Responder
  import opened ResponderTheorems

  // ---- One missing request -----------------------------------------------------------------------------

  lemma OneMissing(t: State, id: string)
    requires id in t.transactions && !Contains(t.queue, t.transactions[id].request.identifier)
    ensures MissingItems(t, [id]) == Some([t.transactions[id]])
  {
    assert [id][1..] == [] && [t.transactions[id]] + [] == [t.transactions[id]];
  }

  /**
   * A single recorded request that is not queued comes back if and only if the nonce on record is the one just below the
   * queue and there is room. Otherwise nothing changes.
   */
  lemma ComesBackIff(t: State, owner: string -> Identifier, id: string)
    requires Tracked(t, owner) && id in t.transactions
    requires !Contains(t.queue, t.transactions[id].request.identifier)
    ensures var (x, r) := (t.transactions[id], ReEnqueueMissingItems(t, [id]));
      && (Contains(r.queue, x.request.identifier)
          <==> x.nonce == t.queue.emptyNonce - |t.queue.items| - 1 && !DepthIsReached(t.queue))
      && (!Contains(r.queue, x.request.identifier) ==> r == t)
      && (Contains(r.queue, x.request.identifier) ==>
            multiset(Requests(r.queue.items)) == multiset(Requests([x] + t.queue.items)))
  {
    var x := t.transactions[id];
    TrackedIsSound(t, owner);
    OneMissing(t, id);
    assert GoodRecord(owner, id, x);
    OneFills(t.queue, x);
    hide Tracked, Valid, FillsBelow, Prepend, Difference, Distinct, Contains, Requests;
    PrependOutcome(t.queue, [x]);
    if Prepend(t.queue, [x]).Success? {
      RequestIsContained(Prepend(t.queue, [x]).value, [x] + t.queue.items, x);
    }
  }

  lemma OneFills(q: GasQueue, x: Item)
    requires Valid(q) && !Contains(q, x.request.identifier)
    ensures Prependable(q, [x]) <==> x.nonce == q.emptyNonce - |q.items| - 1 && !DepthIsReached(q)
  {
    var all := [x] + q.items;
    forall i, j | 0 <= i < j < |all| ensures !Same(all[i].request.identifier, all[j].request.identifier) {
      assert all[j] == q.items[j - 1];
      assert i > 0 ==> all[i] == q.items[i - 1];
    }
    assert [x][0] == x;
  }

  /** Items with the same requests contain the same identifiers. */
  lemma RequestIsContained(q: GasQueue, items: seq<Item>, x: Item)
    requires multiset(Requests(q.items)) == multiset(Requests(items)) && x in items
    ensures Contains(q, x.request.identifier)
  {
    var i :| 0 <= i < |items| && items[i] == x;
    assert Requests(items)[i] in multiset(Requests(items));
    assert x.request in Requests(q.items);
    var j :| 0 <= j < |q.items| && Requests(q.items)[j] == x.request;
    assert Same(x.request.identifier, q.items[j].request.identifier);
  }

  // ---- A block that is undone at once ------------------------------------------------------------------

  lemma FrontIsDropped(s: State, identifier: Identifier, nonce: int, owner: string -> Identifier)
    requires Tracked(s, owner) && AcceptsMined(s, identifier, nonce) && IndexOf(s.queue.items, identifier) == 0
    ensures TxMined(s, identifier, nonce) == s.(queue := s.queue.(items := s.queue.items[1..]))
    ensures !Contains(TxMined(s, identifier, nonce).queue, s.queue.items[0].request.identifier)
  {
    TrackedIsSound(s, owner);
    MinedRemovesRequest(s, identifier, nonce, owner);
    DequeueDropsFront(s.queue);
    NotContained(TxMined(s, identifier, nonce).queue, identifier, s.queue.items[0].request.identifier);
    hide Tracked, Sound, Valid, Coherent, Requests, Contains, Consume, Dequeue, UpdateQueue;
    NothingSent(s, s.queue.(items := s.queue.items[1..]));
  }

  lemma NothingSent(s: State, q: GasQueue)
    requires forall x :: x in q.items ==> x in s.queue.items
    ensures UpdateQueue(s, q) == s.(queue := q)
  {
    NothingNew(q.items, s.queue.items);
    assert s.sent + [] == s.sent;
  }

  lemma FrontIsRecorded(s: State, owner: string -> Identifier)
    requires Tracked(s, owner) && s.queue.items != []
    ensures var item := s.queue.items[0];
      item.request.id in s.transactions && s.transactions[item.request.id] == item
  {
  }

  lemma FrontPrepended(q: GasQueue)
    requires Sound(q) && q.items != []
    ensures Prepend(q.(items := q.items[1..]), [q.items[0]]) == Success(q)
  {
    assert q.items[..1] == [q.items[0]];
    DequeueManyDrops(q, 1);
    ReorgRoundTrip(q, 1, [q.items[0]]);
  }

  lemma FrontComesBack(s: State, identifier: Identifier, nonce: int, owner: string -> Identifier)
    requires Tracked(s, owner) && AcceptsMined(s, identifier, nonce) && IndexOf(s.queue.items, identifier) == 0
    ensures var (id, t) := (s.queue.items[0].request.id, TxMined(s, identifier, nonce));
      && id in t.transactions && ReEnqueueMissingItems(t, [id]).queue == s.queue
  {
    var (item, t) := (s.queue.items[0], TxMined(s, identifier, nonce));
    TrackedIsSound(s, owner);
    FrontIsRecorded(s, owner);
    FrontIsDropped(s, identifier, nonce, owner);
    FrontPrepended(s.queue);
    OneMissing(t, item.request.id);
    hide Tracked, Sound, Valid, Coherent, Contains, TxMined, Prepend, Difference, MissingItems;
  }

  lemma NothingNew(items: seq<Item>, others: seq<Item>)
    requires forall x :: x in items ==> x in others
    ensures Missing(items, others) == []
  {
    MissingAllOrNothing(items, others);
  }

  /**
   * When the block of a mined transaction is undone at once, its request comes back if and only if it was at the front.
   * Then the queue is what it was before; otherwise re-enqueuing changes nothing.
   */
  lemma ComesBackAtOnceIff(s: State, identifier: Identifier, nonce: int, owner: string -> Identifier)
    requires Tracked(s, owner) && AcceptsMined(s, identifier, nonce)
    ensures var k := IndexOf(s.queue.items, identifier);
      var (id, t) := (s.queue.items[k].request.id, TxMined(s, identifier, nonce));
      && id in t.transactions
      && (Contains(ReEnqueueMissingItems(t, [id]).queue, identifier) <==> k == 0)
      && (k == 0 ==> ReEnqueueMissingItems(t, [id]).queue == s.queue)
      && (k > 0 ==> ReEnqueueMissingItems(t, [id]) == t)
  {
    TrackedIsSound(s, owner);
    MinedRemovesRequest(s, identifier, nonce, owner);
    hide Tracked, Valid, ReEnqueueMissingItems, TxMined, Sound, UpdateQueue;
    if IndexOf(s.queue.items, identifier) == 0 {
      FrontComesBack(s, identifier, nonce, owner);
    } else {
      ConsumedItemStaysOut(s, identifier, nonce, owner);
    }
  }
}
