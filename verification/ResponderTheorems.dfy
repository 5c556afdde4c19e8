/** What holds over every run of the responder. */
module ResponderTheorems {
  import opened Wrappers
  import opened StableSort
  import opened GasQueue
  import opened GasQueueConstructor
  import opened GasQueueAdd
  import opened GasQueuePrepend
  import opened GasQueueRuns
  import opened Responder

  /** The item most recently sent at `nonce`. */
  function LastSentAt(sent: seq<Item>, nonce: int): Option<Item> {
    if sent == [] then None
    else if sent[|sent| - 1].nonce == nonce then Some(sent[|sent| - 1])
    else LastSentAt(sent[..|sent| - 1], nonce)
  }

  ghost predicate GoodRecord(owner: string -> Identifier, id: string, item: Item) {
    && item.request.id == id
    && Same(item.request.identifier, owner(id))
    && item.idealGasPrice == item.request.idealGasPrice
  }

  /** Each queued item is the one on record for its response and the last one sent at its nonce. */
  ghost predicate Tracked(s: State, owner: string -> Identifier) {
    && Sound(s.queue)
    && (forall i :: 0 <= i < |s.queue.items| ==>
          && s.queue.items[i].request.id in s.transactions
          && s.transactions[s.queue.items[i].request.id] == s.queue.items[i])
    && (forall id :: id in s.transactions ==> GoodRecord(owner, id, s.transactions[id]))
    && (forall i :: 0 <= i < |s.queue.items| ==>
          LastSentAt(s.sent, s.queue.items[i].nonce) == Some(s.queue.items[i]))
  }

  /** Requests are for the identifier that their id stands for, and only responses that left the queue are ended. */
  ghost predicate Allowed(s: State, step: Step, owner: string -> Identifier) {
    match step
    case Start(request) => Same(request.identifier, owner(request.id))
    case End(id) => forall i :: 0 <= i < |s.queue.items| ==> s.queue.items[i].request.id != id
    case _ => true
  }

  ghost predicate AllowedRun(s: State, steps: seq<Step>, owner: string -> Identifier)
    requires s.queue.replacementRate >= 1
    decreases |steps|
  {
    steps != [] ==> Allowed(s, steps[0], owner) && AllowedRun(Next(s, steps[0]), steps[1..], owner)
  }

  // ---- Recording and sending ---------------------------------------------------------------------------

  lemma {:induction false} RecordedKeeps(transactions: map<string, Item>, items: seq<Item>, id: string)
    requires forall i :: 0 <= i < |items| ==> items[i].request.id != id
    ensures id in Recorded(transactions, items) <==> id in transactions
    ensures id in transactions ==> Recorded(transactions, items)[id] == transactions[id]
    decreases |items|
  {
    if items != [] {
      RecordedKeeps(transactions[items[0].request.id := items[0]], items[1..], id);
    }
  }

  lemma {:induction false} RecordedFinds(transactions: map<string, Item>, items: seq<Item>, k: nat)
    requires k < |items|
    requires forall i, j :: 0 <= i < j < |items| ==> items[i].request.id != items[j].request.id
    ensures items[k].request.id in Recorded(transactions, items)
    ensures Recorded(transactions, items)[items[k].request.id] == items[k]
    decreases |items|
  {
    var next := transactions[items[0].request.id := items[0]];
    if k == 0 {
      RecordedKeeps(next, items[1..], items[0].request.id);
    } else {
      RecordedFinds(next, items[1..], k - 1);
    }
  }

  lemma {:induction false} RecordedKeepsGood(transactions: map<string, Item>, items: seq<Item>, owner: string -> Identifier)
    requires forall id :: id in transactions ==> GoodRecord(owner, id, transactions[id])
    requires forall i :: 0 <= i < |items| ==> GoodRecord(owner, items[i].request.id, items[i])
    ensures forall id :: id in Recorded(transactions, items) ==> GoodRecord(owner, id, Recorded(transactions, items)[id])
    decreases |items|
  {
    if items != [] {
      RecordedKeepsGood(transactions[items[0].request.id := items[0]], items[1..], owner);
    }
  }

  lemma {:induction false} SentElsewhere(sent: seq<Item>, items: seq<Item>, nonce: int)
    requires forall i :: 0 <= i < |items| ==> items[i].nonce != nonce
    ensures LastSentAt(sent + items, nonce) == LastSentAt(sent, nonce)
  {
    if items == [] {
      assert sent + items == sent;
    } else {
      SentElsewhere(sent, items[..|items| - 1], nonce);
      assert (sent + items)[..|sent + items| - 1] == sent + items[..|items| - 1];
    }
  }

  lemma {:induction false} SentHere(sent: seq<Item>, items: seq<Item>, k: nat)
    requires k < |items|
    requires forall i :: 0 <= i < |items| && i != k ==> items[i].nonce != items[k].nonce
    ensures LastSentAt(sent + items, items[k].nonce) == Some(items[k])
  {
    if k < |items| - 1 {
      SentHere(sent, items[..|items| - 1], k);
      assert (sent + items)[..|sent + items| - 1] == sent + items[..|items| - 1];
    }
  }

  // ---- The difference as a list ------------------------------------------------------------------------

  lemma {:induction false} MissingIsSublist(items: seq<Item>, others: seq<Item>, clash: (Item, Item) -> bool)
    requires Apart(items, clash)
    ensures Apart(Missing(items, others), clash)
    ensures forall x :: x in Missing(items, others) <==> x in items && x !in others
  {
    if items != [] {
      MissingIsSublist(items[1..], others, clash);
      if items[0] !in others {
        var rest := Missing(items[1..], others);
        assert ([items[0]] + rest)[1..] == rest;
        HeadApart([items[0]] + rest, clash);
      }
    }
  }

  predicate SameId(a: Item, b: Item) { a.request.id == b.request.id }

  /** Distinct identifiers that stand for their ids have distinct ids. */
  lemma DistinctIds(items: seq<Item>, owner: string -> Identifier)
    requires Distinct(items)
    requires forall i :: 0 <= i < |items| ==> GoodRecord(owner, items[i].request.id, items[i])
    ensures Apart(items, SameId)
  {
    forall i, j | 0 <= i < j < |items| ensures !SameId(items[i], items[j]) {
      assert !Same(items[i].request.identifier, items[j].request.identifier);
    }
  }

  // ---- The invariant -----------------------------------------------------------------------------------

  lemma UpdateKeepsTracked(s: State, q: GasQueue, owner: string -> Identifier)
    requires Tracked(s, owner) && Sound(q)
    requires forall i :: 0 <= i < |q.items| ==> GoodRecord(owner, q.items[i].request.id, q.items[i])
    ensures Tracked(UpdateQueue(s, q), owner)
  {
    var d := Difference(q, s.queue);
    var t := UpdateQueue(s, q);
    assert Apart(q.items, SameNonce);
    MissingIsSublist(q.items, s.queue.items, SameNonce);
    DistinctIds(q.items, owner);
    MissingIsSublist(q.items, s.queue.items, SameId);
    forall i | 0 <= i < |d| ensures GoodRecord(owner, d[i].request.id, d[i]) {
      assert d[i] in d;
    }
    RecordedKeepsGood(s.transactions, d, owner);
    forall i | 0 <= i < |q.items|
      ensures q.items[i].request.id in t.transactions && t.transactions[q.items[i].request.id] == q.items[i]
      ensures LastSentAt(t.sent, q.items[i].nonce) == Some(q.items[i])
    {
      UpdatedAt(s, q, owner, i);
    }
  }

  lemma UpdatedAt(s: State, q: GasQueue, owner: string -> Identifier, i: nat)
    requires Tracked(s, owner) && Sound(q) && i < |q.items|
    requires Apart(q.items, SameNonce) && Apart(q.items, SameId)
    requires var d := Difference(q, s.queue);
      Apart(d, SameNonce) && Apart(d, SameId) && forall x :: x in d <==> x in q.items && x !in s.queue.items
    ensures var t := UpdateQueue(s, q);
      && q.items[i].request.id in t.transactions && t.transactions[q.items[i].request.id] == q.items[i]
      && LastSentAt(t.sent, q.items[i].nonce) == Some(q.items[i])
  {
    var d, x := Difference(q, s.queue), q.items[i];
    if x in d {
      var k :| 0 <= k < |d| && d[k] == x;
      forall a, b | 0 <= a < b < |d| ensures d[a].request.id != d[b].request.id {
        assert !SameId(d[a], d[b]);
      }
      RecordedFinds(s.transactions, d, k);
      forall a | 0 <= a < |d| && a != k ensures d[a].nonce != d[k].nonce {
        assert if a < k then !SameNonce(d[a], d[k]) else !SameNonce(d[k], d[a]);
      }
      SentHere(s.sent, d, k);
    } else {
      assert x in s.queue.items;
      var j :| 0 <= j < |s.queue.items| && s.queue.items[j] == x;
      forall a | 0 <= a < |d| ensures d[a].request.id != x.request.id && d[a].nonce != x.nonce {
        assert d[a] in d;
        var m :| 0 <= m < |q.items| && q.items[m] == d[a];
        assert if m < i then !SameId(q.items[m], q.items[i]) && !SameNonce(q.items[m], q.items[i])
               else !SameId(q.items[i], q.items[m]) && !SameNonce(q.items[i], q.items[m]);
      }
      RecordedKeeps(s.transactions, d, x.request.id);
      SentElsewhere(s.sent, d, x.nonce);
    }
  }

  /** A queue whose requests all come from good records or from a good request consists of good records. */
  lemma GoodByRequest(items: seq<Item>, requests: seq<Request>, owner: string -> Identifier)
    requires Coherent(items)
    requires multiset(Requests(items)) <= multiset(requests)
    requires forall r :: r in requests ==> Same(r.identifier, owner(r.id))
    ensures forall i :: 0 <= i < |items| ==> GoodRecord(owner, items[i].request.id, items[i])
  {
    forall i | 0 <= i < |items| ensures GoodRecord(owner, items[i].request.id, items[i]) {
      assert Requests(items)[i] in multiset(Requests(items));
      assert items[i].request in requests;
    }
  }

  lemma TrackedRequests(s: State, owner: string -> Identifier)
    requires Tracked(s, owner)
    ensures forall r :: r in Requests(s.queue.items) ==> Same(r.identifier, owner(r.id))
  {
    forall r | r in Requests(s.queue.items) ensures Same(r.identifier, owner(r.id)) {
      var i :| 0 <= i < |s.queue.items| && Requests(s.queue.items)[i] == r;
      assert GoodRecord(owner, r.id, s.transactions[s.queue.items[i].request.id]);
    }
  }

  lemma TrackedIsSound(s: State, owner: string -> Identifier)
    requires Tracked(s, owner)
    ensures Sound(s.queue) && Valid(s.queue) && Coherent(s.queue.items)
  {
  }

  lemma StartKeepsTracked(s: State, request: Request, owner: string -> Identifier)
    requires Tracked(s, owner) && Same(request.identifier, owner(request.id))
    ensures Tracked(StartResponse(s, request), owner)
  {
    AddIsInsertion(s.queue, request);
    if Add(s.queue, request).Success? {
      var q := Add(s.queue, request).value;
      var rs := Requests(s.queue.items) + [request];
      InsertRequestAdds(Requests(s.queue.items), request);
      TrackedRequests(s, owner);
      assert multiset(rs) == multiset(Requests(s.queue.items)) + multiset{request};
      GoodByRequest(q.items, rs, owner);
      UpdateKeepsTracked(s, q, owner);
    }
  }

  lemma MinedKeepsTracked(s: State, identifier: Identifier, nonce: int, owner: string -> Identifier)
    requires Tracked(s, owner)
    ensures Tracked(TxMined(s, identifier, nonce), owner)
  {
    if AcceptsMined(s, identifier, nonce) {
      TrackedRequests(s, owner);
      MinedRemovesRequest(s, identifier, nonce, owner);
      MinedRequestsRemain(s, identifier, nonce, owner);
      var q := TxMined(s, identifier, nonce).queue;
      GoodByRequest(q.items, Requests(s.queue.items), owner);
      UpdateKeepsTracked(s, q, owner);
    }
  }

  /** An accepted `txMined` takes exactly the mined request out of the queue and raises the front nonce by one. */
  lemma MinedRemovesRequest(s: State, identifier: Identifier, nonce: int, owner: string -> Identifier)
    requires Tracked(s, owner) && AcceptsMined(s, identifier, nonce)
    ensures var k, t := IndexOf(s.queue.items, identifier), TxMined(s, identifier, nonce);
      && Sound(t.queue)
      && t == UpdateQueue(s, t.queue)
      && Requests(t.queue.items) == Requests(s.queue.items)[..k] + Requests(s.queue.items)[k + 1..]
      && t.queue.emptyNonce == s.queue.emptyNonce
      && (t.queue.items != [] ==> t.queue.items[0].nonce == nonce + 1)
      && !Contains(t.queue, identifier)
  {
    TrackedIsSound(s, owner);
    hide Tracked, Valid, Coherent, IndexOf, Requests, Contains, Difference, UpdateQueue, Dequeue, Consume, Same;
    ReducedRemoves(s.queue, identifier);
    FrontNonce(s.queue);
    var q := TxMined(s, identifier, nonce).queue;
    QueueAfterUpdate(s, q);
    FrontNonce(q);
    NoLongerContained(s.queue, q, identifier);
  }

  lemma QueueAfterUpdate(s: State, q: GasQueue)
    ensures UpdateQueue(s, q).queue == q
  {
  }

  /** Both ways of reducing a queue take the request of the identifier out. */
  lemma ReducedRemoves(q: GasQueue, identifier: Identifier)
    requires Valid(q) && Coherent(q.items) && q.items != [] && IndexOf(q.items, identifier) != -1
    ensures var k := IndexOf(q.items, identifier);
      var r := if Same(identifier, q.items[0].request.identifier) then Dequeue(q) else Consume(q, identifier);
      && k < |q.items|
      && r.Success? && Valid(r.value) && Coherent(r.value.items) && r.value.emptyNonce == q.emptyNonce
      && Requests(r.value.items) == Requests(q.items)[..k] + Requests(q.items)[k + 1..]
      && |r.value.items| == |q.items| - 1
  {
    hide Dequeue, Consume, Distinct, Consecutive, PriceOrdered;
    var k := IndexOf(q.items, identifier);
    DequeueDropsFront(q);
    ConsumeIsDeletion(q, identifier);
    assert Same(identifier, q.items[0].request.identifier) <==> k == 0;
    if k == 0 {
      assert Requests(q.items[1..]) == Requests(q.items)[1..];
    } else {
      var r := Consume(q, identifier).value;
      assert |Requests(r.items)| == |r.items|;
    }
  }

  lemma FrontNonce(q: GasQueue)
    requires Valid(q)
    ensures q.items != [] ==> q.items[0].nonce == q.emptyNonce - |q.items|
  {
  }

  lemma MinedRequestsRemain(s: State, identifier: Identifier, nonce: int, owner: string -> Identifier)
    requires Tracked(s, owner) && AcceptsMined(s, identifier, nonce)
    ensures multiset(Requests(TxMined(s, identifier, nonce).queue.items)) <= multiset(Requests(s.queue.items))
    ensures var reduced := Reduced(s, identifier);
      reduced.Success? && reduced.value == TxMined(s, identifier, nonce).queue
  {
    TrackedIsSound(s, owner);
    assert s.queue.replacementRate >= 1;
    assert s.queue.items != [] && IndexOf(s.queue.items, identifier) != -1;
    hide *;
    ReducedIsMined(s, identifier, nonce, owner);
    MinedRemovesRequest(s, identifier, nonce, owner);
    OneRequestLess(Requests(s.queue.items), Requests(TxMined(s, identifier, nonce).queue.items),
                   IndexOf(s.queue.items, identifier));
  }

  lemma OneRequestLess(a: seq<Request>, b: seq<Request>, k: nat)
    requires k < |a| && b == a[..k] + a[k + 1..]
    ensures multiset(b) <= multiset(a)
  {
    RemoveAt(a, k);
  }

  lemma ReducedIsMined(s: State, identifier: Identifier, nonce: int, owner: string -> Identifier)
    requires Tracked(s, owner) && AcceptsMined(s, identifier, nonce)
    ensures var reduced := Reduced(s, identifier);
      reduced.Success? && reduced.value == TxMined(s, identifier, nonce).queue
  {
    TrackedIsSound(s, owner);
    hide Tracked, Distinct, PriceOrdered, Consecutive, Coherent, Difference, Recorded, Requests, Dequeue, Consume;
    DequeueDropsFront(s.queue);
    ConsumeIsDeletion(s.queue, identifier);
  }

  lemma NoLongerContained(before: GasQueue, after: GasQueue, identifier: Identifier)
    requires Valid(before) && IndexOf(before.items, identifier) != -1
    requires var k := IndexOf(before.items, identifier);
      Requests(after.items) == Requests(before.items)[..k] + Requests(before.items)[k + 1..]
    ensures !Contains(after, identifier)
  {
    var k := IndexOf(before.items, identifier);
    forall j | 0 <= j < |after.items| ensures !Same(identifier, after.items[j].request.identifier) {
      assert after.items[j].request == Requests(after.items)[j] == Requests(before.items)[if j < k then j else j + 1];
      assert j >= k ==> !Same(before.items[k].request.identifier, before.items[j + 1].request.identifier);
    }
  }

  lemma {:induction false} MissingItemsAreGood(s: State, ids: seq<string>, owner: string -> Identifier)
    requires Tracked(s, owner) && MissingItems(s, ids).Some?
    ensures forall x :: x in MissingItems(s, ids).value ==> GoodRecord(owner, x.request.id, x)
  {
    if ids != [] {
      MissingItemsAreGood(s, ids[1..], owner);
      assert GoodRecord(owner, ids[0], s.transactions[ids[0]]);
    }
  }

  lemma ReEnqueueKeepsTracked(s: State, ids: seq<string>, owner: string -> Identifier)
    requires Tracked(s, owner)
    ensures Tracked(ReEnqueueMissingItems(s, ids), owner)
  {
    TrackedIsSound(s, owner);
    hide Tracked, Valid, Coherent, Difference, UpdateQueue, Prepend, Prependable, Requests;
    if MissingItems(s, ids).Some? {
      var lower := MissingItems(s, ids).value;
      MissingItemsAreGood(s, ids, owner);
      GoodIsCoherent(lower, owner);
      PrependOutcome(s.queue, lower);
      if Prepend(s.queue, lower).Success? {
        var q := Prepend(s.queue, lower).value;
        TrackedRequests(s, owner);
        RequestsAreGood(lower, s.queue.items, owner);
        GoodByRequest(q.items, Requests(lower + s.queue.items), owner);
        UpdateKeepsTracked(s, q, owner);
      }
    }
  }

  lemma GoodIsCoherent(items: seq<Item>, owner: string -> Identifier)
    requires forall x :: x in items ==> GoodRecord(owner, x.request.id, x)
    ensures Coherent(items)
  {
    forall i | 0 <= i < |items| ensures items[i].idealGasPrice == items[i].request.idealGasPrice {
      assert items[i] in items;
    }
  }

  lemma RequestsAreGood(lower: seq<Item>, items: seq<Item>, owner: string -> Identifier)
    requires forall x :: x in lower ==> GoodRecord(owner, x.request.id, x)
    requires forall r :: r in Requests(items) ==> Same(r.identifier, owner(r.id))
    ensures forall r :: r in Requests(lower + items) ==> Same(r.identifier, owner(r.id))
  {
    var rs := Requests(lower + items);
    forall r | r in rs ensures Same(r.identifier, owner(r.id)) {
      var i :| 0 <= i < |rs| && rs[i] == r;
      if i < |lower| {
        assert lower[i] in lower;
      } else {
        assert r == Requests(items)[i - |lower|];
      }
    }
  }

  lemma StepKeepsTracked(s: State, step: Step, owner: string -> Identifier)
    requires Tracked(s, owner) && Allowed(s, step, owner)
    ensures Tracked(Next(s, step), owner)
  {
    match step
    case Start(request) => StartKeepsTracked(s, request, owner);
    case Mined(identifier, nonce) => MinedKeepsTracked(s, identifier, nonce, owner);
    case ReEnqueue(ids) => ReEnqueueKeepsTracked(s, ids, owner);
    case End(id) =>
  }

  /** From an empty queue, every run keeps queue, records and network in step. */
  lemma {:induction false} RunKeepsTracked(s: State, steps: seq<Step>, owner: string -> Identifier)
    requires Tracked(s, owner) && AllowedRun(s, steps, owner)
    ensures Tracked(Run(s, steps), owner)
    decreases |steps|
  {
    if steps != [] {
      StepKeepsTracked(s, steps[0], owner);
      RunKeepsTracked(Next(s, steps[0]), steps[1..], owner);
    }
  }

  lemma EmptyQueueIsTracked(seed: GasQueue, owner: string -> Identifier)
    requires Make(seed).Success? && seed.items == []
    ensures Tracked(State(seed, map[], []), owner)
  {
    MakeIffValid(seed);
  }

  // ---- An ended response -------------------------------------------------------------------------------

  /** An ended response has no record any more, the others keep theirs, and a request to re-enqueue it does nothing. */
  lemma EndedStaysOut(s: State, id: string, ids: seq<string>)
    requires s.queue.replacementRate >= 1 && id in ids
    ensures var t := EndResponse(s, id);
      && t.queue == s.queue && t.sent == s.sent && t.transactions.Keys == s.transactions.Keys - {id}
      && (forall other :: other in t.transactions ==> t.transactions[other] == s.transactions[other])
      && ReEnqueueMissingItems(t, ids) == t
  {
    UnrecordedIsMissing(EndResponse(s, id), id, ids);
  }

  lemma {:induction false} UnrecordedIsMissing(s: State, id: string, ids: seq<string>)
    requires id !in s.transactions && id in ids
    ensures MissingItems(s, ids) == None
    decreases |ids|
  {
    if ids[0] != id {
      UnrecordedIsMissing(s, id, ids[1..]);
    }
  }

  // ---- A consumed item does not come back --------------------------------------------------------------

  /**
   * A request that was mined from behind the front keeps, on record, the nonce it had when it was last sent, not the
   * one it was mined at. If a reorganisation undoes the block at once, it is not put back in the queue.
   */
  lemma ConsumedItemStaysOut(s: State, identifier: Identifier, nonce: int, owner: string -> Identifier)
    requires Tracked(s, owner) && AcceptsMined(s, identifier, nonce)
    requires IndexOf(s.queue.items, identifier) >= 1
    ensures var id, t := s.queue.items[IndexOf(s.queue.items, identifier)].request.id, TxMined(s, identifier, nonce);
      && id in t.transactions && !Contains(t.queue, t.transactions[id].request.identifier)
      && t.transactions[id].nonce > nonce
      && ReEnqueueMissingItems(t, [id]) == t
  {
    hide Difference, Missing, Sort, Reordered, PriceOrdered, Shifted, Prepend, MissingItems, Contains;
    var k, t := IndexOf(s.queue.items, identifier), TxMined(s, identifier, nonce);
    var item := s.queue.items[k];
    TrackedIsSound(s, owner);
    MinedRemovesRequest(s, identifier, nonce, owner);
    MinedKeepsTracked(s, identifier, nonce, owner);
    ConsumeIsDeletion(s.queue, identifier);
    var d := Difference(t.queue, s.queue);
    EarlierHaveOtherIds(s, owner, t.queue, k, d);
    RecordedKeeps(s.transactions, d, item.request.id);
    assert t.transactions[item.request.id] == item;
    NotContained(t.queue, identifier, item.request.identifier);
    assert |t.queue.items| == |Requests(t.queue.items)| == |s.queue.items| - 1;
    StaleItemStaysOut(t, owner, item, nonce);
  }

  lemma StaleItemStaysOut(t: State, owner: string -> Identifier, item: Item, nonce: int)
    requires Tracked(t, owner) && item.request.id in t.transactions && t.transactions[item.request.id] == item
    requires !Contains(t.queue, item.request.identifier) && t.queue.items != []
    requires t.queue.items[0].nonce == nonce + 1 && item.nonce > nonce
    ensures ReEnqueueMissingItems(t, [item.request.id]) == t
  {
    hide Contains, Distinct, PriceOrdered, Sort, Reordered, Prepend, Difference;
    assert GoodRecord(owner, item.request.id, item);
    assert MissingItems(t, [item.request.id]) == Some([item]) by {
      assert MissingItems(t, [item.request.id][1..]) == Some([]);
      assert [item] + [] == [item];
    }
    PrependOutcome(t.queue, [item]);
    assert !FillsBelow(t.queue, [item]) by {
      assert [item][0].nonce == item.nonce;
    }
  }

  /** The requests that move up when one behind them is consumed have other ids than that one. */
  lemma EarlierHaveOtherIds(s: State, owner: string -> Identifier, q: GasQueue, k: nat, d: seq<Item>)
    requires Tracked(s, owner) && k < |s.queue.items| && k <= |q.items| && d == q.items[..k]
    requires Requests(q.items) == Requests(s.queue.items)[..k] + Requests(s.queue.items)[k + 1..]
    ensures forall i :: 0 <= i < |d| ==> d[i].request.id != s.queue.items[k].request.id
  {
    var item := s.queue.items[k];
    forall i | 0 <= i < |d| ensures d[i].request.id != item.request.id {
      assert d[i].request == Requests(q.items)[i] == Requests(s.queue.items)[i];
      assert GoodRecord(owner, s.queue.items[i].request.id, s.queue.items[i]);
      assert !Same(s.queue.items[i].request.identifier, item.request.identifier);
      assert GoodRecord(owner, item.request.id, item);
    }
  }

  lemma NotContained(q: GasQueue, a: Identifier, b: Identifier)
    requires Same(a, b) && !Contains(q, a)
    ensures !Contains(q, b)
  {
  }
}
