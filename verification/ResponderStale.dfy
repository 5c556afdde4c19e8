/**
 * A run after which a stale record comes back: a request is mined from behind the front, the rest of the queue is mined,
 * and then its record, with the nonce that another transaction has used since, fills just below the empty queue.
 */
module ResponderStale {
  import opened Wrappers
  import opened Gas = GasQueue
  import opened GasQueueAdd
  import opened GasQueueRuns
  import opened Responder
  import opened ResponderTheorems
  import opened ResponderPrices

  /** Requests for 100, 200 and 300 with different identifiers and ids. */
  ghost predicate ThreeRequests(x: Request, b: Request, a: Request) {
    && x.idealGasPrice == 100 && b.idealGasPrice == 200 && a.idealGasPrice == 300
    && !Same(x.identifier, b.identifier) && !Same(x.identifier, a.identifier) && !Same(b.identifier, a.identifier)
    && x.id != b.id && x.id != a.id && b.id != a.id
  }

  function At(r: Request, nonce: int): Item {
    ItemRecord.Item(r, r.idealGasPrice, r.idealGasPrice, nonce)
  }

  function Queue(items: seq<Item>, emptyNonce: int): Gas.GasQueue {
    Gas.GasQueue(items, emptyNonce, 10, 10)
  }

  lemma SameIsSymmetric(a: Identifier, b: Identifier)
    ensures Same(a, b) <==> Same(b, a)
  {
  }

  // ---- Queues ------------------------------------------------------------------------------------------

  lemma FirstAdded(x: Request)
    ensures Add(Queue([], 3), x) == Success(Queue([At(x, 3)], 4))
    ensures Difference(Queue([At(x, 3)], 4), Queue([], 3)) == [At(x, 3)]
  {
    var (q, r) := (Queue([], 3), Add(Queue([], 3), x));
    AddIsInsertion(q, x);
    assert Requests(r.value.items)[0] == x;
    assert r.value.items == [At(x, 3)];
  }

  lemma DearerIsAdded(x: Request, b: Request)
    requires x.idealGasPrice == 100 && b.idealGasPrice == 200 && !Same(x.identifier, b.identifier)
    ensures Add(Queue([At(x, 3)], 4), b) == Success(Queue([At(b, 3), At(x, 4)], 5))
    ensures Difference(Queue([At(b, 3), At(x, 4)], 5), Queue([At(x, 3)], 4)) == [At(b, 3), At(x, 4)]
  {
    var (q, r) := (Queue([At(x, 3)], 4), Add(Queue([At(x, 3)], 4), b));
    SameIsSymmetric(x.identifier, b.identifier);
    AddIsInsertion(q, b);
    assert Requests(q.items) == [x];
    assert Requests(r.value.items) == [b, x];
    assert Requests(r.value.items)[0] == b && Requests(r.value.items)[1] == x;
    assert r.value.items == [At(b, 3), At(x, 4)];
    assert InsertionPoint(q.items, 200) == 0;
  }

  lemma DearestIsAdded(x: Request, b: Request, a: Request)
    requires ThreeRequests(x, b, a)
    ensures var (q, r) := (Queue([At(b, 3), At(x, 4)], 5), Queue([At(a, 3), At(b, 4), At(x, 5)], 6));
      Add(q, a) == Success(r) && Difference(r, q) == r.items
  {
    var (q, r) := (Queue([At(b, 3), At(x, 4)], 5), Add(Queue([At(b, 3), At(x, 4)], 5), a));
    SameIsSymmetric(x.identifier, a.identifier);
    SameIsSymmetric(b.identifier, a.identifier);
    SameIsSymmetric(b.identifier, x.identifier);
    assert Valid(q) && Coherent(q.items);
    AddIsInsertion(q, a);
    assert Requests(q.items) == [b, x];
    assert Requests(r.value.items) == [a, b, x];
    assert Requests(r.value.items)[0] == a && Requests(r.value.items)[1] == b && Requests(r.value.items)[2] == x;
    assert InsertionPoint(q.items, 300) == 0;
    assert r.value.items == [At(a, 3), At(b, 4), At(x, 5)];
  }

  lemma LastIsConsumed(x: Request, b: Request, a: Request)
    requires ThreeRequests(x, b, a)
    ensures var (q, r) := (Queue([At(a, 3), At(b, 4), At(x, 5)], 6), Queue([At(a, 4), At(b, 5)], 6));
      && IndexOf(q.items, x.identifier) == 2
      && Consume(q, x.identifier) == Success(r) && Difference(r, q) == r.items
  {
    var q := Queue([At(a, 3), At(b, 4), At(x, 5)], 6);
    var r := Consume(q, x.identifier);
    SameIsSymmetric(b.identifier, a.identifier);
    SameIsSymmetric(x.identifier, a.identifier);
    SameIsSymmetric(x.identifier, b.identifier);
    assert Valid(q) && Coherent(q.items);
    assert Same(x.identifier, q.items[2].request.identifier);
    assert IndexOf(q.items, x.identifier) == 2;
    ConsumeIsDeletion(q, x.identifier);
    assert Requests(q.items) == [a, b, x];
    assert Requests(r.value.items) == [a, b];
    assert Requests(r.value.items)[0] == a && Requests(r.value.items)[1] == b;
    assert r.value.items == [At(a, 4), At(b, 5)];
  }

  lemma FrontIsDequeued(q: Gas.GasQueue)
    requires Valid(q) && q.items != []
    ensures Dequeue(q) == Success(q.(items := q.items[1..])) && Difference(q.(items := q.items[1..]), q) == []
  {
    DequeueDropsFront(q);
    MissingAllOrNothing(q.items[1..], q.items);
  }

  lemma StaleIsPrepended(x: Request)
    requires x.idealGasPrice == 100
    ensures Prepend(Queue([], 6), [At(x, 5)]) == Success(Queue([At(x, 5)], 6))
  {
    var q := Queue([At(x, 5)], 6);
    assert Sound(q);
    assert q.items[..1] == [At(x, 5)] && q.items[1..] == [];
    ReorgRoundTrip(q, 1, [At(x, 5)]);
    DequeueManyDrops(q, 1);
  }

  // ---- The run -----------------------------------------------------------------------------------------

  function StaleRun(x: Request, b: Request, a: Request): seq<Step> {
    [Start(x), Start(b), Start(a), Mined(x.identifier, 3), Mined(a.identifier, 4), Mined(b.identifier, 5)]
  }

  function StartOfRun(): State {
    State(Queue([], 3), map[], [])
  }

  /** The state before the stale record is re-enqueued. */
  function EndOfRun(x: Request, b: Request, a: Request): State {
    State(Queue([], 6), map[x.id := At(x, 5), b.id := At(b, 5), a.id := At(a, 4)],
          [At(x, 3), At(b, 3), At(x, 4), At(a, 3), At(b, 4), At(x, 5), At(a, 4), At(b, 5)])
  }

  /** After the three starts, and after the first mined transaction. */
  function AllStarted(x: Request, b: Request, a: Request): State {
    State(Queue([At(a, 3), At(b, 4), At(x, 5)], 6), map[x.id := At(x, 5), b.id := At(b, 4), a.id := At(a, 3)],
          [At(x, 3), At(b, 3), At(x, 4), At(a, 3), At(b, 4), At(x, 5)])
  }

  function OneMined(x: Request, b: Request, a: Request): State {
    EndOfRun(x, b, a).(queue := Queue([At(a, 4), At(b, 5)], 6))
  }

  lemma RecordedOne(t: map<string, Item>, i: Item)
    ensures Recorded(t, [i]) == t[i.request.id := i]
  {
    assert [i][1..] == [];
  }

  lemma RecordedTwo(t: map<string, Item>, i: Item, j: Item)
    ensures Recorded(t, [i, j]) == t[i.request.id := i][j.request.id := j]
  {
    assert [i, j][1..] == [j];
    RecordedOne(t[i.request.id := i], j);
  }

  lemma StartsLead(x: Request, b: Request, a: Request)
    requires ThreeRequests(x, b, a)
    ensures StartResponse(StartResponse(StartResponse(StartOfRun(), x), b), a) == AllStarted(x, b, a)
  {
    FirstAdded(x);
    DearerIsAdded(x, b);
    DearestIsAdded(x, b, a);
    hide Add, Difference, Recorded, ThreeRequests;
    var s1 := State(Queue([At(x, 3)], 4), map[x.id := At(x, 3)], [At(x, 3)]);
    RecordedOne(map[], At(x, 3));
    assert StartResponse(StartOfRun(), x) == s1 by { assert [] + [At(x, 3)] == [At(x, 3)]; }
    RecordedTwo(s1.transactions, At(b, 3), At(x, 4));
    var s2 := State(Queue([At(b, 3), At(x, 4)], 5), map[x.id := At(x, 3)][b.id := At(b, 3)][x.id := At(x, 4)],
                    [At(x, 3), At(b, 3), At(x, 4)]);
    assert StartResponse(s1, b) == s2;
    ThirdStart(s2, x, b, a);
  }

  lemma ThirdStart(s2: State, x: Request, b: Request, a: Request)
    requires ThreeRequests(x, b, a)
    requires s2 == State(Queue([At(b, 3), At(x, 4)], 5), map[x.id := At(x, 3)][b.id := At(b, 3)][x.id := At(x, 4)],
                         [At(x, 3), At(b, 3), At(x, 4)])
    ensures StartResponse(s2, a) == AllStarted(x, b, a)
  {
    DearestIsAdded(x, b, a);
    var d := [At(a, 3), At(b, 4), At(x, 5)];
    assert d[0] == At(a, 3) && d[1..] == [At(b, 4), At(x, 5)];
    assert Recorded(s2.transactions, d) == Recorded(s2.transactions[a.id := At(a, 3)], d[1..]);
    RecordedTwo(s2.transactions[a.id := At(a, 3)], At(b, 4), At(x, 5));
    assert Recorded(s2.transactions, d) == map[x.id := At(x, 5), b.id := At(b, 4), a.id := At(a, 3)];
    hide Add, Difference, Recorded, ThreeRequests;
  }

  lemma FirstMined(x: Request, b: Request, a: Request)
    requires ThreeRequests(x, b, a)
    ensures TxMined(AllStarted(x, b, a), x.identifier, 3) == OneMined(x, b, a)
  {
    LastIsConsumed(x, b, a);
    hide Dequeue, Consume, Difference, IndexOf, Recorded;
    RecordedTwo(AllStarted(x, b, a).transactions, At(a, 4), At(b, 5));
  }

  /** A transaction at the front is mined: nothing new is recorded or sent. */
  lemma FrontMined(s: State, identifier: Identifier, nonce: int)
    requires Valid(s.queue) && AcceptsMined(s, identifier, nonce) && Same(identifier, s.queue.items[0].request.identifier)
    ensures TxMined(s, identifier, nonce) == s.(queue := s.queue.(items := s.queue.items[1..]))
  {
    FrontIsDequeued(s.queue);
    hide Dequeue, Difference, Valid;
    assert s.sent + [] == s.sent;
  }

  lemma MinedLead(x: Request, b: Request, a: Request)
    requires ThreeRequests(x, b, a)
    ensures TxMined(TxMined(TxMined(AllStarted(x, b, a), x.identifier, 3), a.identifier, 4), b.identifier, 5)
      == EndOfRun(x, b, a)
  {
    FirstMined(x, b, a);
    SameIsSymmetric(a.identifier, b.identifier);
    var s4 := OneMined(x, b, a);
    FrontMined(s4, a.identifier, 4);
    var s5 := s4.(queue := Queue([At(b, 5)], 6));
    assert s4.queue.items[1..] == [At(b, 5)];
    FrontMined(s5, b.identifier, 5);
    assert s5.queue.items[1..] == [];
    hide TxMined;
  }

  lemma RunOfSix(s: State, steps: seq<Step>)
    requires |steps| == 6 && s.queue.replacementRate >= 1
    ensures Run(s, steps) == Next(Next(Next(Next(Next(Next(s, steps[0]), steps[1]), steps[2]), steps[3]), steps[4]), steps[5])
  {
    hide Next;
    assert steps[1..][1..] == steps[2..] && steps[2..][1..] == steps[3..] && steps[3..][1..] == steps[4..];
    assert steps[4..][1..] == steps[5..] && steps[5..][1..] == [];
    var s1 := Next(s, steps[0]);
    var s2 := Next(s1, steps[1]);
    var s3 := Next(s2, steps[2]);
    var s4 := Next(s3, steps[3]);
    var s5 := Next(s4, steps[4]);
    assert Run(s, steps) == Run(s1, steps[1..]);
    assert Run(s1, steps[1..]) == Run(s2, steps[2..]);
    assert Run(s2, steps[2..]) == Run(s3, steps[3..]);
    assert Run(s3, steps[3..]) == Run(s4, steps[4..]);
    assert Run(s4, steps[4..]) == Run(s5, steps[5..]);
    assert Run(s5, steps[5..]) == Run(Next(s5, steps[5]), []);
  }

  lemma RunLeads(x: Request, b: Request, a: Request)
    requires ThreeRequests(x, b, a)
    ensures Run(StartOfRun(), StaleRun(x, b, a)) == EndOfRun(x, b, a)
  {
    StartsLead(x, b, a);
    MinedLead(x, b, a);
    hide StartResponse, TxMined;
    RunOfSix(StartOfRun(), StaleRun(x, b, a));
  }

  /**
   * The request mined at nonce 3 comes back at nonce 5, which another transaction has used, and for 100, although 200 was
   * sent there last: what is sent does not pay.
   */
  lemma StaleRecordComesBack(x: Request, b: Request, a: Request)
    requires ThreeRequests(x, b, a)
    ensures var s := Run(StartOfRun(), StaleRun(x, b, a));
      && var t := ReEnqueueMissingItems(s, [x.id]);
      && t.queue.items == [At(x, 5)] && t.sent == s.sent + [At(x, 5)]
      && LastSentAt(s.sent, 5) == Some(At(b, 5)) && !SentPays(t.sent, 10)
  {
    RunLeads(x, b, a);
    StaleIsPrepended(x);
    var s := EndOfRun(x, b, a);
    assert MissingItems(s, [x.id]) == Some([At(x, 5)]) by {
      assert [x.id][1..] == [] && [At(x, 5)] + [] == [At(x, 5)];
    }
    assert Difference(Queue([At(x, 5)], 6), Queue([], 6)) == [At(x, 5)] by {
      MissingAllOrNothing([At(x, 5)], []);
    }
    hide Prepend, Difference, MissingItems, Run;
    var sent := s.sent + [At(x, 5)];
    assert ReEnqueueMissingItems(s, [x.id]).sent == sent;
    assert sent[..|sent| - 1] == s.sent && sent[|sent| - 1] == At(x, 5);
    assert LastSentAt(s.sent, 5) == Some(At(b, 5));
  }
}
