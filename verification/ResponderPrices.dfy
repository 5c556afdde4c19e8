/**
 * What the network sees: whether every item sent at a nonce pays the premium over the one sent there before. Within the
 * queue this is always so; a record that is re-enqueued brings an older item back, and then it depends.
 */
module ResponderPrices {
  import opened Wrappers
  import opened StableSort
  import opened GasQueue
  import opened GasQueueConstructor
  import opened GasQueueAdd
  import opened GasQueuePrepend
  import opened GasQueueRuns
  import opened Responder
  import opened ResponderTheorems

  /** The network accepts `x` after what was sent at its nonce before: nothing, the same item, or a cheaper one. */
  ghost predicate PaysOver(before: Option<Item>, x: Item, rate: int) {
    before.None? || before.value == x || Premium(before.value, x, rate)
  }

  ghost predicate SentPays(sent: seq<Item>, rate: int)
    decreases |sent|
  {
    sent == [] ||
      (var n := |sent| - 1; SentPays(sent[..n], rate) && PaysOver(LastSentAt(sent[..n], sent[n].nonce), sent[n], rate))
  }

  ghost predicate AllPay(sent: seq<Item>, items: seq<Item>, rate: int) {
    forall i :: 0 <= i < |items| ==> PaysOver(LastSentAt(sent, items[i].nonce), items[i], rate)
  }

  ghost predicate OnePerNonce(items: seq<Item>) {
    forall i, j :: 0 <= i < j < |items| ==> items[i].nonce != items[j].nonce
  }

  /** Items at different nonces that are sent together are each compared with what was sent before. */
  lemma {:induction false} SentTogether(sent: seq<Item>, items: seq<Item>, rate: int)
    requires SentPays(sent, rate) && OnePerNonce(items)
    ensures SentPays(sent + items, rate) <==> AllPay(sent, items, rate)
    decreases |items|
  {
    if items == [] {
      assert sent + items == sent;
    } else {
      var n := |items| - 1;
      var (rest, x) := (items[..n], items[n]);
      SentTogether(sent, rest, rate);
      assert (sent + items)[..|sent + items| - 1] == sent + rest && (sent + items)[|sent + items| - 1] == x;
      SentElsewhere(sent, rest, x.nonce);
      if SentPays(sent + rest, rate) && PaysOver(LastSentAt(sent, x.nonce), x, rate) {
        forall i | 0 <= i < |items| ensures PaysOver(LastSentAt(sent, items[i].nonce), items[i], rate) {
          assert i < n ==> items[i] == rest[i];
        }
      }
      if AllPay(sent, items, rate) {
        forall i | 0 <= i < |rest| ensures PaysOver(LastSentAt(sent, rest[i].nonce), rest[i], rate) {
          assert items[i] == rest[i];
        }
      }
    }
  }

  // ---- What every state of a run keeps -----------------------------------------------------------------

  /** Everything sent pays, nothing was sent beyond the queue, and every record was sent. */
  ghost predicate Priced(s: State) {
    && SentPays(s.sent, s.queue.replacementRate)
    && (forall x :: x in s.sent ==> x.nonce < s.queue.emptyNonce)
    && (forall id :: id in s.transactions ==> s.transactions[id] in s.sent)
  }

  lemma {:induction false} RecordedWasSent(transactions: map<string, Item>, items: seq<Item>, sent: seq<Item>)
    requires forall id :: id in transactions ==> transactions[id] in sent
    requires forall x :: x in items ==> x in sent
    ensures forall id :: id in Recorded(transactions, items) ==> Recorded(transactions, items)[id] in sent
    decreases |items|
  {
    if items != [] {
      RecordedWasSent(transactions[items[0].request.id := items[0]], items[1..], sent);
    }
  }

  lemma {:induction false} LastSentWasSent(sent: seq<Item>, nonce: int)
    ensures LastSentAt(sent, nonce).Some? ==> LastSentAt(sent, nonce).value in sent && LastSentAt(sent, nonce).value.nonce == nonce
  {
    if sent != [] && sent[|sent| - 1].nonce != nonce {
      LastSentWasSent(sent[..|sent| - 1], nonce);
    }
  }

  lemma DifferenceHasOnePerNonce(q: GasQueue, p: GasQueue)
    requires Sound(q)
    ensures OnePerNonce(Difference(q, p))
    ensures forall x :: x in Difference(q, p) <==> x in q.items && x !in p.items
  {
    MissingIsSublist(q.items, p.items, SameNonce);
  }

  /** A new item at a nonce of the old queue pays, if the operation keeps the price rule. */
  ghost predicate KeepsPriceRule(p: GasQueue, q: GasQueue) {
    forall nonce :: ItemAt(p, nonce).Some? && ItemAt(q, nonce).Some? ==>
      ItemAt(q, nonce) == ItemAt(p, nonce) || Premium(ItemAt(p, nonce).value, ItemAt(q, nonce).value, p.replacementRate)
  }

  /** The items of the new queue at nonces that the old one did not have pay over what was sent there. */
  ghost predicate NewNoncesPay(s: State, q: GasQueue) {
    forall i :: 0 <= i < |q.items| && ItemAt(s.queue, q.items[i].nonce).None? ==>
      PaysOver(LastSentAt(s.sent, q.items[i].nonce), q.items[i], s.queue.replacementRate)
  }

  lemma QueuedAt(q: GasQueue, i: nat)
    requires Valid(q) && i < |q.items|
    ensures ItemAt(q, q.items[i].nonce) == Some(q.items[i])
  {
  }

  lemma QueuedWasLastSent(s: State, owner: string -> Identifier, nonce: int)
    requires Tracked(s, owner) && ItemAt(s.queue, nonce).Some?
    ensures LastSentAt(s.sent, nonce) == ItemAt(s.queue, nonce)
  {
    var j := nonce - (s.queue.emptyNonce - |s.queue.items|);
    assert s.queue.items[j].nonce == nonce;
  }

  /** An update pays if and only if it pays at the nonces that the queue did not have before. */
  lemma UpdatePaysIff(s: State, q: GasQueue, owner: string -> Identifier)
    requires Tracked(s, owner) && Priced(s) && Sound(q) && KeepsPriceRule(s.queue, q)
    ensures SentPays(UpdateQueue(s, q).sent, s.queue.replacementRate) <==> NewNoncesPay(s, q)
  {
    var (d, rate) := (Difference(q, s.queue), s.queue.replacementRate);
    DifferenceHasOnePerNonce(q, s.queue);
    SentTogether(s.sent, d, rate);
    hide SentPays, Difference;
    if AllPay(s.sent, d, rate) {
      forall i | 0 <= i < |q.items| && ItemAt(s.queue, q.items[i].nonce).None?
        ensures PaysOver(LastSentAt(s.sent, q.items[i].nonce), q.items[i], rate)
      {
        NewNonceIsSent(s.queue, q, i);
        var k :| 0 <= k < |d| && d[k] == q.items[i];
      }
    }
    if NewNoncesPay(s, q) {
      forall k | 0 <= k < |d| ensures PaysOver(LastSentAt(s.sent, d[k].nonce), d[k], rate) {
        assert d[k] in d;
        var i :| 0 <= i < |q.items| && q.items[i] == d[k];
        QueuedAt(q, i);
        if ItemAt(s.queue, d[k].nonce).Some? {
          QueuedWasLastSent(s, owner, d[k].nonce);
        }
      }
    }
  }

  lemma NewNonceIsSent(p: GasQueue, q: GasQueue, i: nat)
    requires Valid(p) && i < |q.items| && ItemAt(p, q.items[i].nonce).None?
    ensures q.items[i] !in p.items
  {
    forall j | 0 <= j < |p.items| ensures p.items[j] != q.items[i] {
      QueuedAt(p, j);
    }
  }

  lemma UpdateKeepsPriced(s: State, q: GasQueue, owner: string -> Identifier)
    requires Tracked(s, owner) && Priced(s) && Sound(q) && KeepsPriceRule(s.queue, q) && NewNoncesPay(s, q)
    requires s.queue.emptyNonce <= q.emptyNonce && q.replacementRate == s.queue.replacementRate
    ensures Priced(UpdateQueue(s, q))
  {
    var (d, t) := (Difference(q, s.queue), UpdateQueue(s, q));
    UpdatePaysIff(s, q, owner);
    DifferenceHasOnePerNonce(q, s.queue);
    RecordedWasSent(s.transactions, d, t.sent);
    hide SentPays, Difference, Tracked;
    forall x | x in d ensures x.nonce < q.emptyNonce {
      var i :| 0 <= i < |q.items| && q.items[i] == x;
    }
  }

  // ---- Steps -------------------------------------------------------------------------------------------

  /** The records that the step brings back are the last items sent at their nonces. */
  ghost predicate UpToDate(s: State, step: Step) {
    step.ReEnqueue? && MissingItems(s, step.ids).Some? ==>
      forall x :: x in MissingItems(s, step.ids).value ==> LastSentAt(s.sent, x.nonce) == Some(x)
  }

  lemma OperationKeepsPriceRule(q: GasQueue, op: Operation)
    requires Sound(q) && SoundOperation(op)
    ensures KeepsPriceRule(q, After(q, op))
  {
    hide After;
    forall nonce | ItemAt(q, nonce).Some? && ItemAt(After(q, op), nonce).Some?
      ensures ItemAt(After(q, op), nonce) == ItemAt(q, nonce)
        || Premium(ItemAt(q, nonce).value, ItemAt(After(q, op), nonce).value, q.replacementRate)
    {
      StepPriceRule(q, op, nonce);
    }
  }

  lemma StartPays(s: State, request: Request, owner: string -> Identifier)
    requires Tracked(s, owner) && Priced(s)
    ensures Priced(StartResponse(s, request))
  {
    TrackedIsSound(s, owner);
    AddIsInsertion(s.queue, request);
    if Add(s.queue, request).Success? {
      var q := Add(s.queue, request).value;
      OperationKeepsPriceRule(s.queue, AddRequest(request));
      assert NewNoncesPay(s, q) by {
        hide Tracked, SentPays, Inserted;
        forall i | 0 <= i < |q.items| && ItemAt(s.queue, q.items[i].nonce).None?
          ensures PaysOver(LastSentAt(s.sent, q.items[i].nonce), q.items[i], s.queue.replacementRate)
        {
          LastSentWasSent(s.sent, q.items[i].nonce);
        }
      }
      hide Add, NewNoncesPay, KeepsPriceRule, Tracked, Priced;
      UpdateKeepsPriced(s, q, owner);
    }
  }

  lemma MinedPays(s: State, identifier: Identifier, nonce: int, owner: string -> Identifier)
    requires Tracked(s, owner) && Priced(s)
    ensures Priced(TxMined(s, identifier, nonce))
  {
    if AcceptsMined(s, identifier, nonce) {
      TrackedIsSound(s, owner);
      ReducedIsMined(s, identifier, nonce, owner);
      MinedRemovesRequest(s, identifier, nonce, owner);
      var q := TxMined(s, identifier, nonce).queue;
      OperationKeepsPriceRule(s.queue, DequeueFront);
      OperationKeepsPriceRule(s.queue, ConsumeItem(identifier));
      assert KeepsPriceRule(s.queue, q);
      assert |q.items| < |s.queue.items| by {
        assert |Requests(q.items)| == |q.items| && |Requests(s.queue.items)| == |s.queue.items|;
      }
      assert q.replacementRate == s.queue.replacementRate;
      hide Reduced, TxMined, KeepsPriceRule, Tracked, Requests, Priced, UpdateQueue;
      assert NewNoncesPay(s, q);
      UpdateKeepsPriced(s, q, owner);
    }
  }

  lemma PrependedFacts(p: GasQueue, lower: seq<Item>)
    requires Sound(p) && Coherent(lower) && Prepend(p, lower).Success?
    ensures var q := Prepend(p, lower).value;
      Sound(q) && KeepsPriceRule(p, q) && q.emptyNonce == p.emptyNonce && q.replacementRate == p.replacementRate
  {
    hide Prepend, KeepsPriceRule, PriceOrdered, Consecutive, Distinct, Coherent, Prependable, Requests;
    PrependOutcome(p, lower);
    PrependKeepsSettings(p, lower);
    OperationKeepsPriceRule(p, PrependItems(lower));
  }

  lemma PrependKeepsSettings(p: GasQueue, lower: seq<Item>)
    requires p.replacementRate >= 1 && Prepend(p, lower).Success?
    ensures var q := Prepend(p, lower).value; q.emptyNonce == p.emptyNonce && q.replacementRate == p.replacementRate
  {
    hide QueueFault, Reordered, ByNonce, ByPrice;
  }

  lemma MissingIsCoherent(s: State, ids: seq<string>, owner: string -> Identifier)
    requires Tracked(s, owner) && MissingItems(s, ids).Some?
    ensures Sound(s.queue) && Valid(s.queue) && Coherent(s.queue.items) && Coherent(MissingItems(s, ids).value)
  {
    TrackedIsSound(s, owner);
    MissingItemsAreGood(s, ids, owner);
    GoodIsCoherent(MissingItems(s, ids).value, owner);
  }

  /** Re-enqueuing pays if and only if it pays at the nonces of the records that come back. */
  lemma ReEnqueuePaysIff(s: State, ids: seq<string>, owner: string -> Identifier)
    requires Tracked(s, owner) && Priced(s) && MissingItems(s, ids).Some?
    requires Prepend(s.queue, MissingItems(s, ids).value).Success?
    ensures SentPays(UpdateQueue(s, Prepend(s.queue, MissingItems(s, ids).value).value).sent, s.queue.replacementRate)
      <==> NewNoncesPay(s, Prepend(s.queue, MissingItems(s, ids).value).value)
  {
    MissingIsCoherent(s, ids, owner);
    hide Tracked, Priced, KeepsPriceRule, NewNoncesPay, Prepend, MissingItems, UpdateQueue, SentPays, Sound, Valid, Coherent;
    var lower := MissingItems(s, ids).value;
    PrependedFacts(s.queue, lower);
    UpdatePaysIff(s, Prepend(s.queue, lower).value, owner);
  }

  /** Where the queue had no item the merged queue stands over a record that came back. */
  lemma MergedOverRecord(q: GasQueue, lower: seq<Item>, i: nat)
    requires Valid(q) && Coherent(q.items) && Coherent(lower) && Prepend(q, lower).Success?
    requires var r := Prepend(q, lower).value; i < |r.items| && ItemAt(q, r.items[i].nonce).None?
    ensures var y := Prepend(q, lower).value.items[i];
      exists x :: x in lower && x.nonce == y.nonce && (y == x || Premium(x, y, q.replacementRate))
  {
    var (r, byNonce) := (Prepend(q, lower).value, ByNonce(lower + q.items));
    PrependOutcome(q, lower);
    PrependMerges(q, lower);
    var x := byNonce[i];
    FillingMakesConsecutive(q, lower);
    hide Prepend, FillsBelow, ByNonce, ByPrice;
    assert x.nonce == r.items[i].nonce;
    assert i < |lower|;
    assert byNonce[..|lower|][i] in multiset(byNonce[..|lower|]);
    assert x in lower;
  }

  lemma UpToDatePays(s: State, ids: seq<string>, owner: string -> Identifier)
    requires Tracked(s, owner) && Priced(s) && MissingItems(s, ids).Some? && UpToDate(s, ReEnqueue(ids))
    requires Prepend(s.queue, MissingItems(s, ids).value).Success?
    ensures NewNoncesPay(s, Prepend(s.queue, MissingItems(s, ids).value).value)
  {
    var lower := MissingItems(s, ids).value;
    TrackedIsSound(s, owner);
    MissingItemsAreGood(s, ids, owner);
    GoodIsCoherent(lower, owner);
    hide Tracked, Priced, Prepend, MissingItems;
    var q := Prepend(s.queue, lower).value;
    forall i | 0 <= i < |q.items| && ItemAt(s.queue, q.items[i].nonce).None?
      ensures PaysOver(LastSentAt(s.sent, q.items[i].nonce), q.items[i], s.queue.replacementRate)
    {
      MergedOverRecord(s.queue, lower, i);
      var x :| x in lower && x.nonce == q.items[i].nonce && (q.items[i] == x || Premium(x, q.items[i], s.queue.replacementRate));
      assert LastSentAt(s.sent, x.nonce) == Some(x);
    }
  }

  lemma ReEnqueuePays(s: State, ids: seq<string>, owner: string -> Identifier)
    requires Tracked(s, owner) && Priced(s) && UpToDate(s, ReEnqueue(ids))
    ensures Priced(ReEnqueueMissingItems(s, ids))
  {
    TrackedIsSound(s, owner);
    hide Tracked, Priced, KeepsPriceRule, NewNoncesPay, Prepend, MissingItems, UpdateQueue, UpToDate, Sound, Coherent;
    if MissingItems(s, ids).Some? && Prepend(s.queue, MissingItems(s, ids).value).Success? {
      var lower := MissingItems(s, ids).value;
      MissingIsCoherent(s, ids, owner);
      PrependedFacts(s.queue, lower);
      UpToDatePays(s, ids, owner);
      UpdateKeepsPriced(s, Prepend(s.queue, lower).value, owner);
    }
  }

  lemma StepPays(s: State, step: Step, owner: string -> Identifier)
    requires Tracked(s, owner) && Priced(s) && Allowed(s, step, owner) && UpToDate(s, step)
    ensures Priced(Next(s, step))
  {
    hide Tracked, Priced, UpToDate, StartResponse, TxMined, ReEnqueueMissingItems;
    match step
    case Start(request) => StartPays(s, request, owner);
    case Mined(identifier, nonce) => MinedPays(s, identifier, nonce, owner);
    case ReEnqueue(ids) => ReEnqueuePays(s, ids, owner);
    case End(id) => EndPays(s, id);
  }

  lemma EndPays(s: State, id: string)
    requires Priced(s)
    ensures Priced(EndResponse(s, id))
  {
  }

  ghost predicate AlwaysUpToDate(s: State, steps: seq<Step>)
    requires s.queue.replacementRate >= 1
    decreases |steps|
  {
    steps != [] ==> UpToDate(s, steps[0]) && AlwaysUpToDate(Next(s, steps[0]), steps[1..])
  }

  /**
   * In every allowed run in which only records are re-enqueued that were the last items sent at their nonces, of two
   * successive items sent at one nonce the later is the same or pays the premium.
   */
  lemma {:induction false} RunPays(s: State, steps: seq<Step>, owner: string -> Identifier)
    requires Tracked(s, owner) && Priced(s) && AllowedRun(s, steps, owner) && AlwaysUpToDate(s, steps)
    ensures Priced(Run(s, steps))
    decreases |steps|
  {
    TrackedIsSound(s, owner);
    hide Tracked, Priced, Next, Allowed, UpToDate, Sound, Coherent;
    if steps != [] {
      StepPays(s, steps[0], owner);
      StepKeepsTracked(s, steps[0], owner);
      RunPays(Next(s, steps[0]), steps[1..], owner);
    }
  }

  // ---- Exactly when a run pays -------------------------------------------------------------------------

  /**
   * Sending pays at the nonce of record `x` when the order by price puts `y` there: `x` itself is sent again if it is
   * `y`, and otherwise a replacement that pays over `x`. Either has to pay over what was last sent at that nonce.
   */
  ghost predicate RecordPays(sent: seq<Item>, x: Item, y: Item, rate: int)
    requires rate >= 1
  {
    match LastSentAt(sent, x.nonce)
    case None => true
    case Some(last) =>
      if y == x then last == x || 100 * x.nonceGasPrice >= (100 + rate) * last.nonceGasPrice
      else
        || last == Replaced(x, y.request, rate)
        || 100 * Max(ReplacementPrice(x.nonceGasPrice, rate), y.request.idealGasPrice) >= (100 + rate) * last.nonceGasPrice
  }

  /** The records that would come back pay, each at its nonce. */
  ghost predicate RecordsPay(sent: seq<Item>, q: GasQueue, lower: seq<Item>)
    requires q.replacementRate >= 1
  {
    var byNonce := ByNonce(lower + q.items);
    var byPrice := ByPrice(byNonce);
    SortIsStableSort(lower + q.items, NonceKey);
    SortIsStableSort(byNonce, PriceKey);
    forall i :: 0 <= i < |lower| ==> RecordPays(sent, byNonce[i], byPrice[i], q.replacementRate)
  }

  /** If the step brings records back, they pay. */
  ghost predicate ReEnqueueIsPaid(s: State, step: Step)
    requires s.queue.replacementRate >= 1
  {
    step.ReEnqueue? && MissingItems(s, step.ids).Some? && MissingItems(s, step.ids).value != []
      && Prependable(s.queue, MissingItems(s, step.ids).value) ==>
      RecordsPay(s.sent, s.queue, MissingItems(s, step.ids).value)
  }

  lemma SentPaysOver(sent: seq<Item>, x: Item, y: Item, z: Item, rate: int)
    requires rate >= 1 && z.nonce == x.nonce && z == (if y == x then x else Replaced(x, y.request, rate))
    ensures PaysOver(LastSentAt(sent, z.nonce), z, rate) <==> RecordPays(sent, x, y, rate)
  {
    LastSentWasSent(sent, x.nonce);
  }

  lemma PrependedAt(q: GasQueue, lower: seq<Item>, i: nat)
    requires Valid(q) && Coherent(q.items) && Coherent(lower) && Prepend(q, lower).Success?
    ensures var (r, byNonce) := (Prepend(q, lower).value, ByNonce(lower + q.items));
      && |r.items| == |byNonce| == |ByPrice(byNonce)| == |lower| + |q.items|
      && (i < |byNonce| ==>
            && r.items[i] == ReorderedAt(byNonce, ByPrice(byNonce), q.replacementRate, i)
            && r.items[i].nonce == byNonce[i].nonce
            && (ItemAt(q, byNonce[i].nonce).None? <==> i < |lower|))
  {
    PrependOutcome(q, lower);
    QueueKeepsItsPlace(q, lower);
    FillingMakesConsecutive(q, lower);
    PriceOrder(ByNonce(lower + q.items));
    MakeIffValid(Prepend(q, lower).value);
    hide Sort, FillsBelow, Coherent, PriceOrdered, Distinct, QueueFault;
  }

  /** What is sent at the new nonces pays if and only if the records do. */
  lemma NewNoncesPayIff(s: State, lower: seq<Item>)
    requires Sound(s.queue) && Coherent(lower) && Prepend(s.queue, lower).Success?
    ensures NewNoncesPay(s, Prepend(s.queue, lower).value) <==> RecordsPay(s.sent, s.queue, lower)
  {
    var (r, byNonce) := (Prepend(s.queue, lower).value, ByNonce(lower + s.queue.items));
    var (byPrice, rate) := (ByPrice(byNonce), s.queue.replacementRate);
    hide Prepend, Sort, ItemAt, PaysOver, RecordPays, Valid, Coherent, Replaced;
    PrependedAt(s.queue, lower, 0);
    forall i | 0 <= i < |byNonce|
      ensures PaysOver(LastSentAt(s.sent, r.items[i].nonce), r.items[i], rate) <==> RecordPays(s.sent, byNonce[i], byPrice[i], rate)
      ensures ItemAt(s.queue, r.items[i].nonce).None? <==> i < |lower|
    {
      PrependedAt(s.queue, lower, i);
      SentPaysOver(s.sent, byNonce[i], byPrice[i], r.items[i], rate);
    }
  }

  ghost predicate AlwaysPaid(s: State, steps: seq<Step>)
    requires s.queue.replacementRate >= 1
    decreases |steps|
  {
    steps != [] ==> ReEnqueueIsPaid(s, steps[0]) && AlwaysPaid(Next(s, steps[0]), steps[1..])
  }

  lemma ReEnqueuedIsPaidIff(s: State, ids: seq<string>, owner: string -> Identifier)
    requires Tracked(s, owner) && Priced(s) && s.queue.replacementRate >= 1
    ensures ReEnqueueIsPaid(s, ReEnqueue(ids)) ==> Priced(ReEnqueueMissingItems(s, ids))
    ensures SentPays(ReEnqueueMissingItems(s, ids).sent, s.queue.replacementRate) ==> ReEnqueueIsPaid(s, ReEnqueue(ids))
  {
    hide Tracked, Priced, KeepsPriceRule, NewNoncesPay, RecordsPay, Prepend, MissingItems, UpdateQueue, SentPays, Sound, Valid,
      Coherent, Prependable;
    if MissingItems(s, ids).Some? && MissingItems(s, ids).value != [] {
      var lower := MissingItems(s, ids).value;
      MissingIsCoherent(s, ids, owner);
      PrependOutcome(s.queue, lower);
      if Prepend(s.queue, lower).Success? {
        PrependedFacts(s.queue, lower);
        ReEnqueuePaysIff(s, ids, owner);
        NewNoncesPayIff(s, lower);
        if RecordsPay(s.sent, s.queue, lower) {
          UpdateKeepsPriced(s, Prepend(s.queue, lower).value, owner);
        }
      }
    }
  }

  lemma StepPaysIff(s: State, step: Step, owner: string -> Identifier)
    requires Tracked(s, owner) && Priced(s) && Allowed(s, step, owner) && s.queue.replacementRate >= 1
    ensures ReEnqueueIsPaid(s, step) ==> Priced(Next(s, step))
    ensures SentPays(Next(s, step).sent, s.queue.replacementRate) ==> ReEnqueueIsPaid(s, step)
  {
    hide Tracked, Priced, StartResponse, TxMined, ReEnqueueMissingItems, SentPays;
    if step.ReEnqueue? {
      ReEnqueuedIsPaidIff(s, step.ids, owner);
    } else {
      StepPays(s, step, owner);
    }
  }

  lemma {:induction false} SentPaysSoFar(sent: seq<Item>, more: seq<Item>, rate: int)
    requires SentPays(sent + more, rate)
    ensures SentPays(sent, rate)
    decreases |more|
  {
    if more == [] {
      assert sent + more == sent;
    } else {
      assert (sent + more)[..|sent + more| - 1] == sent + more[..|more| - 1];
      SentPaysSoFar(sent, more[..|more| - 1], rate);
    }
  }

  lemma NextOnlySends(s: State, step: Step)
    requires s.queue.replacementRate >= 1
    ensures s.sent <= Next(s, step).sent
  {
    hide Add, Prepend, MissingItems, Difference, Recorded, AcceptsMined, Reduced;
  }

  lemma {:induction false} RunOnlySends(s: State, steps: seq<Step>)
    requires s.queue.replacementRate >= 1
    ensures s.sent <= Run(s, steps).sent
    decreases |steps|
  {
    hide Next;
    if steps != [] {
      NextOnlySends(s, steps[0]);
      RunOnlySends(Next(s, steps[0]), steps[1..]);
    }
  }

  /**
   * Over every allowed run, of two successive items sent at one nonce the later is the same or pays the premium, if and
   * only if, whenever records come back, each of them pays at its nonce.
   */
  lemma {:induction false} RunPaysIff(s: State, steps: seq<Step>, owner: string -> Identifier)
    requires Tracked(s, owner) && Priced(s) && AllowedRun(s, steps, owner)
    ensures s.queue.replacementRate >= 1
    ensures SentPays(Run(s, steps).sent, s.queue.replacementRate) <==> AlwaysPaid(s, steps)
    decreases |steps|
  {
    TrackedIsSound(s, owner);
    PricedPays(s);
    hide Tracked, Priced, Next, Allowed, ReEnqueueIsPaid, Sound, Coherent, SentPays;
    if steps != [] {
      var next := Next(s, steps[0]);
      StepPaysIff(s, steps[0], owner);
      StepKeepsTracked(s, steps[0], owner);
      if ReEnqueueIsPaid(s, steps[0]) {
        RunPaysIff(next, steps[1..], owner);
      } else if SentPays(Run(s, steps).sent, s.queue.replacementRate) {
        RunOnlySends(next, steps[1..]);
        var sent := Run(next, steps[1..]).sent;
        assert sent == next.sent + sent[|next.sent|..];
        SentPaysSoFar(next.sent, sent[|next.sent|..], s.queue.replacementRate);
      }
    }
  }

  lemma PricedPays(s: State)
    requires Priced(s)
    ensures SentPays(s.sent, s.queue.replacementRate)
  {
  }

  // ---- Stale records -----------------------------------------------------------------------------------

  lemma PremiumIsNoLess(x: Item, y: Item, rate: int)
    requires rate >= 1 && (y == x || Premium(x, y, rate))
    ensures y.nonceGasPrice >= x.nonceGasPrice
    ensures y != x && y.nonceGasPrice > 0 ==> y.nonceGasPrice > x.nonceGasPrice
  {
    assert (100 + rate) * x.nonceGasPrice == 100 * x.nonceGasPrice + rate * x.nonceGasPrice;
    assert rate * x.nonceGasPrice >= x.nonceGasPrice;
  }

  /** As long as everything pays, the last item sent at a nonce is the dearest one that was sent there. */
  lemma {:induction false} LastSentIsDearest(sent: seq<Item>, x: Item, rate: int)
    requires SentPays(sent, rate) && rate >= 1 && x in sent
    ensures LastSentAt(sent, x.nonce).Some? && LastSentAt(sent, x.nonce).value.nonceGasPrice >= x.nonceGasPrice
    decreases |sent|
  {
    var n := |sent| - 1;
    assert sent == sent[..n] + [sent[n]];
    if x in sent[..n] {
      LastSentIsDearest(sent[..n], x, rate);
      if sent[n].nonce == x.nonce {
        PremiumIsNoLess(LastSentAt(sent[..n], x.nonce).value, sent[n], rate);
      }
    }
  }

  /**
   * For records that come back as they are, with prices above zero, this is exact: what is sent then pays if and only if
   * the records were the last items sent at their nonces.
   */
  lemma UnmovedPaysIffUpToDate(s: State, ids: seq<string>, owner: string -> Identifier)
    requires Tracked(s, owner) && Priced(s) && MissingItems(s, ids).Some?
    requires Prepend(s.queue, MissingItems(s, ids).value).Success?
    requires forall x :: x in MissingItems(s, ids).value ==>
      x.nonceGasPrice > 0 && x in Prepend(s.queue, MissingItems(s, ids).value).value.items
    ensures SentPays(UpdateQueue(s, Prepend(s.queue, MissingItems(s, ids).value).value).sent, s.queue.replacementRate)
      <==> UpToDate(s, ReEnqueue(ids))
  {
    var (lower, rate) := (MissingItems(s, ids).value, s.queue.replacementRate);
    var q := Prepend(s.queue, lower).value;
    TrackedIsSound(s, owner);
    ReEnqueuePaysIff(s, ids, owner);
    if UpToDate(s, ReEnqueue(ids)) {
      UpToDatePays(s, ids, owner);
    }
    if NewNoncesPay(s, q) {
      MissingItemsAreGood(s, ids, owner);
      GoodIsCoherent(lower, owner);
      PrependOutcome(s.queue, lower);
      MissingWasSent(s, ids);
      hide Tracked, Prepend, MissingItems, UpdateQueue;
      forall x | x in lower ensures LastSentAt(s.sent, x.nonce) == Some(x) {
        var i :| 0 <= i < |q.items| && q.items[i] == x;
        LowerNonceIsNew(s.queue, lower, x);
        assert PaysOver(LastSentAt(s.sent, x.nonce), x, rate);
        LastSentIsDearest(s.sent, x, rate);
        PremiumIsNoLess(if LastSentAt(s.sent, x.nonce).value == x then x else LastSentAt(s.sent, x.nonce).value, x, rate);
      }
    }
  }

  lemma LowerNonceIsNew(q: GasQueue, lower: seq<Item>, x: Item)
    requires FillsBelow(q, lower) && x in lower
    ensures ItemAt(q, x.nonce).None?
  {
    var i :| 0 <= i < |lower| && lower[i] == x;
  }

  lemma {:induction false} MissingWasSent(s: State, ids: seq<string>)
    requires Priced(s) && MissingItems(s, ids).Some?
    ensures forall x :: x in MissingItems(s, ids).value ==> x in s.sent
    decreases |ids|
  {
    hide SentPays;
    if ids != [] {
      MissingWasSent(s, ids[1..]);
    }
  }
}
