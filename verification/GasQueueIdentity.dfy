/**
 * Which transactions the queue takes for the same one, written on the fields of their identifiers, and what that means for
 * adding a request and starting a response.
 */
module GasQueueIdentity {
  import opened Wrappers
  import opened GasQueue
  import opened GasQueueAdd
  import opened GasQueueRuns
  import opened Responder
  import opened ResponderTheorems

  /** The characters are the same, or one is an ASCII letter and the other its lower-case form. */
  predicate SameLetter(x: char, y: char) {
    || x == y
    || ('A' <= x <= 'Z' && y as int == x as int + 32)
    || ('A' <= y <= 'Z' && x as int == y as int + 32)
  }

  /** All fields agree, the recipient up to the case of its letters. */
  ghost predicate FieldsAgree(a: Identifier, b: Identifier) {
    && a.chainId == b.chainId && a.data == b.data && a.value == b.value && a.gasLimit == b.gasLimit
    && |a.to| == |b.to| && forall i :: 0 <= i < |a.to| ==> SameLetter(a.to[i], b.to[i])
  }

  lemma SameIff(a: Identifier, b: Identifier)
    ensures Same(a, b) <==> FieldsAgree(a, b)
  {
    var (x, y) := (Lower(a.to), Lower(b.to));
    if |a.to| == |b.to| {
      forall i | 0 <= i < |a.to| ensures x[i] == y[i] <==> SameLetter(a.to[i], b.to[i]) {
        assert x[i] == LowerChar(a.to[i]) && y[i] == LowerChar(b.to[i]);
      }
      assert x == y <==> forall i :: 0 <= i < |a.to| ==> x[i] == y[i];
    }
    assert |x| == |a.to| && |y| == |b.to|;
  }

  lemma SameIsEquivalence(a: Identifier, b: Identifier, c: Identifier)
    ensures Same(a, a) && (Same(a, b) <==> Same(b, a)) && (Same(a, b) && Same(b, c) ==> Same(a, c))
  {
  }

  ghost predicate AgreesWithQueued(items: seq<Item>, identifier: Identifier) {
    exists i :: 0 <= i < |items| && FieldsAgree(identifier, items[i].request.identifier)
  }

  lemma ContainsIff(q: GasQueue, identifier: Identifier)
    ensures Contains(q, identifier) <==> AgreesWithQueued(q.items, identifier)
  {
    hide Same, FieldsAgree;
    forall i | 0 <= i < |q.items|
      ensures Same(identifier, q.items[i].request.identifier) <==> FieldsAgree(identifier, q.items[i].request.identifier)
    {
      SameIff(identifier, q.items[i].request.identifier);
    }
  }

  /** A request is added if and only if there is room and it differs from every queued one in some field. */
  lemma AddSucceedsIff(q: GasQueue, request: Request)
    requires Sound(q)
    ensures Add(q, request).Success?
      <==> |q.items| < q.maxQueueDepth && !AgreesWithQueued(q.items, request.identifier)
    ensures Add(q, request) == Failure(AlreadyAdded)
      <==> |q.items| < q.maxQueueDepth && AgreesWithQueued(q.items, request.identifier)
  {
    AddIsInsertion(q, request);
    ContainsIff(q, request.identifier);
    hide Add, Contains, AgreesWithQueued, Inserted;
  }

  /** Only an agreeing request that is queued is reported to the caller. */
  lemma ReportsIff(s: State, request: Request)
    requires Sound(s.queue)
    ensures ReportsAlreadyAdded(s, request)
      <==> |s.queue.items| < s.queue.maxQueueDepth && AgreesWithQueued(s.queue.items, request.identifier)
  {
    AddSucceedsIff(s.queue, request);
    hide Add, AgreesWithQueued;
  }

  /** One of these items is for the request, and is in the queue. */
  ghost predicate Sends(items: seq<Item>, queued: seq<Item>, request: Request) {
    exists k :: 0 <= k < |items| && items[k].request == request && items[k] in queued
  }

  /** A response is queued and sent under exactly this condition; otherwise nothing changes. */
  lemma StartSendsIff(s: State, request: Request, owner: string -> Identifier)
    requires Tracked(s, owner)
    ensures var t := StartResponse(s, request);
      if |s.queue.items| < s.queue.maxQueueDepth && !AgreesWithQueued(s.queue.items, request.identifier)
      then s.sent <= t.sent && Sends(t.sent[|s.sent|..], t.queue.items, request)
      else t == s
  {
    TrackedIsSound(s, owner);
    AddSucceedsIff(s.queue, request);
    AddIsInsertion(s.queue, request);
    hide Add, AgreesWithQueued, Inserted, Tracked, Valid, Coherent, Recorded, Sends, Contains, Difference;
    if Add(s.queue, request).Success? {
      var q := Add(s.queue, request).value;
      InsertedIsSent(s.queue, request, q);
      assert (s.sent + Difference(q, s.queue))[|s.sent|..] == Difference(q, s.queue);
    }
  }

  lemma InsertedIsSent(q: GasQueue, request: Request, r: GasQueue)
    requires Coherent(q.items) && Inserted(q, request, r)
    ensures Sends(Difference(r, q), r.items, request)
  {
    var p := InsertionPoint(q.items, request.idealGasPrice);
    InsertRequestAt(Requests(q.items), request, p);
    assert Requests(r.items)[p] == request;
    assert r.items[p..][0] == r.items[p];
  }
}
