/** `add` and `consume`: insertion and deletion of requests, and the price of moving a request to another nonce. */
module GasQueueAdd {
  import opened Wrappers
  import opened StableSort
  import opened GasQueue
  import opened GasQueueConstructor

  // ---- The replacement price ---------------------------------------------------------------------------

  /** The new item pays the network's premium over the item whose nonce it takes. */
  ghost predicate Premium(before: Item, after: Item, rate: int) {
    && after.nonce == before.nonce
    && 100 * after.nonceGasPrice >= (100 + rate) * before.nonceGasPrice
  }

  /** The premium is paid, and with a lower price either it would not be or the price would fall below the ideal one. */
  ghost predicate LeastPremium(before: Item, after: Item, rate: int) {
    && Premium(before, after, rate)
    && (after.nonceGasPrice == after.idealGasPrice
        || 100 * (after.nonceGasPrice - 1) < (100 + rate) * before.nonceGasPrice)
  }

  lemma LeastIsPremium(before: Item, after: Item, rate: int)
    ensures LeastPremium(before, after, rate) ==> Premium(before, after, rate)
  {
  }

  lemma ReplacementPriceIsLeast(price: nat, rate: nat)
    ensures 100 * ReplacementPrice(price, rate) >= (100 + rate) * price
    ensures forall p: nat :: 100 * p >= (100 + rate) * price ==> p >= ReplacementPrice(price, rate)
  {
    var x := price * (rate + 100);
    assert x == (100 + rate) * price;
    assert 100 * ((x + 99) / 100) >= x;
    forall p: nat | 100 * p >= x ensures p >= (x + 99) / 100 {}
  }

  lemma ReplacedPaysPremium(item: Item, request: Request, rate: int)
    requires rate >= 1
    ensures LeastPremium(item, Replaced(item, request, rate), rate)
  {
    ReplacementPriceIsLeast(item.nonceGasPrice, rate);
  }

  // ---- Differences -------------------------------------------------------------------------------------

  lemma {:induction false} MissingSplits(a: seq<Item>, b: seq<Item>, others: seq<Item>)
    ensures Missing(a + b, others) == Missing(a, others) + Missing(b, others)
  {
    if a == [] {
      assert a + b == b;
    } else {
      MissingSplits(a[1..], b, others);
      assert (a + b)[0] == a[0] && (a + b)[1..] == a[1..] + b;
      var head := if a[0] in others then [] else [a[0]];
      Associative(head, Missing(a[1..], others), Missing(b, others));
    }
  }

  lemma {:induction false} MissingAllOrNothing(a: seq<Item>, others: seq<Item>)
    ensures (forall x :: x in a ==> x in others) ==> Missing(a, others) == []
    ensures (forall x :: x in a ==> x !in others) ==> Missing(a, others) == a
  {
    if a != [] {
      MissingAllOrNothing(a[1..], others);
      assert a == [a[0]] + a[1..];
    }
  }

  lemma MissingSuffix(a: seq<Item>, p: nat, others: seq<Item>)
    requires p <= |a|
    requires forall x :: x in a[..p] ==> x in others
    requires forall i :: p <= i < |a| ==> a[i] !in others
    ensures Missing(a, others) == a[p..]
  {
    MissingSplits(a[..p], a[p..], others);
    assert a == a[..p] + a[p..];
    MissingAllOrNothing(a[..p], others);
    MissingAllOrNothing(a[p..], others);
  }

  lemma MissingPrefix(a: seq<Item>, p: nat, others: seq<Item>)
    requires p <= |a|
    requires forall i :: 0 <= i < p ==> a[i] !in others
    requires forall x :: x in a[p..] ==> x in others
    ensures Missing(a, others) == a[..p]
  {
    MissingSplits(a[..p], a[p..], others);
    assert a == a[..p] + a[p..];
    MissingAllOrNothing(a[..p], others);
    MissingAllOrNothing(a[p..], others);
  }

  /** In a queue an item can stand in one place only, the one that belongs to its nonce. */
  lemma OnlyAtItsNonce(items: seq<Item>, emptyNonce: int, x: Item)
    requires Consecutive(items, emptyNonce)
    ensures var j := x.nonce - (emptyNonce - |items|);
      x in items <==> 0 <= j < |items| && items[j] == x
  {
  }

  lemma DistinctRequests(items: seq<Item>)
    requires Distinct(items)
    ensures forall i, j :: 0 <= i < j < |items| ==> items[i].request != items[j].request
  {
    forall i, j | 0 <= i < j < |items| ensures items[i].request != items[j].request {
      assert !Same(items[i].request.identifier, items[j].request.identifier);
    }
  }

  // ---- Adding ------------------------------------------------------------------------------------------

  /** Insertion into a list of requests before the first strictly cheaper one. */
  function InsertRequest(requests: seq<Request>, request: Request): seq<Request> {
    if requests == [] then [request]
    else if requests[0].idealGasPrice < request.idealGasPrice then [request] + requests
    else [requests[0]] + InsertRequest(requests[1..], request)
  }

  function InsertionPoint(items: seq<Item>, price: nat): (p: nat)
    ensures p <= |items|
    ensures forall i :: 0 <= i < p ==> price <= items[i].idealGasPrice
    ensures p < |items| ==> items[p].idealGasPrice < price
  {
    var f := FindCheaper(items, price);
    if f == -1 then |items| else f
  }

  lemma {:induction false} InsertRequestAt(requests: seq<Request>, request: Request, p: nat)
    requires p <= |requests|
    requires forall i :: 0 <= i < p ==> requests[i].idealGasPrice >= request.idealGasPrice
    requires p < |requests| ==> requests[p].idealGasPrice < request.idealGasPrice
    ensures InsertRequest(requests, request) == requests[..p] + [request] + requests[p..]
  {
    if p > 0 {
      InsertRequestAt(requests[1..], request, p - 1);
      assert requests[1..][p - 1..] == requests[p..];
      assert requests[..p] == [requests[0]] + requests[1..][..p - 1];
    }
  }

  function RequestAt(items: seq<Item>, request: Request, p: nat, i: nat): Request
    requires p <= |items| && i <= |items|
  {
    if i < p then items[i].request else if i == p then request else items[i - 1].request
  }

  lemma AddedShape(q: GasQueue, request: Request)
    requires q.replacementRate >= 1
    ensures var p, a := InsertionPoint(q.items, request.idealGasPrice), AddedItems(q, request);
      && |a| == |q.items| + 1
      && a[..p] == q.items[..p]
      && (forall i :: p <= i < |q.items| ==>
            a[i] == Replaced(q.items[i], RequestAt(q.items, request, p, i), q.replacementRate))
      && a[|q.items|] == Fresh(RequestAt(q.items, request, p, |q.items|), q.emptyNonce)
      && Requests(a) == Requests(q.items)[..p] + [request] + Requests(q.items)[p..]
  {
    var n, p, a := |q.items|, InsertionPoint(q.items, request.idealGasPrice), AddedItems(q, request);
    if p < n {
      var shifted := Shifted(q.items, p, n - 1, q.emptyNonce, q.replacementRate).value;
      assert forall i :: 0 <= i <= n ==> shifted[i] == ShiftedAt(q.items, p, n - 1, q.emptyNonce, q.replacementRate, i);
      assert a == shifted[p := Replaced(shifted[p], request, q.replacementRate)];
    }
    var rs := Requests(q.items)[..p] + [request] + Requests(q.items)[p..];
    forall i | 0 <= i < n + 1 ensures Requests(a)[i] == rs[i] {
      assert rs[i] == RequestAt(q.items, request, p, i);
    }
  }

  lemma AddedAt(q: GasQueue, request: Request, i: nat)
    requires Valid(q) && i <= |q.items|
    ensures var p, a := InsertionPoint(q.items, request.idealGasPrice), AddedItems(q, request);
      && |a| == |q.items| + 1
      && a[i].request == RequestAt(q.items, request, p, i)
      && a[i].nonce == q.emptyNonce - |q.items| + i
      && (Coherent(q.items) ==> a[i].idealGasPrice == a[i].request.idealGasPrice)
  {
    var p, a := InsertionPoint(q.items, request.idealGasPrice), AddedItems(q, request);
    AddedShape(q, request);
    if i < p {
      assert a[i] == a[..p][i] == q.items[..p][i] == q.items[i];
    }
  }

  lemma AddedInOrder(q: GasQueue, request: Request)
    requires Valid(q) && Coherent(q.items)
    ensures var a := AddedItems(q, request);
      PriceOrdered(a) && Consecutive(a, q.emptyNonce + 1) && Coherent(a)
  {
    var p, a := InsertionPoint(q.items, request.idealGasPrice), AddedItems(q, request);
    AddedAt(q, request, 0);
    forall i | 0 <= i < |a|
      ensures a[i].request == RequestAt(q.items, request, p, i)
      ensures a[i].idealGasPrice == a[i].request.idealGasPrice
      ensures a[i].nonce == q.emptyNonce - |q.items| + i
    {
      AddedAt(q, request, i);
    }
    forall i, j | 0 <= i < j < |a| ensures a[i].idealGasPrice >= a[j].idealGasPrice {
      assert i < p ==> a[i].idealGasPrice == q.items[i].idealGasPrice;
      assert i > p ==> a[i].idealGasPrice == q.items[i - 1].idealGasPrice;
      assert j < p ==> a[j].idealGasPrice == q.items[j].idealGasPrice;
      assert j > p ==> a[j].idealGasPrice == q.items[j - 1].idealGasPrice;
    }
  }

  lemma AddedDistinct(q: GasQueue, request: Request)
    requires Valid(q)
    ensures Distinct(AddedItems(q, request)) <==> !Contains(q, request.identifier)
  {
    var p, a := InsertionPoint(q.items, request.idealGasPrice), AddedItems(q, request);
    AddedAt(q, request, 0);
    forall i | 0 <= i < |a| ensures a[i].request == RequestAt(q.items, request, p, i) {
      AddedAt(q, request, i);
    }
    var k := IndexOf(q.items, request.identifier);
    if k != -1 {
      var at := if k < p then k else k + 1;
      assert Same(a[at].request.identifier, a[p].request.identifier);
    }
  }

  lemma AddedDifference(q: GasQueue, request: Request)
    requires Valid(q) && !Contains(q, request.identifier)
    ensures var p, a := InsertionPoint(q.items, request.idealGasPrice), AddedItems(q, request);
      Missing(a, q.items) == a[p..]
  {
    var p, a := InsertionPoint(q.items, request.idealGasPrice), AddedItems(q, request);
    AddedShape(q, request);
    forall x | x in a[..p] ensures x in q.items {
      assert x in q.items[..p];
    }
    forall i | p <= i < |a| ensures a[i] !in q.items {
      AddedIsNew(q, request, i);
    }
    MissingSuffix(a, p, q.items);
  }

  lemma AddedIsNew(q: GasQueue, request: Request, i: nat)
    requires Valid(q) && !Contains(q, request.identifier)
    requires InsertionPoint(q.items, request.idealGasPrice) <= i <= |q.items|
    ensures |AddedItems(q, request)| == |q.items| + 1 && AddedItems(q, request)[i] !in q.items
  {
    AddedAt(q, request, i);
    OnlyAtItsNonce(q.items, q.emptyNonce, AddedItems(q, request)[i]);
    DistinctRequests(q.items);
  }

  /**
   * What `add` achieves: insertion before the first strictly cheaper request. The dearer items are untouched, every
   * other nonce pays the premium and no more than it has to, and exactly the items from the insertion point on are to be broadcast.
   */
  ghost predicate Inserted(q: GasQueue, request: Request, r: GasQueue) {
    var p := InsertionPoint(q.items, request.idealGasPrice);
    && r == q.(items := r.items, emptyNonce := q.emptyNonce + 1)
    && |r.items| == |q.items| + 1
    && Requests(r.items) == InsertRequest(Requests(q.items), request)
    && r.items[..p] == q.items[..p]
    && (forall i :: p <= i < |q.items| ==> LeastPremium(q.items[i], r.items[i], q.replacementRate))
    && r.items[|q.items|].nonceGasPrice == r.items[|q.items|].idealGasPrice
    && Difference(r, q) == r.items[p..]
  }

  lemma AddedIsInserted(q: GasQueue, request: Request)
    requires Valid(q) && Coherent(q.items) && !Contains(q, request.identifier)
    ensures Inserted(q, request, q.(items := AddedItems(q, request), emptyNonce := q.emptyNonce + 1))
  {
    var p, a := InsertionPoint(q.items, request.idealGasPrice), AddedItems(q, request);
    AddedShape(q, request);
    assert Requests(a) == InsertRequest(Requests(q.items), request) by {
      InsertRequestAt(Requests(q.items), request, p);
    }
    AddedDifference(q, request);
    AddedPremium(q, request);
  }

  lemma AddedPremium(q: GasQueue, request: Request)
    requires q.replacementRate >= 1
    ensures var p, a := InsertionPoint(q.items, request.idealGasPrice), AddedItems(q, request);
      && |a| == |q.items| + 1
      && forall i :: p <= i < |q.items| ==> LeastPremium(q.items[i], a[i], q.replacementRate)
  {
    var p, a := InsertionPoint(q.items, request.idealGasPrice), AddedItems(q, request);
    AddedShape(q, request);
    forall i | p <= i < |q.items| ensures LeastPremium(q.items[i], a[i], q.replacementRate) {
      ReplacedPaysPremium(q.items[i], RequestAt(q.items, request, p, i), q.replacementRate);
    }
  }

  /** `add` inserts, and fails only for want of room or because the identifier is queued already. */
  lemma AddIsInsertion(q: GasQueue, request: Request)
    requires Valid(q) && Coherent(q.items)
    ensures Add(q, request).Success? <==> !DepthIsReached(q) && !Contains(q, request.identifier)
    ensures Add(q, request) == Failure(AlreadyAdded) <==> !DepthIsReached(q) && Contains(q, request.identifier)
    ensures Add(q, request).Success? ==>
      var r := Add(q, request).value;
      Valid(r) && Coherent(r.items) && Inserted(q, request, r)
  {
    if !DepthIsReached(q) {
      var r := q.(items := AddedItems(q, request), emptyNonce := q.emptyNonce + 1);
      AddedAt(q, request, 0);
      AddedInOrder(q, request);
      AddedDistinct(q, request);
      OutcomeInOrder(r);
      if !Contains(q, request.identifier) {
        AddedIsInserted(q, request);
        MakeIffValid(r);
      }
    }
  }

  // ---- Consuming ---------------------------------------------------------------------------------------

  lemma ConsumedShape(q: GasQueue, index: int)
    requires q.replacementRate >= 1 && 1 <= index < |q.items|
    ensures var c := Shifted(q.items, 0, index - 1, q.emptyNonce, q.replacementRate).value[1..];
      && |c| == |q.items| - 1
      && (forall i :: 0 <= i < index ==> c[i] == Replaced(q.items[i + 1], q.items[i].request, q.replacementRate))
      && c[index..] == q.items[index + 1..]
      && Requests(c) == Requests(q.items)[..index] + Requests(q.items)[index + 1..]
  {
    var s := Shifted(q.items, 0, index - 1, q.emptyNonce, q.replacementRate).value;
    assert forall i :: 0 <= i < |s| ==> s[i] == ShiftedAt(q.items, 0, index - 1, q.emptyNonce, q.replacementRate, i);
    var c, rs := s[1..], Requests(q.items)[..index] + Requests(q.items)[index + 1..];
    forall i | 0 <= i < |c| ensures Requests(c)[i] == rs[i] {
      assert c[i] == s[i + 1];
    }
  }

  lemma ConsumedDifference(q: GasQueue, index: int, c: seq<Item>)
    requires Valid(q) && 1 <= index < |q.items| && |c| == |q.items| - 1
    requires forall i :: 0 <= i < index ==> c[i] == Replaced(q.items[i + 1], q.items[i].request, q.replacementRate)
    requires c[index..] == q.items[index + 1..]
    ensures Missing(c, q.items) == c[..index]
  {
    forall x | x in c[index..] ensures x in q.items {
      assert x in q.items[index + 1..];
    }
    forall i | 0 <= i < index ensures c[i] !in q.items {
      assert c[i] == Replaced(q.items[i + 1], q.items[i].request, q.replacementRate);
      OnlyAtItsNonce(q.items, q.emptyNonce, c[i]);
      DistinctRequests(q.items);
    }
    MissingPrefix(c, index, q.items);
  }

  /**
   * `consume` deletes a request that is not at the front; each request before it moves up one nonce, paying the
   * premium there, and exactly those are to be broadcast. For the front item it always fails.
   */
  lemma ConsumeIsDeletion(q: GasQueue, identifier: Identifier)
    requires Valid(q) && Coherent(q.items)
    ensures Consume(q, identifier).Success? <==> IndexOf(q.items, identifier) >= 1
    ensures IndexOf(q.items, identifier) == 0 ==> Consume(q, identifier) == Failure(EmptyShiftRange)
    ensures IndexOf(q.items, identifier) == -1 ==> Consume(q, identifier) == Failure(NotInQueue)
    ensures Consume(q, identifier).Success? ==>
      var k, r := IndexOf(q.items, identifier), Consume(q, identifier).value;
      && Valid(r) && Coherent(r.items)
      && r == q.(items := r.items)
      && Requests(r.items) == Requests(q.items)[..k] + Requests(q.items)[k + 1..]
      && r.items[k..] == q.items[k + 1..]
      && (forall i :: 0 <= i < k ==> LeastPremium(q.items[i + 1], r.items[i], q.replacementRate))
      && Difference(r, q) == r.items[..k]
  {
    var k := IndexOf(q.items, identifier);
    if k >= 1 {
      var c := Shifted(q.items, 0, k - 1, q.emptyNonce, q.replacementRate).value[1..];
      ConsumedShape(q, k);
      ConsumedInOrder(q, k, c);
      OutcomeInOrder(q.(items := c));
      ConsumedDifference(q, k, c);
      forall i | 0 <= i < k ensures LeastPremium(q.items[i + 1], c[i], q.replacementRate) {
        ReplacedPaysPremium(q.items[i + 1], q.items[i].request, q.replacementRate);
      }
    }
  }

  lemma ConsumedInOrder(q: GasQueue, index: int, c: seq<Item>)
    requires Valid(q) && Coherent(q.items) && 1 <= index < |q.items| && |c| == |q.items| - 1
    requires forall i :: 0 <= i < index ==> c[i] == Replaced(q.items[i + 1], q.items[i].request, q.replacementRate)
    requires c[index..] == q.items[index + 1..]
    ensures PriceOrdered(c) && Consecutive(c, q.emptyNonce) && Coherent(c) && Distinct(c)
  {
    forall i | 0 <= i < |c|
      ensures c[i].request == q.items[if i < index then i else i + 1].request
      ensures c[i].idealGasPrice == q.items[if i < index then i else i + 1].idealGasPrice
      ensures c[i].nonce == q.items[i + 1].nonce
    {
      if i < index {
        assert c[i] == Replaced(q.items[i + 1], q.items[i].request, q.replacementRate);
      } else {
        assert c[i] == c[index..][i - index] == q.items[index + 1..][i - index] == q.items[i + 1];
      }
    }
  }
}
