/** Whole sequences of queue operations: the price at a nonce over time, and requests surviving a reorganisation. */
module GasQueueRuns {
  import opened Wrappers
  import opened StableSort
  import opened GasQueue
  import opened GasQueueConstructor
  import opened GasQueueAdd
  import opened GasQueuePrepend

  datatype Operation =
    | AddRequest(request: Request)
    | ConsumeItem(identifier: Identifier)
    | DequeueFront
    | PrependItems(items: seq<Item>)

  function Apply(q: GasQueue, op: Operation): Result<GasQueue, QueueError>
    requires q.replacementRate >= 1
  {
    match op
    case AddRequest(request) => Add(q, request)
    case ConsumeItem(identifier) => Consume(q, identifier)
    case DequeueFront => Dequeue(q)
    case PrependItems(items) => Prepend(q, items)
  }

  /** An operation that throws leaves its caller with the queue it had. */
  function After(q: GasQueue, op: Operation): (r: GasQueue)
    requires q.replacementRate >= 1
    ensures r.replacementRate == q.replacementRate && r.maxQueueDepth == q.maxQueueDepth
  {
    match Apply(q, op)
    case Success(r) => r
    case Failure(_) => q
  }

  ghost predicate Sound(q: GasQueue) {
    Valid(q) && Coherent(q.items)
  }

  ghost predicate SoundOperation(op: Operation) {
    op.PrependItems? ==> Coherent(op.items)
  }

  lemma DequeueDropsFront(q: GasQueue)
    requires Valid(q)
    ensures Dequeue(q) == Success(q.(items := if q.items == [] then [] else q.items[1..]))
    ensures Valid(Dequeue(q).value)
  {
    var r := q.(items := if q.items == [] then [] else q.items[1..]);
    MakeIffValid(r);
  }

  lemma StepKeepsSound(q: GasQueue, op: Operation)
    requires Sound(q) && SoundOperation(op)
    ensures Sound(After(q, op))
  {
    match op
    case AddRequest(request) => AddIsInsertion(q, request);
    case ConsumeItem(identifier) => ConsumeIsDeletion(q, identifier);
    case DequeueFront => DequeueDropsFront(q);
    case PrependItems(items) =>
      PrependOutcome(q, items);
      MakeIffValid(After(q, op));
  }

  // ---- The price at one nonce --------------------------------------------------------------------------

  /** The item at `nonce`, if the queue has one. */
  function ItemAt(q: GasQueue, nonce: int): Option<Item> {
    var j := nonce - (q.emptyNonce - |q.items|);
    if 0 <= j < |q.items| then Some(q.items[j]) else None
  }

  lemma AddPriceRule(q: GasQueue, request: Request, nonce: int)
    requires Sound(q) && Add(q, request).Success? && ItemAt(q, nonce).Some?
    ensures ItemAt(Add(q, request).value, nonce).Some?
    ensures var x, y := ItemAt(q, nonce).value, ItemAt(Add(q, request).value, nonce).value;
      y == x || Premium(x, y, q.replacementRate)
  {
    var j := nonce - (q.emptyNonce - |q.items|);
    AddIsInsertion(q, request);
    hide Add, Valid, Coherent, InsertRequest, InsertionPoint, Difference, Contains, Premium, LeastPremium;
    var r, p := Add(q, request).value, InsertionPoint(q.items, request.idealGasPrice);
    LeastIsPremium(q.items[j], r.items[j], q.replacementRate);
    if j < p {
      assert r.items[j] == r.items[..p][j] == q.items[..p][j];
    }
  }

  lemma ConsumePriceRule(q: GasQueue, identifier: Identifier, nonce: int)
    requires Sound(q) && Consume(q, identifier).Success? && ItemAt(q, nonce).Some?
    requires ItemAt(Consume(q, identifier).value, nonce).Some?
    ensures var x, y := ItemAt(q, nonce).value, ItemAt(Consume(q, identifier).value, nonce).value;
      y == x || Premium(x, y, q.replacementRate)
  {
    hide Consume, Valid, Coherent, Difference, Premium, LeastPremium;
    ConsumeIsDeletion(q, identifier);
    var r := Consume(q, identifier).value;
    assert |Requests(r.items)| == |r.items| == |q.items| - 1;
    ConsumedPays(q, r, IndexOf(q.items, identifier), nonce - (q.emptyNonce - |q.items|));
  }

  lemma ConsumedPays(q: GasQueue, r: GasQueue, k: nat, j: nat)
    requires k < |q.items| && |r.items| == |q.items| - 1 && 1 <= j < |q.items|
    requires r.items[k..] == q.items[k + 1..]
    requires forall i :: 0 <= i < k ==> LeastPremium(q.items[i + 1], r.items[i], q.replacementRate)
    ensures r.items[j - 1] == q.items[j] || Premium(q.items[j], r.items[j - 1], q.replacementRate)
  {
    hide Premium, LeastPremium;
    LeastIsPremium(q.items[j], r.items[j - 1], q.replacementRate);
    if j > k {
      assert r.items[j - 1] == r.items[k..][j - 1 - k] == q.items[k + 1..][j - 1 - k];
    }
  }

  lemma PrependPriceRule(q: GasQueue, lower: seq<Item>, nonce: int)
    requires Sound(q) && Coherent(lower) && Prepend(q, lower).Success? && ItemAt(q, nonce).Some?
    ensures ItemAt(Prepend(q, lower).value, nonce).Some?
    ensures var x, y := ItemAt(q, nonce).value, ItemAt(Prepend(q, lower).value, nonce).value;
      y == x || Premium(x, y, q.replacementRate)
  {
    hide *;
    SoundParts(q);
    PrependMerges(q, lower);
    MergedPays(q, lower, Prepend(q, lower).value, nonce);
  }

  lemma MergedPays(q: GasQueue, lower: seq<Item>, r: GasQueue, nonce: int)
    requires Merged(q, lower, r) && ItemAt(q, nonce).Some?
    ensures ItemAt(r, nonce).Some?
    ensures var x, y := ItemAt(q, nonce).value, ItemAt(r, nonce).value;
      y == x || Premium(x, y, q.replacementRate)
  {
    hide Sort, Premium, LeastPremium, Requests;
    var byNonce, j := ByNonce(lower + q.items), nonce - (q.emptyNonce - |q.items|);
    LeastIsPremium(q.items[j], r.items[|lower| + j], q.replacementRate);
    assert byNonce[|lower| + j] == byNonce[|lower|..][j] == q.items[j];
  }

  /** One operation: what stands at a nonce afterwards is what stood there before, or it pays the premium over it. */
  lemma StepPriceRule(q: GasQueue, op: Operation, nonce: int)
    requires Sound(q) && SoundOperation(op)
    requires ItemAt(q, nonce).Some? && ItemAt(After(q, op), nonce).Some?
    ensures var x, y := ItemAt(q, nonce).value, ItemAt(After(q, op), nonce).value;
      y == x || Premium(x, y, q.replacementRate)
  {
    if Apply(q, op).Success? {
      match op
      case AddRequest(request) => AddPriceRule(q, request, nonce);
      case ConsumeItem(identifier) => ConsumePriceRule(q, identifier, nonce);
      case DequeueFront => DequeueDropsFront(q);
      case PrependItems(items) => PrependPriceRule(q, items, nonce);
    }
  }

  /** The queue holds `nonce` at the start and after each of the operations. */
  ghost predicate Throughout(q: GasQueue, ops: seq<Operation>, nonce: int)
    requires q.replacementRate >= 1
    decreases |ops|
  {
    && ItemAt(q, nonce).Some?
    && (ops != [] ==> Throughout(After(q, ops[0]), ops[1..], nonce))
  }

  function Finally(q: GasQueue, ops: seq<Operation>): GasQueue
    requires q.replacementRate >= 1
    decreases |ops|
  {
    if ops == [] then q else Finally(After(q, ops[0]), ops[1..])
  }

  /** The different items that stand at `nonce` in turn. */
  ghost function History(q: GasQueue, ops: seq<Operation>, nonce: int): (h: seq<Item>)
    requires q.replacementRate >= 1 && Throughout(q, ops, nonce)
    ensures h != [] && h[0] == ItemAt(q, nonce).value
    decreases |ops|
  {
    if ops == [] then [ItemAt(q, nonce).value]
    else
      var rest := History(After(q, ops[0]), ops[1..], nonce);
      if ItemAt(After(q, ops[0]), nonce) == ItemAt(q, nonce) then rest else [ItemAt(q, nonce).value] + rest
  }

  ghost predicate PremiumChain(h: seq<Item>, rate: int) {
    forall i :: 0 <= i < |h| - 1 ==> Premium(h[i], h[i + 1], rate)
  }

  lemma ChainGrows(x: Item, h: seq<Item>, rate: int)
    requires h != [] && PremiumChain(h, rate) && Premium(x, h[0], rate)
    ensures PremiumChain([x] + h, rate)
  {
    forall i | 0 <= i < |h| ensures Premium(([x] + h)[i], ([x] + h)[i + 1], rate) {
      if i > 0 {
        assert Premium(h[i - 1], h[i - 1 + 1], rate);
      }
    }
  }

  /** Over any run in which the queue keeps a nonce, each item at that nonce pays the premium over the one before. */
  lemma {:induction false} HistoryPaysPremium(q: GasQueue, ops: seq<Operation>, nonce: int)
    requires Sound(q) && (forall i :: 0 <= i < |ops| ==> SoundOperation(ops[i]))
    requires Throughout(q, ops, nonce)
    ensures PremiumChain(History(q, ops, nonce), q.replacementRate)
    ensures ItemAt(Finally(q, ops), nonce) == Some(History(q, ops, nonce)[|History(q, ops, nonce)| - 1])
    decreases |ops|
  {
    if ops != [] {
      var r := After(q, ops[0]);
      StepKeepsSound(q, ops[0]);
      StepPriceRule(q, ops[0], nonce);
      HistoryPaysPremium(r, ops[1..], nonce);
      if ItemAt(r, nonce) != ItemAt(q, nonce) {
        ChainGrows(ItemAt(q, nonce).value, History(r, ops[1..], nonce), q.replacementRate);
      }
    }
  }

  function Power(base: nat, k: nat): nat {
    if k == 0 then 1 else base * Power(base, k - 1)
  }

  lemma Compound(p0: nat, p1: nat, pk: nat, a: nat, b: nat, g: nat)
    requires a * pk >= b * p1
    requires 100 * p1 >= g * p0
    ensures (100 * a) * pk >= (g * b) * p0
  {
    calc {
      (100 * a) * pk;
      100 * (a * pk);
      >= 100 * (b * p1);
      b * (100 * p1);
      >= { MultiplyOrder(b, g * p0, 100 * p1); } b * (g * p0);
      (g * b) * p0;
    }
  }

  lemma MultiplyOrder(b: nat, x: nat, y: nat)
    requires x <= y
    ensures b * x <= b * y
  {
  }

  /** k replacements compound the premium k times: 100^k * p_k >= (100 + rate)^k * p_0. */
  lemma {:induction false} PremiumCompounds(h: seq<Item>, rate: nat)
    requires h != [] && PremiumChain(h, rate)
    ensures Power(100, |h| - 1) * h[|h| - 1].nonceGasPrice >= Power(100 + rate, |h| - 1) * h[0].nonceGasPrice
  {
    if |h| > 1 {
      assert Premium(h[0], h[0 + 1], rate);
      forall i | 0 <= i < |h[1..]| - 1 ensures Premium(h[1..][i], h[1..][i + 1], rate) {
        assert Premium(h[i + 1], h[i + 1 + 1], rate);
      }
      PremiumCompounds(h[1..], rate);
      Compound(h[0].nonceGasPrice, h[1].nonceGasPrice, h[|h| - 1].nonceGasPrice,
               Power(100, |h| - 2), Power(100 + rate, |h| - 2), 100 + rate);
    }
  }

  // ---- Reorganisations ---------------------------------------------------------------------------------

  function DequeueMany(q: GasQueue, k: nat): Result<GasQueue, QueueError>
    decreases k
  {
    if k == 0 then Success(q)
    else
      match Dequeue(q)
      case Success(r) => DequeueMany(r, k - 1)
      case Failure(e) => Failure(e)
  }

  lemma {:induction false} DequeueManyDrops(q: GasQueue, k: nat)
    requires Valid(q) && k <= |q.items|
    ensures DequeueMany(q, k) == Success(q.(items := q.items[k..]))
    ensures Valid(q.(items := q.items[k..]))
    decreases k
  {
    if k > 0 {
      DequeueDropsFront(q);
      hide Valid, Dequeue;
      DequeueManyDrops(Dequeue(q).value, k - 1);
      assert q.items[1..][k - 1..] == q.items[k..];
    } else {
      assert q.items[0..] == q.items;
    }
  }

  lemma SortedAsBefore(q: GasQueue, k: nat, lower: seq<Item>)
    requires Sound(q) && k <= |q.items| && multiset(lower) == multiset(q.items[..k])
    ensures ByNonce(lower + q.items[k..]) == q.items
  {
    hide Sort, Coherent, Distinct, PriceOrdered;
    var all := lower + q.items[k..];
    assert q.items == q.items[..k] + q.items[k..];
    assert multiset(all) == multiset(q.items);
    NonceOrder(all);
    assert Sorted(ByNonce(all), NonceKey);
    SortedPermutationIsUnique(q.items, ByNonce(all), NonceKey);
  }

  lemma NothingReordered(items: seq<Item>, rate: int)
    requires PriceOrdered(items) && rate >= 1
    ensures ByPrice(items) == items && Reordered(items, items, rate) == items
  {
    SortOfSorted(items, PriceKey);
  }

  /** A reorganisation that returns the last k mined items, in any order, restores the queue and replaces nothing. */
  lemma ReorgRoundTrip(q: GasQueue, k: nat, lower: seq<Item>)
    requires Sound(q) && k <= |q.items|
    requires multiset(lower) == multiset(q.items[..k])
    ensures DequeueMany(q, k).Success? && DequeueMany(q, k).value.replacementRate >= 1
    ensures Prepend(DequeueMany(q, k).value, lower) == Success(q)
  {
    DequeueManyDrops(q, k);
    SortedAsBefore(q, k, lower);
    NothingReordered(q.items, q.replacementRate);
    MakeIffValid(q);
    hide Sort, Valid, Coherent, QueueFault, Reordered;
  }

  /** `target` has the items in an order by price, as a sort that is not stable might return it. */
  ghost predicate InPriceOrder(items: seq<Item>, target: seq<Item>) {
    |target| == |items| && multiset(target) == multiset(items) && PriceOrdered(target)
  }

  ghost predicate NoTies(items: seq<Item>) {
    forall i, j :: 0 <= i < j < |items| ==> items[i].idealGasPrice != items[j].idealGasPrice
  }

  /** Two neighbours of one price, exchanged, are in the order of prices, but their nonces change hands. */
  lemma TieMoves(q: GasQueue, i: nat)
    requires Sound(q) && i + 1 < |q.items| && q.items[i].idealGasPrice == q.items[i + 1].idealGasPrice
    ensures var target := q.items[i := q.items[i + 1]][i + 1 := q.items[i]];
      InPriceOrder(q.items, target) && Reordered(q.items, target, q.replacementRate) != q.items
  {
    var s := q.items;
    var target := s[i := s[i + 1]][i + 1 := s[i]];
    assert s == s[..i] + [s[i], s[i + 1]] + s[i + 2..];
    assert target == s[..i] + [s[i + 1], s[i]] + s[i + 2..];
    assert multiset([s[i], s[i + 1]]) == multiset([s[i + 1], s[i]]);
    assert !Same(s[i].request.identifier, s[i + 1].request.identifier);
    assert Reordered(s, target, q.replacementRate)[i] == ReorderedAt(s, target, q.replacementRate, i);
  }

  /**
   * The round trip needs a stable sort: any order by price will do for it exactly if no two items of the queue have
   * the same ideal price.
   */
  lemma AnyPriceOrderRestoresIff(q: GasQueue, k: nat, lower: seq<Item>)
    requires Sound(q) && k <= |q.items| && multiset(lower) == multiset(q.items[..k])
    ensures var byNonce := ByNonce(lower + q.items[k..]);
      (forall target :: InPriceOrder(byNonce, target) ==> Reordered(byNonce, target, q.replacementRate) == q.items)
      <==> NoTies(q.items)
  {
    SortedAsBefore(q, k, lower);
    hide *;
    forall target ensures NoTies(q.items) && InPriceOrder(q.items, target) ==>
        Reordered(q.items, target, q.replacementRate) == q.items
    {
      if NoTies(q.items) && InPriceOrder(q.items, target) {
        NoTiesNoChoice(q, target);
      }
    }
    if !NoTies(q.items) {
      var i := TieHasNeighbours(q);
      TieMoves(q, i);
    }
  }

  lemma NoTiesNoChoice(q: GasQueue, target: seq<Item>)
    requires Sound(q) && NoTies(q.items) && InPriceOrder(q.items, target)
    ensures |target| == |q.items| && Reordered(q.items, target, q.replacementRate) == q.items
  {
    hide Sort, Reordered, Coherent, Distinct, Consecutive;
    SortedPermutationIsUnique(q.items, target, PriceKey);
    NothingReordered(q.items, q.replacementRate);
  }

  lemma TieHasNeighbours(q: GasQueue) returns (i: nat)
    requires Sound(q) && !NoTies(q.items)
    ensures i + 1 < |q.items| && q.items[i].idealGasPrice == q.items[i + 1].idealGasPrice
  {
    hide Coherent, Distinct, Consecutive;
    var j;
    i, j :| 0 <= i < j < |q.items| && q.items[i].idealGasPrice == q.items[j].idealGasPrice;
    assert q.items[i].idealGasPrice >= q.items[i + 1].idealGasPrice >= q.items[j].idealGasPrice;
  }

  function AddAll(q: GasQueue, requests: seq<Request>): (r: Result<GasQueue, QueueError>)
    requires q.replacementRate >= 1
    ensures r.Success? ==> r.value.replacementRate == q.replacementRate
    decreases |requests|
  {
    if requests == [] then Success(q)
    else
      match Add(q, requests[0])
      case Success(r) => AddAll(r, requests[1..])
      case Failure(e) => Failure(e)
  }

  lemma {:induction false} AddAllGrows(q: GasQueue, requests: seq<Request>)
    requires Sound(q) && AddAll(q, requests).Success?
    ensures var r := AddAll(q, requests).value;
      && Sound(r)
      && |r.items| == |q.items| + |requests|
      && r.emptyNonce == q.emptyNonce + |requests|
      && r.maxQueueDepth == q.maxQueueDepth
      && multiset(Requests(r.items)) == multiset(Requests(q.items)) + multiset(requests)
    decreases |requests|
  {
    if requests != [] {
      AddIsInsertion(q, requests[0]);
      var r := Add(q, requests[0]).value;
      AddAllGrows(r, requests[1..]);
      var p := InsertionPoint(q.items, requests[0].idealGasPrice);
      InsertRequestAdds(Requests(q.items), requests[0]);
      HeadAndTail(requests);
    }
  }

  lemma {:induction false} InsertRequestAdds(requests: seq<Request>, request: Request)
    ensures multiset(InsertRequest(requests, request)) == multiset(requests) + multiset{request}
  {
    if requests != [] && requests[0].idealGasPrice >= request.idealGasPrice {
      InsertRequestAdds(requests[1..], request);
      HeadAndTail(requests);
    }
  }

  /**
   * With requests added between the blocks and the reorganisation, the mined items still come back, provided only
   * that there is room and that none of them was enqueued a second time.
   */
  lemma ReorgAfterAdds(q: GasQueue, k: nat, requests: seq<Request>, lower: seq<Item>, grown: GasQueue)
    requires Sound(q) && k <= |q.items|
    requires multiset(lower) == multiset(q.items[..k])
    requires AddAll(q.(items := q.items[k..]), requests) == Success(grown)
    ensures DequeueMany(q, k) == Success(q.(items := q.items[k..]))
    ensures Sound(grown)
    ensures Prepend(grown, lower).Success? <==>
      |q.items| + |requests| <= q.maxQueueDepth && Distinct(lower + grown.items)
  {
    DequeueManyDrops(q, k);
    AddAllGrows(q.(items := q.items[k..]), requests);
    SameSize(lower, q.items[..k]);
    CoherentPermutes(q.items[..k], lower);
    MinedItemsFillBelow(q, k, lower, grown);
    PrependOutcome(grown, lower);
  }

  /** In that case no request is lost, neither a mined one nor one of those added since. */
  lemma ReorgKeepsRequests(q: GasQueue, k: nat, requests: seq<Request>, lower: seq<Item>, grown: GasQueue)
    requires Sound(q) && k <= |q.items|
    requires multiset(lower) == multiset(q.items[..k])
    requires AddAll(q.(items := q.items[k..]), requests) == Success(grown)
    requires Prepend(grown, lower).Success?
    ensures multiset(Requests(Prepend(grown, lower).value.items)) == multiset(Requests(q.items)) + multiset(requests)
  {
    hide *;
    TailIsSound(q, k);
    CoherentPermutes(q.items[..k], lower);
    AddAllGrows(q.(items := q.items[k..]), requests);
    SoundParts(grown);
    PrependOutcome(grown, lower);
    RequestsPermute(lower, q.items[..k]);
    RequestsSplit(lower, grown.items);
    RequestsSplit(q.items[..k], q.items[k..]);
    assert q.items == q.items[..k] + q.items[k..];
  }

  lemma TailIsSound(q: GasQueue, k: nat)
    requires Sound(q) && k <= |q.items|
    ensures Sound(q.(items := q.items[k..])) && Coherent(q.items[..k])
  {
  }

  lemma SoundParts(q: GasQueue)
    requires Sound(q)
    ensures Valid(q) && Coherent(q.items) && q.replacementRate >= 1
  {
  }

  lemma RequestsSplit(a: seq<Item>, b: seq<Item>)
    ensures multiset(Requests(a + b)) == multiset(Requests(a)) + multiset(Requests(b))
  {
    assert Requests(a + b) == Requests(a) + Requests(b);
  }

  lemma MinedItemsFillBelow(q: GasQueue, k: nat, lower: seq<Item>, grown: GasQueue)
    requires Valid(q) && k <= |q.items|
    requires multiset(lower) == multiset(q.items[..k])
    requires grown.emptyNonce - |grown.items| == q.emptyNonce - (|q.items| - k)
    ensures FillsBelow(grown, lower)
  {
    SameSize(lower, q.items[..k]);
    assert Apart(q.items[..k], SameNonce);
    ApartPermutes(q.items[..k], lower, SameNonce);
    forall i, j | 0 <= i < j < |lower| ensures lower[i].nonce != lower[j].nonce {
      assert !SameNonce(lower[i], lower[j]);
    }
    forall i | 0 <= i < |lower|
      ensures grown.emptyNonce - |grown.items| - |lower| <= lower[i].nonce < grown.emptyNonce - |grown.items|
    {
      assert lower[i] in multiset(lower);
      assert lower[i] in q.items[..k];
    }
  }
}
