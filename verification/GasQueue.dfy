/**
 * The responder's gas queue (src/responder/gasQueue.ts): an immutable queue of transactions that is ordered by
 * ideal gas price, descending, and by consecutive nonces, ascending, at once.
 *
 * This module holds the data, the constructor's integrity checks and the four operations as functions.
 * `GasQueueBuffer` has the in-place algorithms that compute them; `GasQueueConstructor`, `GasQueueAdd`, `GasQueuePrepend`
 * and `GasQueueRuns` prove what they achieve.
 */
module GasQueue {
  import opened Wrappers
  import opened StableSort

  // ---- Transaction identifiers -------------------------------------------------------------------------

  datatype Identifier = Identifier(chainId: nat, data: string, to: string, value: nat, gasLimit: nat)

  function LowerChar(c: char): char {
    if 'A' <= c <= 'Z' then (c as int + 32) as char else c
  }

  function Lower(s: string): string {
    seq(|s|, i requires 0 <= i < |s| => LowerChar(s[i]))
  }

  /** The source's `equals`: every property agrees, the recipient up to letter case. */
  predicate Same(a: Identifier, b: Identifier) {
    && b.chainId == a.chainId
    && b.data == a.data
    && Lower(b.to) == Lower(a.to)
    && b.value == a.value
    && b.gasLimit == a.gasLimit
  }

  // ---- Items and queues --------------------------------------------------------------------------------

  datatype Request = Request(identifier: Identifier, idealGasPrice: nat, id: string, blockObserved: nat)

  datatype ItemRecord = Item(request: Request, nonceGasPrice: nat, idealGasPrice: nat, nonce: int)

  /** An item cannot be constructed with a gas price below its ideal price. */
  type Item = i: ItemRecord | i.idealGasPrice <= i.nonceGasPrice
    witness ItemRecord.Item(Request(Identifier(0, "", "", 0, 0), 0, "", 0), 0, 0, 0)

  datatype GasQueue = GasQueue(items: seq<Item>, emptyNonce: int, replacementRate: int, maxQueueDepth: int)

  datatype QueueError =
    | BadReplacementRate | NegativeNonce | BadQueueDepth
    | IdealPriceRises | NonceGap | AlreadyAdded | EmptyNonceMismatch | DepthExceeded
    | DepthReached | NotInQueue | EmptyShiftRange

  function Requests(items: seq<Item>): (r: seq<Request>)
    ensures |r| == |items|
  {
    seq(|items|, i requires 0 <= i < |items| => items[i].request)
  }

  predicate DepthIsReached(q: GasQueue) {
    |q.items| >= q.maxQueueDepth
  }

  // ---- The constructor ---------------------------------------------------------------------------------

  predicate OccursElsewhere(items: seq<Item>, index: nat)
    requires index < |items|
  {
    exists i | 0 <= i < |items| :: i != index && Same(items[i].request.identifier, items[index].request.identifier)
  }

  /** The first thing the constructor objects to among the items from `index` on. */
  function ItemFault(items: seq<Item>, index: nat): Option<QueueError>
    requires 1 <= index
    decreases |items| - index
  {
    if index >= |items| then None
    else if items[index].idealGasPrice > items[index - 1].idealGasPrice then Some(IdealPriceRises)
    else if items[index].nonce != items[index - 1].nonce + 1 then Some(NonceGap)
    else if OccursElsewhere(items, index) then Some(AlreadyAdded)
    else ItemFault(items, index + 1)
  }

  function QueueFault(q: GasQueue): Option<QueueError> {
    if q.replacementRate < 1 then Some(BadReplacementRate)
    else if q.emptyNonce < 0 then Some(NegativeNonce)
    else if q.maxQueueDepth < 1 then Some(BadQueueDepth)
    else if ItemFault(q.items, 1).Some? then ItemFault(q.items, 1)
    else if |q.items| > 0 && q.items[|q.items| - 1].nonce + 1 != q.emptyNonce then Some(EmptyNonceMismatch)
    else if |q.items| > q.maxQueueDepth then Some(DepthExceeded)
    else None
  }

  function Make(q: GasQueue): Result<GasQueue, QueueError> {
    match QueueFault(q)
    case None => Success(q)
    case Some(e) => Failure(e)
  }

  // ---- What a well-formed queue is ---------------------------------------------------------------------

  ghost predicate PriceOrdered(items: seq<Item>) {
    forall i, j :: 0 <= i < j < |items| ==> items[i].idealGasPrice >= items[j].idealGasPrice
  }

  /** The nonces are consecutive and the last one is just below `emptyNonce`. */
  ghost predicate Consecutive(items: seq<Item>, emptyNonce: int) {
    forall i :: 0 <= i < |items| ==> items[i].nonce == emptyNonce - |items| + i
  }

  ghost predicate Distinct(items: seq<Item>) {
    forall i, j :: 0 <= i < j < |items| ==> !Same(items[i].request.identifier, items[j].request.identifier)
  }

  ghost predicate Valid(q: GasQueue) {
    && q.replacementRate >= 1 && q.emptyNonce >= 0 && q.maxQueueDepth >= 1
    && PriceOrdered(q.items)
    && Consecutive(q.items, q.emptyNonce)
    && Distinct(q.items)
    && |q.items| <= q.maxQueueDepth
  }

  /** Items agree with their request about the ideal price. The constructor does not check this. */
  ghost predicate Coherent(items: seq<Item>) {
    forall i :: 0 <= i < |items| ==> items[i].idealGasPrice == items[i].request.idealGasPrice
  }

  // ---- Replacing and shifting --------------------------------------------------------------------------

  /** A price raised by `rate` percent, rounded up. */
  function ReplacementPrice(price: nat, rate: nat): nat {
    (price * (rate + 100) + 99) / 100
  }

  /** The item that takes over the nonce of `item` for `request`. */
  function Replaced(item: Item, request: Request, rate: int): (r: Item)
    requires rate >= 1
    ensures r.nonce == item.nonce && r.request == request && r.idealGasPrice == request.idealGasPrice
  {
    ItemRecord.Item(request, Max(ReplacementPrice(item.nonceGasPrice, rate), request.idealGasPrice),
         request.idealGasPrice, item.nonce)
  }

  function Fresh(request: Request, nonce: int): Item {
    ItemRecord.Item(request, request.idealGasPrice, request.idealGasPrice, nonce)
  }

  /** What ends up at position `i` when the requests at `start..=end` have moved up by one. */
  function ShiftedAt(items: seq<Item>, start: int, end: int, emptyNonce: int, rate: int, i: int): Item
    requires rate >= 1
    requires 0 <= start <= end < |items| && 0 <= i < Max(|items|, end + 2)
  {
    if i <= start || i > end + 1 then items[i]
    else if i < |items| then Replaced(items[i], items[i - 1].request, rate)
    else Fresh(items[i - 1].request, emptyNonce)
  }

  /**
   * The requests at `start..=end` each move up one position, replacing what stood there; the last may be appended.
   * The position at `start` keeps its item, for the caller to overwrite or drop.
   */
  function Shifted(items: seq<Item>, start: int, end: int, emptyNonce: int, rate: int): (r: Result<seq<Item>, QueueError>)
    requires rate >= 1
    requires 0 <= start && end < |items|
    ensures r.Success? <==> start <= end
    ensures r.Success? ==> |r.value| == Max(|items|, end + 2)
  {
    if start > end then Failure(EmptyShiftRange)
    else Success(seq(Max(|items|, end + 2), i requires 0 <= i < Max(|items|, end + 2) =>
                       ShiftedAt(items, start, end, emptyNonce, rate, i)))
  }

  // ---- The operations ----------------------------------------------------------------------------------

  /** Index of the first item that is strictly cheaper than `price`, or -1. */
  function FindCheaper(items: seq<Item>, price: nat): (f: int)
    ensures -1 <= f < |items|
    ensures f == -1 ==> forall i :: 0 <= i < |items| ==> price <= items[i].idealGasPrice
    ensures f >= 0 ==> items[f].idealGasPrice < price && forall i :: 0 <= i < f ==> price <= items[i].idealGasPrice
  {
    if items == [] then -1
    else if price > items[0].idealGasPrice then 0
    else
      var rest := FindCheaper(items[1..], price);
      if rest == -1 then -1 else rest + 1
  }

  /** Index of the first item for `identifier`, or -1. */
  function IndexOf(items: seq<Item>, identifier: Identifier): (k: int)
    ensures -1 <= k < |items|
    ensures k == -1 ==> forall i :: 0 <= i < |items| ==> !Same(identifier, items[i].request.identifier)
    ensures k >= 0 ==> Same(identifier, items[k].request.identifier)
    ensures k >= 0 ==> forall i :: 0 <= i < k ==> !Same(identifier, items[i].request.identifier)
  {
    if items == [] then -1
    else if Same(identifier, items[0].request.identifier) then 0
    else
      var rest := IndexOf(items[1..], identifier);
      if rest == -1 then -1 else rest + 1
  }

  predicate Contains(q: GasQueue, identifier: Identifier) {
    IndexOf(q.items, identifier) != -1
  }

  function AddedItems(q: GasQueue, request: Request): seq<Item>
    requires q.replacementRate >= 1
  {
    var f := FindCheaper(q.items, request.idealGasPrice);
    if f == -1 then q.items + [Fresh(request, q.emptyNonce)]
    else
      var shifted := Shifted(q.items, f, |q.items| - 1, q.emptyNonce, q.replacementRate).value;
      shifted[f := Replaced(shifted[f], request, q.replacementRate)]
  }

  function Add(q: GasQueue, request: Request): Result<GasQueue, QueueError>
    requires q.replacementRate >= 1
  {
    if DepthIsReached(q) then Failure(DepthReached)
    else Make(q.(items := AddedItems(q, request), emptyNonce := q.emptyNonce + 1))
  }

  /** Removing the front item this way fails, because the range to shift is then empty. */
  function Consume(q: GasQueue, identifier: Identifier): Result<GasQueue, QueueError>
    requires q.replacementRate >= 1
  {
    var index := IndexOf(q.items, identifier);
    if index == -1 then Failure(NotInQueue)
    else
      match Shifted(q.items, 0, index - 1, q.emptyNonce, q.replacementRate)
      case Failure(e) => Failure(e)
      case Success(shifted) => Make(q.(items := shifted[1..]))
  }

  function Dequeue(q: GasQueue): Result<GasQueue, QueueError> {
    Make(q.(items := if q.items == [] then [] else q.items[1..]))
  }

  function NonceKey(i: Item): int { i.nonce }

  function PriceKey(i: Item): int { 0 - i.idealGasPrice }

  function ByNonce(items: seq<Item>): seq<Item> {
    Sort(items, NonceKey)
  }

  function ByPrice(items: seq<Item>): seq<Item> {
    Sort(items, PriceKey)
  }

  function ReorderedAt(byNonce: seq<Item>, target: seq<Item>, rate: int, i: int): Item
    requires |byNonce| == |target| && rate >= 1 && 0 <= i < |byNonce|
  {
    if target[i] != byNonce[i] then Replaced(byNonce[i], target[i].request, rate) else byNonce[i]
  }

  /** Every position of `byNonce` that holds another item than `target` is taken over by the target's request. */
  function Reordered(byNonce: seq<Item>, target: seq<Item>, rate: int): (r: seq<Item>)
    requires |byNonce| == |target| && rate >= 1
    ensures |r| == |byNonce|
  {
    seq(|byNonce|, i requires 0 <= i < |byNonce| => ReorderedAt(byNonce, target, rate, i))
  }

  function Prepend(q: GasQueue, lowerNonceItems: seq<Item>): Result<GasQueue, QueueError>
    requires q.replacementRate >= 1
  {
    var byNonce := ByNonce(lowerNonceItems + q.items);
    SortIsStableSort(byNonce, PriceKey);
    Make(q.(items := Reordered(byNonce, ByPrice(byNonce), q.replacementRate)))
  }

  /** The items of `q` that are not items of `other`. */
  function Difference(q: GasQueue, other: GasQueue): seq<Item> {
    Missing(q.items, other.items)
  }

  function Missing(items: seq<Item>, others: seq<Item>): seq<Item> {
    if items == [] then []
    else (if items[0] in others then [] else [items[0]]) + Missing(items[1..], others)
  }
}
