/**
 * The in-place half of src/responder/gasQueue.ts: the operations clone the queue's array, overwrite the clone item
 * by item and construct a new queue from it. Each is proved to compute the corresponding function of `GasQueue`.
 */
module GasQueueBuffer {
  import opened Wrappers
  import opened StableSort
  import opened GasQueue

  /** A clone of the queue's array, together with the settings of the queue that is doing the work. */
  class ItemBuffer {
    var items: seq<Item>
    const emptyNonce: int
    const replacementRate: int

    constructor (q: GasQueue, initial: seq<Item>)
      ensures items == initial
      ensures emptyNonce == q.emptyNonce && replacementRate == q.replacementRate
    {
      items, emptyNonce, replacementRate := initial, q.emptyNonce, q.replacementRate;
    }

    method Append(request: Request)
      modifies this
      ensures items == old(items) + [Fresh(request, emptyNonce)]
    {
      items := items + [Fresh(request, emptyNonce)];
    }

    /** The source throws when the index is out of range; no caller lets that happen. */
    method Replace(index: nat, request: Request)
      requires index < |items| && replacementRate >= 1
      modifies this
      ensures items == old(items)[index := Replaced(old(items)[index], request, replacementRate)]
    {
      var replacementItem := items[index];
      var replacementPrice := ReplacementPrice(replacementItem.nonceGasPrice, replacementRate);
      var newGasPrice := if replacementPrice > request.idealGasPrice then replacementPrice else request.idealGasPrice;
      items := items[index := ItemRecord.Item(request, newGasPrice, request.idealGasPrice, replacementItem.nonce)];
    }

    method ShiftRight(start: int, end: int) returns (fault: Option<QueueError>)
      requires replacementRate >= 1
      requires 0 <= start && end < |items|
      modifies this
      ensures fault == (if start > end then Some(EmptyShiftRange) else None)
      ensures fault.Some? ==> items == old(items)
      ensures fault.None? ==> Shifted(old(items), start, end, emptyNonce, replacementRate) == Success(items)
    {
      if start > end {
        return Some(EmptyShiftRange);
      }
      ghost var before := items;
      ghost var size := Max(|items|, end + 2);
      var queueIndex := end;
      while queueIndex >= start
        invariant start - 1 <= queueIndex <= end
        invariant |items| == if queueIndex == end then |before| else size
        invariant forall i :: 0 <= i <= queueIndex + 1 && i < |before| ==> items[i] == before[i]
        invariant forall i :: queueIndex + 1 < i < |items| ==>
          items[i] == ShiftedAt(before, start, end, emptyNonce, replacementRate, i)
      {
        var previousRequest := items[queueIndex].request;
        var nextIndex := queueIndex + 1;
        if nextIndex != |items| {
          Replace(nextIndex, previousRequest);
        } else {
          Append(previousRequest);
        }
        queueIndex := queueIndex - 1;
      }
      assert items == Shifted(before, start, end, emptyNonce, replacementRate).value;
      return None;
    }
  }

  /** The constructor's loop over adjacent items. */
  method CheckIntegrity(items: seq<Item>) returns (fault: Option<QueueError>)
    ensures fault == ItemFault(items, 1)
  {
    if |items| > 1 {
      for index := 1 to |items|
        invariant ItemFault(items, 1) == ItemFault(items, index)
      {
        var prevItem, item := items[index - 1], items[index];
        if item.idealGasPrice > prevItem.idealGasPrice {
          return Some(IdealPriceRises);
        }
        if item.nonce != prevItem.nonce + 1 {
          return Some(NonceGap);
        }
        if OccursElsewhere(items, index) {
          return Some(AlreadyAdded);
        }
      }
    }
    return None;
  }

  method Construct(q: GasQueue) returns (r: Result<GasQueue, QueueError>)
    ensures r == Make(q)
  {
    if q.replacementRate < 1 { return Failure(BadReplacementRate); }
    if q.emptyNonce < 0 { return Failure(NegativeNonce); }
    if q.maxQueueDepth < 1 { return Failure(BadQueueDepth); }
    var fault := CheckIntegrity(q.items);
    if fault.Some? { return Failure(fault.value); }
    if |q.items| > 0 && q.items[|q.items| - 1].nonce + 1 != q.emptyNonce { return Failure(EmptyNonceMismatch); }
    if |q.items| > q.maxQueueDepth { return Failure(DepthExceeded); }
    return Success(q);
  }

  method AddInPlace(q: GasQueue, request: Request) returns (r: Result<GasQueue, QueueError>)
    requires q.replacementRate >= 1
    ensures r == Add(q, request)
  {
    if DepthIsReached(q) { return Failure(DepthReached); }
    var foundTxIndex := FindCheaper(q.items, request.idealGasPrice);
    var cloned := new ItemBuffer(q, q.items);
    if foundTxIndex != -1 {
      var fault := cloned.ShiftRight(foundTxIndex, |cloned.items| - 1);
      cloned.Replace(foundTxIndex, request);
    } else {
      cloned.Append(request);
    }
    r := Construct(q.(items := cloned.items, emptyNonce := q.emptyNonce + 1));
  }

  method ConsumeInPlace(q: GasQueue, identifier: Identifier) returns (r: Result<GasQueue, QueueError>)
    requires q.replacementRate >= 1
    ensures r == Consume(q, identifier)
  {
    var index := IndexOf(q.items, identifier);
    if index == -1 { return Failure(NotInQueue); }
    var cloned := new ItemBuffer(q, q.items);
    var fault := cloned.ShiftRight(0, index - 1);
    if fault.Some? { return Failure(fault.value); }
    cloned.items := cloned.items[1..];
    r := Construct(q.(items := cloned.items));
  }

  method PrependInPlace(q: GasQueue, lowerNonceItems: seq<Item>) returns (r: Result<GasQueue, QueueError>)
    requires q.replacementRate >= 1
    ensures r == Prepend(q, lowerNonceItems)
  {
    SortIsStableSort(ByNonce(lowerNonceItems + q.items), PriceKey);
    var byNonce := ByNonce(lowerNonceItems + q.items);
    var byPrice := ByPrice(byNonce);
    var items := ReplaceMoved(q, byNonce, byPrice);
    r := Construct(q.(items := items));
  }

  /** The loop of `prepend`: both orders are walked side by side and `byNonce` is overwritten where they differ. */
  method ReplaceMoved(q: GasQueue, byNonce: seq<Item>, byPrice: seq<Item>) returns (r: seq<Item>)
    requires |byNonce| == |byPrice| && q.replacementRate >= 1
    ensures r == Reordered(byNonce, byPrice, q.replacementRate)
  {
    var buffer := new ItemBuffer(q, byNonce);
    for index := 0 to |byPrice|
      invariant |buffer.items| == |byNonce|
      invariant forall i :: 0 <= i < index ==> buffer.items[i] == ReorderedAt(byNonce, byPrice, q.replacementRate, i)
      invariant forall i :: index <= i < |byNonce| ==> buffer.items[i] == byNonce[i]
    {
      if byPrice[index] != buffer.items[index] {
        buffer.Replace(index, byPrice[index].request);
      }
    }
    r := buffer.items;
  }
}
