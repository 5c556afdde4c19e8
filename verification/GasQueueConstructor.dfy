/** What the constructor of the gas queue accepts, and which error it reports otherwise. */
module GasQueueConstructor {
  import opened Wrappers
  import opened GasQueue

  predicate AdjacentOk(items: seq<Item>, k: int)
    requires 0 < k < |items|
  {
    && items[k].idealGasPrice <= items[k - 1].idealGasPrice
    && items[k].nonce == items[k - 1].nonce + 1
  }

  lemma {:induction false} FaultFree(items: seq<Item>, index: nat)
    requires 1 <= index
    ensures ItemFault(items, index).None? <==>
      forall k :: index <= k < |items| ==> AdjacentOk(items, k) && !OccursElsewhere(items, k)
    decreases |items| - index
  {
    if index < |items| {
      FaultFree(items, index + 1);
      assert AdjacentOk(items, index) <==>
        items[index].idealGasPrice <= items[index - 1].idealGasPrice && items[index].nonce == items[index - 1].nonce + 1;
    }
  }

  lemma {:induction false} OnlyDuplicatesFault(items: seq<Item>, index: nat)
    requires 1 <= index
    requires forall k :: index <= k < |items| ==> AdjacentOk(items, k)
    ensures ItemFault(items, index) in {None, Some(AlreadyAdded)}
    decreases |items| - index
  {
    if index < |items| {
      OnlyDuplicatesFault(items, index + 1);
      assert AdjacentOk(items, index);
    }
  }

  lemma {:induction false} ChainedUpTo(items: seq<Item>, n: nat)
    requires n <= |items|
    requires forall k :: 0 < k < n ==> AdjacentOk(items, k)
    ensures forall i, j :: 0 <= i < j < n ==> items[i].idealGasPrice >= items[j].idealGasPrice
    ensures forall i, j :: 0 <= i < j < n ==> items[j].nonce == items[i].nonce + (j - i)
  {
    if n > 1 {
      ChainedUpTo(items, n - 1);
      assert AdjacentOk(items, n - 1);
    }
  }

  lemma DuplicatesOccurElsewhere(items: seq<Item>)
    ensures Distinct(items) <==> forall k :: 1 <= k < |items| ==> !OccursElsewhere(items, k)
  {
    if !Distinct(items) {
      var i, j :| 0 <= i < j < |items| && Same(items[i].request.identifier, items[j].request.identifier);
      assert OccursElsewhere(items, j);
    }
  }

  /** The pairwise checks of neighbours amount to the whole queue being well formed. */
  lemma MakeIffValid(q: GasQueue)
    ensures Make(q).Success? <==> Valid(q)
    ensures Make(q).Success? ==> Make(q).value == q
  {
    FaultFree(q.items, 1);
    DuplicatesOccurElsewhere(q.items);
    if Make(q).Success? {
      ChainedUpTo(q.items, |q.items|);
    }
  }

  /** For items in order, the only errors left are a repeated identifier and, after that, a lack of room. */
  lemma OutcomeInOrder(q: GasQueue)
    requires q.replacementRate >= 1 && q.emptyNonce >= 0 && q.maxQueueDepth >= 1
    requires PriceOrdered(q.items) && Consecutive(q.items, q.emptyNonce)
    ensures Make(q) ==
      if !Distinct(q.items) then Failure(AlreadyAdded)
      else if |q.items| > q.maxQueueDepth then Failure(DepthExceeded)
      else Success(q)
  {
    FaultFree(q.items, 1);
    OnlyDuplicatesFault(q.items, 1);
    DuplicatesOccurElsewhere(q.items);
  }
}
