/**
 * `prepend`: items with lower nonces come back in front of the queue and the whole is sorted by price again.
 */
module GasQueuePrepend {
  import opened StableSort
  import opened GasQueue
  import opened GasQueueConstructor
  import opened GasQueueAdd

  // ---- Orders and permutations -------------------------------------------------------------------------

  predicate SameNonce(a: Item, b: Item) { a.nonce == b.nonce }

  predicate SameIdentifier(a: Item, b: Item) { Same(a.request.identifier, b.request.identifier) }

  lemma DistinctPermutes(s: seq<Item>, t: seq<Item>)
    requires multiset(s) == multiset(t)
    ensures Distinct(s) <==> Distinct(t)
  {
    assert Distinct(s) <==> Apart(s, SameIdentifier);
    assert Distinct(t) <==> Apart(t, SameIdentifier);
    if Apart(s, SameIdentifier) { ApartPermutes(s, t, SameIdentifier); }
    if Apart(t, SameIdentifier) { ApartPermutes(t, s, SameIdentifier); }
  }

  lemma CoherentPermutes(s: seq<Item>, t: seq<Item>)
    requires multiset(s) == multiset(t)
    requires Coherent(s)
    ensures Coherent(t)
  {
    forall i | 0 <= i < |t| ensures t[i].idealGasPrice == t[i].request.idealGasPrice {
      assert t[i] in multiset(s);
    }
  }

  lemma RequestsWithout(t: seq<Item>, i: nat)
    requires i < |t|
    ensures multiset(Requests(t)) == multiset{t[i].request} + multiset(Requests(t[..i] + t[i + 1..]))
  {
    assert Requests(t[..i] + t[i + 1..]) == Requests(t)[..i] + Requests(t)[i + 1..];
    RemoveAt(Requests(t), i);
    assert Requests(t)[i] in multiset(Requests(t));
  }

  lemma {:induction false} RequestsPermute(s: seq<Item>, t: seq<Item>)
    requires multiset(s) == multiset(t)
    ensures multiset(Requests(s)) == multiset(Requests(t))
  {
    SameSize(s, t);
    if s != [] {
      assert s[0] in multiset(t);
      var i :| 0 <= i < |t| && t[i] == s[0];
      RequestsWithout(t, i);
      RequestsWithout(s, 0);
      RemoveAt(t, i);
      RemoveAt(s, 0);
      RequestsPermute(s[..0] + s[1..], t[..i] + t[i + 1..]);
    }
  }

  lemma {:induction false} Spread(items: seq<Item>, i: nat, j: nat)
    requires forall k, m :: 0 <= k < m < |items| ==> items[k].nonce < items[m].nonce
    requires i <= j < |items|
    ensures items[j].nonce - items[i].nonce >= j - i
    decreases j - i
  {
    if i < j {
      Spread(items, i, j - 1);
    }
  }

  // ---- Acceptance --------------------------------------------------------------------------------------

  /** The lower items have distinct nonces that fill, without a gap, the place directly below the queue. */
  ghost predicate FillsBelow(q: GasQueue, lower: seq<Item>) {
    var front := q.emptyNonce - |q.items|;
    && (forall i, j :: 0 <= i < j < |lower| ==> lower[i].nonce != lower[j].nonce)
    && (forall i :: 0 <= i < |lower| ==> front - |lower| <= lower[i].nonce < front)
  }

  lemma NonceOrder(items: seq<Item>)
    ensures |ByNonce(items)| == |items| && multiset(ByNonce(items)) == multiset(items)
    ensures forall i, j :: 0 <= i < j < |items| ==> ByNonce(items)[i].nonce <= ByNonce(items)[j].nonce
  {
    SortIsStableSort(items, NonceKey);
    var b := ByNonce(items);
    forall i, j | 0 <= i < j < |b| ensures b[i].nonce <= b[j].nonce {
      assert NonceKey(b[i]) <= NonceKey(b[j]);
    }
  }

  lemma PriceOrder(items: seq<Item>)
    ensures |ByPrice(items)| == |items| && multiset(ByPrice(items)) == multiset(items) && PriceOrdered(ByPrice(items))
  {
    SortIsStableSort(items, PriceKey);
    var b := ByPrice(items);
    forall i, j | 0 <= i < j < |b| ensures b[i].idealGasPrice >= b[j].idealGasPrice {
      assert PriceKey(b[i]) <= PriceKey(b[j]);
    }
  }

  lemma FillingIsApart(q: GasQueue, lower: seq<Item>)
    requires Consecutive(q.items, q.emptyNonce) && FillsBelow(q, lower)
    ensures Apart(lower + q.items, SameNonce)
    ensures forall x :: x in lower + q.items ==> q.emptyNonce - |q.items| - |lower| <= x.nonce < q.emptyNonce
  {
    var all, n := lower + q.items, |lower|;
    forall i, j | 0 <= i < j < |all| ensures !SameNonce(all[i], all[j]) {
      assert i < n ==> all[i] == lower[i];
      assert j >= n ==> all[j] == q.items[j - n];
    }
  }

  /** Distinct nonces from a range that is exactly as long as the sequence, once sorted, are consecutive. */
  lemma TightRange(b: seq<Item>, emptyNonce: int)
    requires forall i, j :: 0 <= i < j < |b| ==> b[i].nonce < b[j].nonce
    requires forall i :: 0 <= i < |b| ==> emptyNonce - |b| <= b[i].nonce < emptyNonce
    ensures Consecutive(b, emptyNonce)
  {
    forall i | 0 <= i < |b| ensures b[i].nonce == emptyNonce - |b| + i {
      Spread(b, 0, i);
      Spread(b, i, |b| - 1);
    }
  }

  lemma FillingMakesConsecutive(q: GasQueue, lower: seq<Item>)
    requires Consecutive(q.items, q.emptyNonce) && FillsBelow(q, lower)
    ensures Consecutive(ByNonce(lower + q.items), q.emptyNonce)
  {
    var all := lower + q.items;
    var b := ByNonce(all);
    NonceOrder(all);
    FillingIsApart(q, lower);
    ApartPermutes(all, b, SameNonce);
    forall i, j | 0 <= i < j < |b| ensures b[i].nonce < b[j].nonce {
      assert !SameNonce(b[i], b[j]);
    }
    forall i | 0 <= i < |b| ensures q.emptyNonce - |b| <= b[i].nonce < q.emptyNonce {
      assert b[i] in multiset(b);
      assert b[i] in all;
    }
    TightRange(b, q.emptyNonce);
  }

  lemma NonceInRangeIsTaken(items: seq<Item>, emptyNonce: int, nonce: int)
    requires Consecutive(items, emptyNonce)
    ensures emptyNonce - |items| <= nonce < emptyNonce ==> exists k :: 0 <= k < |items| && items[k].nonce == nonce
  {
    var k := nonce - (emptyNonce - |items|);
    if 0 <= k < |items| {
      assert items[k].nonce == nonce;
    }
  }

  lemma ConsecutiveMeansFilling(q: GasQueue, lower: seq<Item>)
    requires Consecutive(q.items, q.emptyNonce)
    requires Consecutive(ByNonce(lower + q.items), q.emptyNonce)
    ensures FillsBelow(q, lower)
  {
    var all := lower + q.items;
    var b, front := ByNonce(all), q.emptyNonce - |q.items|;
    NonceOrder(all);
    assert Apart(b, SameNonce);
    ApartPermutes(b, all, SameNonce);
    forall i, j | 0 <= i < j < |lower| ensures lower[i].nonce != lower[j].nonce {
      assert !SameNonce(all[i], all[j]);
    }
    forall i | 0 <= i < |lower| ensures front - |lower| <= lower[i].nonce < front {
      assert all[i] == lower[i] && all[i] in multiset(b);
      forall k | 0 <= k < |q.items| ensures q.items[k].nonce != lower[i].nonce {
        assert all[|lower| + k] == q.items[k];
        assert !SameNonce(all[i], all[|lower| + k]);
      }
      NonceInRangeIsTaken(q.items, q.emptyNonce, lower[i].nonce);
    }
  }

  /** Sorting by nonce puts the lower items first and leaves the queue's own items as they were. */
  lemma QueueKeepsItsPlace(q: GasQueue, lower: seq<Item>)
    requires Consecutive(q.items, q.emptyNonce) && FillsBelow(q, lower)
    ensures var b := ByNonce(lower + q.items);
      |b| == |lower| + |q.items| && b[|lower|..] == q.items && multiset(b[..|lower|]) == multiset(lower)
  {
    var all := lower + q.items;
    var b := ByNonce(all);
    NonceOrder(all);
    FillingMakesConsecutive(q, lower);
    forall i | 0 <= i < |q.items| ensures b[|lower| + i] == q.items[i] {
      assert all[|lower| + i] == q.items[i];
      assert q.items[i] in multiset(all);
      assert q.items[i] in b;
      OnlyAtItsNonce(b, q.emptyNonce, q.items[i]);
    }
    assert b[|lower|..] == q.items;
    SplitMultisets(b, |lower|, lower, q.items);
  }

  /** Overwriting by nonce what an order by price moves: this holds for any sort, stable or not. */
  lemma ReorderedInOrder(byNonce: seq<Item>, target: seq<Item>, emptyNonce: int, rate: int)
    requires rate >= 1 && |byNonce| == |target| && multiset(byNonce) == multiset(target)
    requires Coherent(byNonce) && PriceOrdered(target)
    ensures var r := Reordered(byNonce, target, rate);
      && PriceOrdered(r) && Coherent(r)
      && (Consecutive(r, emptyNonce) <==> Consecutive(byNonce, emptyNonce))
      && (Distinct(r) <==> Distinct(byNonce))
      && multiset(Requests(r)) == multiset(Requests(byNonce))
  {
    var r := Reordered(byNonce, target, rate);
    CoherentPermutes(byNonce, target);
    forall i | 0 <= i < |r|
      ensures r[i].request == target[i].request
      ensures r[i].idealGasPrice == target[i].idealGasPrice
      ensures r[i].nonce == byNonce[i].nonce
    {
      assert r[i] == ReorderedAt(byNonce, target, rate, i);
    }
    DistinctPermutes(byNonce, target);
    assert Distinct(r) <==> Distinct(target);
    RequestsPermute(byNonce, target);
    assert Requests(r) == Requests(target);
  }

  /** When `prepend` accepts: the nonces fit, no identifier is repeated and there is room. */
  ghost predicate Prependable(q: GasQueue, lower: seq<Item>) {
    && FillsBelow(q, lower)
    && Distinct(lower + q.items)
    && |lower| + |q.items| <= q.maxQueueDepth
  }

  lemma PrependOutcome(q: GasQueue, lower: seq<Item>)
    requires Valid(q) && Coherent(q.items) && Coherent(lower)
    ensures Prepend(q, lower).Success? <==> Prependable(q, lower)
    ensures Prepend(q, lower).Success? ==> Valid(Prepend(q, lower).value) && Coherent(Prepend(q, lower).value.items)
    ensures Prepend(q, lower).Success? ==>
      multiset(Requests(Prepend(q, lower).value.items)) == multiset(Requests(lower + q.items))
  {
    var all := lower + q.items;
    var byNonce := ByNonce(all);
    var byPrice := ByPrice(byNonce);
    NonceOrder(all);
    PriceOrder(byNonce);
    CoherentPermutes(all, byNonce);
    ReorderedInOrder(byNonce, byPrice, q.emptyNonce, q.replacementRate);
    MakeIffValid(q.(items := Reordered(byNonce, byPrice, q.replacementRate)));
    DistinctPermutes(all, byNonce);
    RequestsPermute(all, byNonce);
    if FillsBelow(q, lower) { FillingMakesConsecutive(q, lower); }
    if Consecutive(byNonce, q.emptyNonce) { ConsecutiveMeansFilling(q, lower); }
  }

  // ---- What prepending does ----------------------------------------------------------------------------

  /**
   * The merged queue keeps every item that the price order leaves in place. Every other nonce gets another request,
   * at a premium over the item that had the nonce before. To broadcast are the moved positions and the lower items.
   */
  ghost predicate Merged(q: GasQueue, lower: seq<Item>, r: GasQueue) {
    var byNonce := ByNonce(lower + q.items);
    var byPrice := ByPrice(byNonce);
    && r == q.(items := r.items)
    && |r.items| == |byNonce| == |byPrice| == |lower| + |q.items|
    && byNonce[|lower|..] == q.items && multiset(byNonce[..|lower|]) == multiset(lower)
    && multiset(Requests(r.items)) == multiset(Requests(lower + q.items))
    && (forall i :: 0 <= i < |byNonce| ==>
          if byPrice[i] == byNonce[i] then r.items[i] == byNonce[i]
          else r.items[i].request == byPrice[i].request != byNonce[i].request
               && LeastPremium(byNonce[i], r.items[i], q.replacementRate))
    && (forall i :: 0 <= i < |byNonce| ==>
          (r.items[i] !in q.items <==> i < |lower| || byPrice[i] != byNonce[i]))
  }

  lemma PrependMerges(q: GasQueue, lower: seq<Item>)
    requires Valid(q) && Coherent(q.items) && Coherent(lower)
    requires Prepend(q, lower).Success?
    ensures Merged(q, lower, Prepend(q, lower).value)
  {
    PrependOutcome(q, lower);
    NonceOrder(lower + q.items);
    PriceOrder(ByNonce(lower + q.items));
    QueueKeepsItsPlace(q, lower);
    var byNonce, r := ByNonce(lower + q.items), Prepend(q, lower).value;
    MakeIffValid(q.(items := Reordered(byNonce, ByPrice(byNonce), q.replacementRate)));
    forall i | 0 <= i < |byNonce|
      ensures if ByPrice(byNonce)[i] == byNonce[i] then r.items[i] == byNonce[i]
              else r.items[i].request == ByPrice(byNonce)[i].request != byNonce[i].request
                   && LeastPremium(byNonce[i], r.items[i], q.replacementRate)
      ensures r.items[i] !in q.items <==> i < |lower| || ByPrice(byNonce)[i] != byNonce[i]
    {
      MergedAt(q, lower, i);
    }
  }

  lemma ReorderedAtPremium(byNonce: seq<Item>, target: seq<Item>, rate: int, i: nat)
    requires rate >= 1 && |byNonce| == |target| && i < |byNonce|
    requires multiset(byNonce) == multiset(target) && Distinct(byNonce)
    ensures var x := Reordered(byNonce, target, rate)[i];
      && x.nonce == byNonce[i].nonce
      && (if target[i] == byNonce[i] then x == byNonce[i]
          else x.request == target[i].request != byNonce[i].request && LeastPremium(byNonce[i], x, rate))
  {
    assert Reordered(byNonce, target, rate)[i] == ReorderedAt(byNonce, target, rate, i);
    if target[i] != byNonce[i] {
      ReplacedPaysPremium(byNonce[i], target[i].request, rate);
      assert target[i] in multiset(target);
      assert target[i] in byNonce;
      DistinctRequests(byNonce);
    }
  }

  lemma MergedAt(q: GasQueue, lower: seq<Item>, i: nat)
    requires Valid(q) && Coherent(q.items) && Coherent(lower) && Prependable(q, lower)
    requires i < |lower| + |q.items|
    ensures var byNonce := ByNonce(lower + q.items);
      var byPrice := ByPrice(byNonce);
      |byNonce| == |byPrice| == |lower| + |q.items| &&
      var x := Reordered(byNonce, byPrice, q.replacementRate)[i];
      && (if byPrice[i] == byNonce[i] then x == byNonce[i]
          else x.request == byPrice[i].request != byNonce[i].request && LeastPremium(byNonce[i], x, q.replacementRate))
      && (x !in q.items <==> i < |lower| || byPrice[i] != byNonce[i])
  {
    hide LeastPremium, Reordered, PriceOrdered, Coherent, Sort;
    var byNonce := ByNonce(lower + q.items);
    NonceOrder(lower + q.items);
    PriceOrder(byNonce);
    QueueKeepsItsPlace(q, lower);
    FillingMakesConsecutive(q, lower);
    DistinctPermutes(lower + q.items, byNonce);
    ReorderedAtPremium(byNonce, ByPrice(byNonce), q.replacementRate, i);
    OnlyAtItsNonce(q.items, q.emptyNonce, Reordered(byNonce, ByPrice(byNonce), q.replacementRate)[i]);
    assert i >= |lower| ==> byNonce[i] == byNonce[|lower|..][i - |lower|] == q.items[i - |lower|];
  }
}
