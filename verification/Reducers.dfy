/**
 * State reducers (src/blockMonitor/component.ts, src/watcher/watcher.ts, src/responder/component.ts): the state of a
 * block is found either by a scan over its cached ancestry or by folding block after block.
 *
 * A chain lists a block and then its ancestors, so numbers go down.
 */
module Reducers {
  import opened Wrappers
  import opened BlockCache
  import opened BlockCacheAncestry

  /** `initial` looks at the cached ancestry of a block, `reduce` only at the block itself. */
  datatype Reducer<!S> = Reducer(initial: seq<Block> -> S, reduce: (S, Block) -> S)

  /** The state of `chain[0]` when the state of `chain[k]` was found by a scan and the later blocks were folded in. */
  function Folded<S>(r: Reducer<S>, chain: seq<Block>, k: nat): S
    requires k < |chain|
    decreases k
  {
    if k == 0 then r.initial(chain) else r.reduce(Folded(r, chain[1..], k - 1), chain[0])
  }

  /** A state that no block changes any more stays, however far the fold goes on. */
  lemma {:induction false} SettledStays<S(!new)>(r: Reducer<S>, settled: S -> bool, chain: seq<Block>, k: nat, j: nat)
    requires forall s: S, b: Block {:trigger r.reduce(s, b)} :: settled(s) ==> r.reduce(s, b) == s
    requires j <= k < |chain|
    ensures settled(Folded(r, chain[j..], k - j)) ==> Folded(r, chain, k) == Folded(r, chain[j..], k - j)
    decreases j
  {
    if j == 0 {
      assert chain[0..] == chain;
    } else {
      assert chain[1..][j - 1..] == chain[j..];
      SettledStays(r, settled, chain[1..], k - 1, j - 1);
    }
  }

  // ---- The block that a scan and a fold record ---------------------------------------------------------

  /** The block a fold records: the one found in the scanned part, else the first later one that satisfies `pred`. */
  function Kept(chain: seq<Block>, k: nat, pred: Block -> bool, start: int): Option<Block>
    requires k < |chain|
    decreases k
  {
    if k == 0 then Nearest(chain, pred, start)
    else
      match Kept(chain[1..], k - 1, pred, start)
      case Some(b) => Some(b)
      case None => if pred(chain[0]) then Some(chain[0]) else None
  }

  lemma ChainedTail(chain: seq<Block>)
    requires Chained(chain) && |chain| > 1
    ensures Chained(chain[1..])
  {
    var rest := chain[1..];
    forall i | 0 <= i < |rest| - 1 ensures rest[i + 1].hash == rest[i].parentHash {
      assert chain[i + 1].parentHash == chain[i + 2].hash;
    }
  }

  /** One of the first `k` blocks satisfies `pred` although it lies below `start`. */
  ghost predicate EarlyEvent(chain: seq<Block>, k: nat, pred: Block -> bool, start: int)
    requires k < |chain|
  {
    exists i :: 0 <= i < k && chain[i].number < start && pred(chain[i])
  }

  /** A block of the chain at `start` or above satisfies the predicate. */
  ghost predicate LateEvent(chain: seq<Block>, pred: Block -> bool, start: int) {
    exists i :: 0 <= i < |chain| && chain[i].number >= start && pred(chain[i])
  }

  lemma ScanFindsIff(chain: seq<Block>, pred: Block -> bool, start: int)
    requires Chained(chain)
    ensures Nearest(chain, pred, start).Some? <==> LateEvent(chain, pred, start)
  {
    NearestIsNearest(chain, pred, start);
  }

  lemma NearestFromHead(chain: seq<Block>, pred: Block -> bool, start: int)
    requires chain != []
    ensures Nearest(chain, pred, start)
      == if chain[0].number < start then None
         else if pred(chain[0]) then Some(chain[0])
         else Nearest(chain[1..], pred, start)
  {
  }

  lemma NothingBelowStart(chain: seq<Block>, pred: Block -> bool, start: int)
    requires Chained(chain) && chain != [] && chain[0].number < start
    ensures |chain| > 1 ==> Nearest(chain[1..], pred, start) == None
    ensures Nearest(chain, pred, start) == None
  {
    if |chain| > 1 {
      assert chain[1].number == chain[0].number - 1;
    }
  }

  lemma EarlyEventStep(chain: seq<Block>, k: nat, pred: Block -> bool, start: int)
    requires 0 < k < |chain|
    ensures EarlyEvent(chain, k, pred, start)
      <==> (chain[0].number < start && pred(chain[0])) || EarlyEvent(chain[1..], k - 1, pred, start)
  {
    if EarlyEvent(chain, k, pred, start) {
      var i :| 0 <= i < k && chain[i].number < start && pred(chain[i]);
      if i > 0 { assert chain[1..][i - 1] == chain[i]; }
    }
    if EarlyEvent(chain[1..], k - 1, pred, start) {
      var i :| 0 <= i < k - 1 && chain[1..][i].number < start && pred(chain[1..][i]);
      assert chain[i + 1] == chain[1..][i];
    }
  }

  lemma {:induction false} KeptIsBelowHead(chain: seq<Block>, k: nat, pred: Block -> bool, start: int)
    requires Chained(chain) && k < |chain|
    ensures Kept(chain, k, pred, start).Some? ==>
      pred(Kept(chain, k, pred, start).value) && Kept(chain, k, pred, start).value.number <= chain[0].number
    decreases k
  {
    if k == 0 {
      NearestIsNearest(chain, pred, start);
    } else {
      ChainedTail(chain);
      KeptIsBelowHead(chain[1..], k - 1, pred, start);
    }
  }

  /**
   * A fold records a block exactly when a scan finds one or some folded block below `start` satisfies `pred`, because
   * folding does not look at `start`. What it records is never above what the scan finds.
   */
  lemma {:induction false} ScanVersusFold(chain: seq<Block>, k: nat, pred: Block -> bool, start: int)
    requires Chained(chain) && k < |chain|
    ensures Kept(chain, k, pred, start).Some?
      <==> Nearest(chain, pred, start).Some? || EarlyEvent(chain, k, pred, start)
    ensures Kept(chain, k, pred, start).Some? && Nearest(chain, pred, start).Some? ==>
      Kept(chain, k, pred, start).value.number <= Nearest(chain, pred, start).value.number
    decreases k
  {
    if k > 0 {
      ChainedTail(chain);
      ScanVersusFold(chain[1..], k - 1, pred, start);
      EarlyEventStep(chain, k, pred, start);
      NearestFromHead(chain, pred, start);
      KeptIsBelowHead(chain[1..], k - 1, pred, start);
      if chain[0].number < start {
        NothingBelowStart(chain, pred, start);
      }
      assert chain[1..][0] == chain[1];
    }
  }

  /** Only one block of the chain satisfies `pred`. */
  ghost predicate UniqueEvent(chain: seq<Block>, pred: Block -> bool) {
    forall i, j :: 0 <= i < |chain| && 0 <= j < |chain| && pred(chain[i]) && pred(chain[j]) ==> i == j
  }

  lemma {:induction false} KeptIsInChain(chain: seq<Block>, k: nat, pred: Block -> bool, start: int)
    requires Chained(chain) && k < |chain| && Kept(chain, k, pred, start).Some?
    ensures exists i :: 0 <= i < |chain| && chain[i] == Kept(chain, k, pred, start).value && pred(chain[i])
    decreases k
  {
    if k == 0 {
      NearestIsNearest(chain, pred, start);
    } else {
      ChainedTail(chain);
      if Kept(chain[1..], k - 1, pred, start).Some? {
        KeptIsInChain(chain[1..], k - 1, pred, start);
        var i :| 0 <= i < |chain[1..]| && chain[1..][i] == Kept(chain[1..], k - 1, pred, start).value && pred(chain[1..][i]);
        assert chain[i + 1] == chain[1..][i];
      }
    }
  }

  /** When the event is unique and both record a block, they record the same one. */
  lemma SameBlockIfUnique(chain: seq<Block>, k: nat, pred: Block -> bool, start: int)
    requires Chained(chain) && k < |chain| && UniqueEvent(chain, pred)
    requires Kept(chain, k, pred, start).Some? && Nearest(chain, pred, start).Some?
    ensures Kept(chain, k, pred, start) == Nearest(chain, pred, start)
  {
    KeptIsInChain(chain, k, pred, start);
    NearestIsNearest(chain, pred, start);
  }

  // ---- The watcher's reducer ---------------------------------------------------------------------------

  datatype WatcherState = Watching | Observed(blockObserved: int)

  function WatcherInitial(matches: Block -> bool, startBlock: int, chain: seq<Block>): WatcherState {
    match Nearest(chain, matches, startBlock)
    case None => Watching
    case Some(b) => Observed(b.number)
  }

  function WatcherReduce(matches: Block -> bool, prev: WatcherState, b: Block): WatcherState {
    if prev.Watching? && matches(b) then Observed(b.number) else prev
  }

  function EventFilterReducer(matches: Block -> bool, startBlock: int): Reducer<WatcherState> {
    Reducer((chain: seq<Block>) => WatcherInitial(matches, startBlock, chain),
            (prev: WatcherState, b: Block) => WatcherReduce(matches, prev, b))
  }

  lemma {:induction false} WatcherFoldKeeps(matches: Block -> bool, startBlock: int, chain: seq<Block>, k: nat)
    requires k < |chain|
    ensures Folded(EventFilterReducer(matches, startBlock), chain, k)
      == match Kept(chain, k, matches, startBlock) case None => Watching case Some(b) => Observed(b.number)
    decreases k
  {
    if k > 0 {
      WatcherFoldKeeps(matches, startBlock, chain[1..], k - 1);
    }
  }

  /**
   * The scan and the fold agree on whether the event was observed if and only if no folded block below `startBlock` holds
   * one, or some block at `startBlock` or above does; always so when the whole chain is at `startBlock` or above. Where
   * both observed the event, the fold's block is not above the scan's, and it is the same if the event is unique.
   */
  lemma WatcherScanVersusFold(matches: Block -> bool, startBlock: int, chain: seq<Block>, k: nat)
    requires Chained(chain) && k < |chain|
    ensures var r := EventFilterReducer(matches, startBlock);
      var fold, scan := Folded(r, chain, k), r.initial(chain);
      && ((fold.Observed? <==> scan.Observed?)
           <==> (EarlyEvent(chain, k, matches, startBlock) ==> LateEvent(chain, matches, startBlock)))
      && (chain[|chain| - 1].number >= startBlock ==> (fold.Observed? <==> scan.Observed?))
      && (fold.Observed? && scan.Observed? ==> fold.blockObserved <= scan.blockObserved)
      && (fold.Observed? && scan.Observed? && UniqueEvent(chain, matches) ==> fold == scan)
  {
    WatcherFoldKeeps(matches, startBlock, chain, k);
    ScanVersusFold(chain, k, matches, startBlock);
    ScanFindsIff(chain, matches, startBlock);
    if Kept(chain, k, matches, startBlock).Some? && Nearest(chain, matches, startBlock).Some?
       && UniqueEvent(chain, matches) {
      SameBlockIfUnique(chain, k, matches, startBlock);
    }
  }

  // ---- The responder's reducer -------------------------------------------------------------------------

  /** What a block says of a transaction in it: its block number, as the provider reports it, and its nonce. */
  datatype MinedIn = MinedIn(blockNumber: int, nonce: nat)

  datatype ResponseState = Pending | Mined(blockMined: int, nonce: nat)

  function Holds(find: Block -> Option<MinedIn>): Block -> bool {
    (b: Block) => find(b).Some?
  }

  /** The scan takes the block number from the transaction. */
  function ResponseInitial(find: Block -> Option<MinedIn>, blockObserved: int, chain: seq<Block>): ResponseState
    decreases |chain|
  {
    if chain == [] || chain[0].number < blockObserved then Pending
    else
      match find(chain[0])
      case Some(tx) => Mined(tx.blockNumber, tx.nonce)
      case None => ResponseInitial(find, blockObserved, chain[1..])
  }

  /** The fold takes it from the block. */
  function ResponseReduce(find: Block -> Option<MinedIn>, prev: ResponseState, b: Block): ResponseState {
    if prev.Pending? && find(b).Some? then Mined(b.number, find(b).value.nonce) else prev
  }

  function AppointmentReducer(find: Block -> Option<MinedIn>, blockObserved: int): Reducer<ResponseState> {
    Reducer((chain: seq<Block>) => ResponseInitial(find, blockObserved, chain),
            (prev: ResponseState, b: Block) => ResponseReduce(find, prev, b))
  }

  /** The provider reports for every transaction the number of the block that holds it. */
  ghost predicate Reported(find: Block -> Option<MinedIn>) {
    forall b :: find(b).Some? ==> find(b).value.blockNumber == b.number
  }

  lemma {:induction false} ResponseScanFinds(find: Block -> Option<MinedIn>, blockObserved: int, chain: seq<Block>)
    ensures var n := Nearest(chain, Holds(find), blockObserved);
      && (n.Some? ==> find(n.value).Some?)
      && ResponseInitial(find, blockObserved, chain)
         == if n.None? then Pending else Mined(find(n.value).value.blockNumber, find(n.value).value.nonce)
    decreases |chain|
  {
    if chain != [] {
      ResponseScanFinds(find, blockObserved, chain[1..]);
    }
  }

  lemma {:induction false} ResponseFoldKeeps(find: Block -> Option<MinedIn>, blockObserved: int, chain: seq<Block>, k: nat)
    requires Chained(chain) && k < |chain| && Reported(find)
    ensures var n := Kept(chain, k, Holds(find), blockObserved);
      && (n.Some? ==> find(n.value).Some?)
      && Folded(AppointmentReducer(find, blockObserved), chain, k)
         == if n.None? then Pending else Mined(n.value.number, find(n.value).value.nonce)
    decreases k
  {
    if k == 0 {
      ResponseScanFinds(find, blockObserved, chain);
    } else {
      ChainedTail(chain);
      ResponseFoldKeeps(find, blockObserved, chain[1..], k - 1);
    }
  }

  /** The same comparison for responses, with `blockObserved` in the place of the start block. */
  lemma ResponseScanVersusFold(find: Block -> Option<MinedIn>, blockObserved: int, chain: seq<Block>, k: nat)
    requires Chained(chain) && k < |chain| && Reported(find)
    ensures var r := AppointmentReducer(find, blockObserved);
      var fold, scan := Folded(r, chain, k), r.initial(chain);
      && ((fold.Mined? <==> scan.Mined?)
           <==> (EarlyEvent(chain, k, Holds(find), blockObserved) ==> LateEvent(chain, Holds(find), blockObserved)))
      && (chain[|chain| - 1].number >= blockObserved ==> (fold.Mined? <==> scan.Mined?))
      && (fold.Mined? && scan.Mined? ==> fold.blockMined <= scan.blockMined)
      && (fold.Mined? && scan.Mined? && UniqueEvent(chain, Holds(find)) ==> fold == scan)
  {
    ResponseFoldKeeps(find, blockObserved, chain, k);
    ResponseScanFinds(find, blockObserved, chain);
    ScanVersusFold(chain, k, Holds(find), blockObserved);
    ScanFindsIff(chain, Holds(find), blockObserved);
    if Kept(chain, k, Holds(find), blockObserved).Some? && Nearest(chain, Holds(find), blockObserved).Some?
       && UniqueEvent(chain, Holds(find)) {
      SameBlockIfUnique(chain, k, Holds(find), blockObserved);
    }
  }
}
