/**
 * At which head of a chain the watcher and the responder's component act, in block numbers: the comparison that reaches
 * the required number of confirmations acts, and no other does.
 */
module WatcherTimes {
  import opened Wrappers
  import opened Counting
  import opened Reducers
  import W = Watcher
  import R = ResponderComponent
  import GasQueue

  // ---- The watcher -------------------------------------------------------------------------------------

  /** At this head the event, observed at block `k`, has `n` confirmations, its own block counted. */
  ghost predicate ObservedFor(s: W.State, id: string, k: int, n: int) {
    id in s.items && s.items[id] == Observed(k) && s.blockNumber >= k + n - 1
  }

  ghost predicate FirstObservedFor(run: seq<W.State>, id: string, k: int, n: int, j: nat)
    requires j < |run|
  {
    ObservedFor(run[j], id, k, n) && forall i :: 0 <= i < j ==> !ObservedFor(run[i], id, k, n)
  }

  lemma RisesAtFirst(run: seq<W.State>, id: string, n: int, j: nat, k: int)
    requires W.Follows(run, id) && 0 < j < |run|
    ensures FirstObservedFor(run, id, k, n, j)
      <==> W.StateOf(run[j], id) == Some(Observed(k)) && W.Confirmed(run[j].blockNumber, W.StateOf(run[j], id), n)
           && !W.Confirmed(run[j - 1].blockNumber, W.StateOf(run[j - 1], id), n)
  {
    forall i | 0 <= i < j && ObservedFor(run[i], id, k, n)
      ensures W.Confirmed(run[j - 1].blockNumber, W.StateOf(run[j - 1], id), n)
    {
      assert W.StateOf(run[i], id) == Some(Observed(k));
      assert i < j - 1 ==> W.StateOf(run[j - 1], id) == W.StateOf(run[i], id);
    }
  }

  /**
   * A response to an event of block `k` is started by the first head numbered `k + beforeResponse - 1` or more at which
   * the event is on record, once, and by no other head.
   */
  lemma StartsAtFirstHead(c: W.Confirmations, run: seq<W.State>, endBlocks: map<string, int>, id: string, k: int, j: nat)
    requires W.Follows(run, id) && 0 < j < |run| && W.DetectChanges(c, run[j - 1], run[j], endBlocks).Some?
    ensures W.Starts(W.DetectChanges(c, run[j - 1], run[j], endBlocks).value, id, Some(k))
      == if FirstObservedFor(run, id, k, c.beforeResponse, j) then 1 else 0
  {
    W.ComparisonCounts(c, run[j - 1], run[j], endBlocks, id, Some(k));
    RisesAtFirst(run, id, c.beforeResponse, j, k);
    hide W.DetectChanges, W.Starts, W.Follows, FirstObservedFor;
  }

  /** At this head the appointment is still being watched, and its end lies more than `n` blocks back. */
  ghost predicate ExpiredFor(s: W.State, id: string, endBlock: int, n: int) {
    id in s.items && s.items[id] == Watching && s.blockNumber > endBlock + n
  }

  ghost predicate FirstExpiredFor(run: seq<W.State>, id: string, endBlock: int, n: int, j: nat)
    requires j < |run|
  {
    ExpiredFor(run[j], id, endBlock, n) && forall i :: 0 <= i < j ==> !ExpiredFor(run[i], id, endBlock, n)
  }

  /** The appointment stays in the store once it is there. */
  ghost predicate Stays(run: seq<W.State>, id: string) {
    forall i, j :: 0 <= i < j < |run| && id in run[i].items ==> id in run[j].items
  }

  lemma ExpiresAtFirst(c: W.Confirmations, run: seq<W.State>, id: string, endBlock: int, j: nat)
    requires W.Follows(run, id) && Stays(run, id) && 0 < j < |run|
    ensures FirstExpiredFor(run, id, endBlock, c.beforeRemoval, j)
      <==> W.ShouldRemoveExpired(c, run[j], id, endBlock) && !W.ShouldRemoveExpired(c, run[j - 1], id, endBlock)
  {
    var n := c.beforeRemoval;
    var (last, before) := (W.StateOf(run[j], id), W.StateOf(run[j - 1], id));
    assert before.Some? && before.value.Observed? ==> last == before;
    forall i | 0 <= i < j && ExpiredFor(run[i], id, endBlock, n) && ExpiredFor(run[j], id, endBlock, n)
      ensures ExpiredFor(run[j - 1], id, endBlock, n)
    {
      assert i < j - 1 ==> before.Some?;
    }
  }

  /**
   * An appointment is removed by the first head at which its event, of block `k`, has `beforeRemoval` confirmations, and,
   * while it is still watched, by the first head numbered above `endBlock + beforeRemoval`; once each, and by no other.
   */
  lemma RemovesAtFirstHeads(c: W.Confirmations, run: seq<W.State>, endBlocks: map<string, int>, id: string, endBlock: int,
                            j: nat)
    requires W.Follows(run, id) && Stays(run, id) && 0 < j < |run|
    requires W.DetectChanges(c, run[j - 1], run[j], endBlocks).Some? && id in endBlocks && endBlocks[id] == endBlock
    ensures Count(W.DetectChanges(c, run[j - 1], run[j], endBlocks).value, W.RemovesOf(id))
      == (if exists k :: FirstObservedFor(run, id, k, c.beforeRemoval, j) then 1 else 0)
         + (if FirstExpiredFor(run, id, endBlock, c.beforeRemoval, j) then 1 else 0)
  {
    W.ComparisonCounts(c, run[j - 1], run[j], endBlocks, id, None);
    ExpiresAtFirst(c, run, id, endBlock, j);
    forall k ensures FirstObservedFor(run, id, k, c.beforeRemoval, j)
      <==> W.StateOf(run[j], id) == Some(Observed(k))
           && W.ShouldRemoveObserved(c, run[j], id) && !W.ShouldRemoveObserved(c, run[j - 1], id)
    {
      RisesAtFirst(run, id, c.beforeRemoval, j, k);
    }
    if W.ShouldRemoveObserved(c, run[j], id) && !W.ShouldRemoveObserved(c, run[j - 1], id) {
      assert FirstObservedFor(run, id, run[j].items[id].blockObserved, c.beforeRemoval, j);
    }
    hide W.DetectChanges, W.Follows, FirstObservedFor, FirstExpiredFor;
  }

  // ---- The responder's component -----------------------------------------------------------------------

  /** At this head the response has been mined, and more than `n` blocks above the block that holds it. */
  ghost predicate MinedFor(s: R.State, id: string, n: int) {
    id in s.items && match s.items[id].state
      case Pending => false
      case Mined(k, _) => s.blockNumber > k + n
  }

  ghost predicate IsMined(s: R.State, id: string) {
    id in s.items && s.items[id].state.Mined?
  }

  lemma MinedStays(run: seq<R.State>, confirmations: int, id: string, identifierOf: string -> GasQueue.Identifier, j: nat)
    requires R.Follows(run, id, identifierOf) && 0 < j < |run|
    ensures R.Listed(run[j], identifierOf) && id in run[j].items
    ensures MinedFor(run[j], id, confirmations) <==> R.ShouldBeRemoved(run[j], id, confirmations)
    ensures (exists i :: 0 <= i < j && MinedFor(run[i], id, confirmations)) <==> R.ShouldBeRemoved(run[j - 1], id, confirmations)
    ensures (exists i :: 0 <= i < j && IsMined(run[i], id)) <==> R.HasBeenMined(run[j - 1], id)
  {
    hide R.Listed;
    assert MinedFor(run[j - 1], id, confirmations) <==> R.ShouldBeRemoved(run[j - 1], id, confirmations);
    assert IsMined(run[j - 1], id) <==> R.HasBeenMined(run[j - 1], id);
    forall i | 0 <= i < j && IsMined(run[i], id)
      ensures run[j - 1].items[id] == run[i].items[id] && run[i].blockNumber <= run[j - 1].blockNumber
    {
      assert R.HasBeenMined(run[i], id);
    }
  }

  /**
   * A response is ended by the first head numbered above the block that holds it by more than the required confirmations,
   * once, and by no other head.
   */
  lemma EndsAtFirstHead(run: seq<R.State>, confirmations: int, id: string,
                        identifierOf: string -> GasQueue.Identifier, j: nat)
    requires R.Follows(run, id, identifierOf) && 0 < j < |run|
    ensures Count(R.DetectChanges(run[j - 1], run[j], confirmations), R.Ends(id))
      == if MinedFor(run[j], id, confirmations) && forall i :: 0 <= i < j ==> !MinedFor(run[i], id, confirmations)
         then 1 else 0
  {
    MinedStays(run, confirmations, id, identifierOf, j);
    hide R.DetectChanges, R.Follows, R.Listed, R.ShouldBeRemoved, MinedFor, Count;
    R.ComparisonCounts(run[j - 1], run[j], confirmations, id, identifierOf, None);
  }

  /** It is announced as mined, at its nonce, by the first head at which it is mined, once, and by no other head. */
  lemma AnnouncedAtFirstHead(run: seq<R.State>, confirmations: int, id: string,
                             identifierOf: string -> GasQueue.Identifier, j: nat, nonce: nat)
    requires R.Follows(run, id, identifierOf) && 0 < j < |run|
    ensures Count(R.DetectChanges(run[j - 1], run[j], confirmations), R.Mines(identifierOf(id), Some(nonce)))
      == if IsMined(run[j], id) && run[j].items[id].state.nonce == nonce && forall i :: 0 <= i < j ==> !IsMined(run[i], id)
         then 1 else 0
  {
    MinedStays(run, confirmations, id, identifierOf, j);
    hide R.DetectChanges, R.Follows, R.Listed, R.ShouldBeRemoved, Count;
    R.ComparisonCounts(run[j - 1], run[j], confirmations, id, identifierOf, Some(nonce));
  }
}
