/** The block processor as an object, tied to the functions of `BlockProcessor`. */
module BlockProcessorService {
  import opened Wrappers
  import opened BlockCache
  import opened BlockCacheTheorems
  import opened BlockCacheAdd
  import opened BlockCacheService
  import opened BlockProcessor

  class Processor {
    const cache: LiveCache
    var started: bool
    var lastBlockHashReceived: Option<Hash>
    /** The number of the latest head, as kept on disk. */
    var latestHead: Option<int>
    /** The "new head" events so far. */
    var heads: seq<Block>

    constructor (cache: LiveCache)
      ensures this.cache == cache && !started && lastBlockHashReceived == None && latestHead == None && heads == []
    {
      this.cache := cache;
      started, lastBlockHashReceived, latestHead, heads := false, None, None, [];
    }

    /** Adds `observed` and then its ancestors until one of them is not left detached. */
    method WalkBack(ghost world: Hash -> Block, a: Answers, observed: Block) returns (done: bool)
      requires Walkable(cache.Contents(), world, a, observed)
      modifies cache
      ensures var w := Walked(old(cache.Contents()), world, a, observed);
        cache.Contents() == w.cache && done == w.done
      ensures cache.headHash == old(cache.headHash)
    {
      hide WellFormed, Invariant, BlockCache.AddBlock, Outcome, AddEffect;
      var cur := observed;
      ghost var w := Walked(cache.Contents(), world, a, observed);
      while true
        invariant Walkable(cache.Contents(), world, a, cur)
        invariant var v := Walked(cache.Contents(), world, a, cur); v.cache == w.cache && v.done == w.done
        invariant cache.headHash == old(cache.headHash)
        decreases cur.number
      {
        StepBack(cache.Contents(), world, a, cur);
        EmptyHasNoHeight(cache.Contents(), world);
        var addResult := cache.AddBlock(cur);
        if !LeftDetached(addResult) { return true; }
        var parent := Fetched(cache.Contents(), a, cur.parentHash);
        if parent.None? { return false; }
        cur := parent.value;
      }
    }

    /** Processes batches until the block with this number was observed, a request fails, or the rounds are over. */
    method ProcessBlockNumber(ghost world: Hash -> Block, blockNumber: int, rounds: seq<Answers>)
      returns (progress: Progress)
      requires Processable(cache.Contents(), world, rounds, blockNumber)
      modifies this, cache
      ensures progress == Processed(old(cache.Contents()), world, old(cache.headHash), blockNumber, rounds)
      ensures cache.Contents() == progress.cache && cache.headHash == old(cache.headHash)
      ensures progress.Finished? ==> lastBlockHashReceived == Some(progress.observed.hash)
      ensures latestHead == old(latestHead) && heads == old(heads) && started == old(started)
    {
      hide WellFormed, Invariant, Walked, WalkEffect, Truthful, Walkable;
      var i := 0;
      ghost var head := cache.headHash;
      while i < |rounds|
        invariant 0 <= i <= |rounds| && cache.headHash == head
        invariant Processable(cache.Contents(), world, rounds[i..], blockNumber)
        invariant Processed(cache.Contents(), world, head, blockNumber, rounds[i..])
               == Processed(old(cache.Contents()), world, head, blockNumber, rounds)
        invariant latestHead == old(latestHead) && heads == old(heads) && started == old(started)
      {
        var a := rounds[i];
        assert rounds[i..][0] == a && rounds[i..][1..] == rounds[i + 1..];
        assert Truthful(a, world);
        var target := Target(cache.Contents(), cache.headHash, blockNumber);
        TargetIsWalkable(cache.Contents(), world, head, blockNumber, a);
        if target.None? { return Aborted(cache.Contents()); }
        var reply := a.byNumber(target.value);
        if reply.None? { return Aborted(cache.Contents()); }
        var observed := reply.value;
        if target.value == blockNumber { lastBlockHashReceived := Some(observed.hash); }
        WalkAttaches(cache.Contents(), world, a, observed);
        WalkKeepsInvariant(cache.Contents(), world, a, observed);
        var done := WalkBack(world, a, observed);
        if !done { return Aborted(cache.Contents()); }
        if target.value == blockNumber { return Finished(cache.Contents(), observed); }
        i := i + 1;
      }
      progress := Running(cache.Contents());
    }

    /** Sets the head and announces it; `delivered` says whether every listener succeeded. */
    method ProcessNewHead(head: Block, delivered: bool)
      modifies this`heads, this`latestHead, cache`headHash
      ensures var ok := HasAttached(cache.Contents(), head.hash);
        && cache.headHash == (if ok then Some(head.hash) else old(cache.headHash))
        && heads == (if ok && started && delivered then old(heads) + [head] else old(heads))
        && latestHead == (if ok && (started ==> delivered) then Some(head.number) else old(latestHead))
    {
      var ok := cache.SetHead(head.hash);
      if !ok { return; }
      if started {
        if !delivered { return; }
        heads := heads + [head];
      }
      latestHead := Some(head.number);
    }

    /**
     * The end of a call: the observed block becomes the head unless a later call received another block by now. After
     * a finished call that was not overtaken this succeeds exactly if the block is not below the minimum height.
     */
    method Settle(ghost world: Hash -> Block, observed: Block, delivered: bool)
      requires Invariant(cache.Contents(), world) && observed == world(observed.hash)
      requires HasAttached(cache.Contents(), observed.hash) <==> observed.number >= MinHeight(cache.Contents())
      modifies this`heads, this`latestHead, cache`headHash
      ensures cache.Contents() == old(cache.Contents())
      ensures var becomes := lastBlockHashReceived == Some(observed.hash) && observed.number >= MinHeight(cache.Contents());
        && cache.headHash == (if becomes then Some(observed.hash) else old(cache.headHash))
        && heads == (if becomes && started && delivered then old(heads) + [observed] else old(heads))
        && (becomes ==> cache.Head() == Some(observed))
    {
      if lastBlockHashReceived == Some(observed.hash) {
        ProcessNewHead(observed, delivered);
      }
    }
  }

  lemma WalkKeepsInvariant(c: Cache, world: Hash -> Block, a: Answers, b: Block)
    requires Walkable(c, world, a, b)
    ensures Invariant(Walked(c, world, a, b).cache, world)
  {
    hide Walked;
    WalkAttaches(c, world, a, b);
  }

  lemma EmptyHasNoHeight(c: Cache, world: Hash -> Block)
    requires Invariant(c, world)
    ensures c.isEmpty ==> c.maxHeight == 0
  {
  }
}
