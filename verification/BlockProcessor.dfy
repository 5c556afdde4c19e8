/**
 * Filling the block cache from a provider (src/blockMonitor/blockProcessor.ts): a walk back along parents until a block
 * is attached, and a loop over batches of at most `maxDepth` blocks.
 */
module BlockProcessor {
  import opened Wrappers
  import opened BlockCache
  import opened BlockCacheTheorems
  import opened BlockCacheAdd

  /** What the provider answers during one batch; `None` stands for every way in which a request fails. */
  datatype Answers = Answers(byNumber: int -> Option<Block>, byHash: Hash -> Option<Block>)

  /** The provider may fail, but what it answers belongs to one chain of blocks. */
  ghost predicate Truthful(a: Answers, world: Hash -> Block) {
    && (forall h :: a.byHash(h).Some? ==> a.byHash(h).value == world(h))
    && (forall n :: a.byNumber(n).Some? ==> var b := a.byNumber(n).value; b == world(b.hash) && b.number == n)
  }

  ghost predicate AllTruthful(rounds: seq<Answers>, world: Hash -> Block) {
    forall i :: 0 <= i < |rounds| ==> Truthful(rounds[i], world)
  }

  predicate LeftDetached(result: AddResult) {
    result == AddedDetached || result == NotAddedAlreadyExistedDetached
  }

  // ---- One walk ----------------------------------------------------------------------------------------

  /** The cache a walk ends with, whether it ended by finding no detached block, and the blocks it looked at. */
  datatype Walk = Walk(cache: Cache, done: bool, steps: nat)

  function Fetched(c: Cache, a: Answers, hash: Hash): Option<Block> {
    if hash in c.blocks then Some(c.blocks[hash]) else a.byHash(hash)
  }

  ghost predicate Walkable(c: Cache, world: Hash -> Block, a: Answers, b: Block) {
    WellFormed(world) && Invariant(c, world) && Truthful(a, world) && b == world(b.hash) && b.number >= 0
  }

  function Walked(c: Cache, ghost world: Hash -> Block, a: Answers, cur: Block): Walk
    requires Walkable(c, world, a, cur)
    decreases cur.number
  {
    var d := AddBlock(c, cur);
    StepBack(c, world, a, cur);
    if !LeftDetached(Outcome(c, cur)) then Walk(d, true, 1)
    else
      match Fetched(d, a, cur.parentHash)
      case None => Walk(d, false, 1)
      case Some(parent) => var w := Walked(d, world, a, parent); w.(steps := w.steps + 1)
  }

  lemma DetachedIsAbove(c: Cache, world: Hash -> Block, b: Block)
    requires Invariant(c, world) && b == world(b.hash) && LeftDetached(Outcome(c, b))
    ensures !c.isEmpty && b.number > c.pruneHeight == MinHeight(c) >= 0
    ensures AddBlock(c, b).pruneHeight == c.pruneHeight && !AddBlock(c, b).isEmpty
    ensures b.hash in Detached(AddBlock(c, b))
  {
    hide Attaching;
    assert b.hash in c.blocks ==> b.hash in Detached(c) && c.blocks[b.hash] == b;
  }

  lemma StepBack(c: Cache, world: Hash -> Block, a: Answers, cur: Block)
    requires Walkable(c, world, a, cur)
    ensures Invariant(AddBlock(c, cur), world) && AddEffect(c, AddBlock(c, cur), cur)
    ensures LeftDetached(Outcome(c, cur)) ==>
      match Fetched(AddBlock(c, cur), a, cur.parentHash)
      case None => true
      case Some(b) => Walkable(AddBlock(c, cur), world, a, b) && b.hash == cur.parentHash && b.number == cur.number - 1
  {
    AddBlockKeepsInvariant(c, world, cur);
    hide AddBlock;
    if LeftDetached(Outcome(c, cur)) {
      DetachedIsAbove(c, world, cur);
      ParentBlock(AddBlock(c, cur), world, a, cur);
    }
  }

  lemma ParentBlock(d: Cache, world: Hash -> Block, a: Answers, cur: Block)
    requires WellFormed(world) && Invariant(d, world) && Truthful(a, world) && cur == world(cur.hash) && cur.number > 0
    ensures match Fetched(d, a, cur.parentHash)
      case None => true
      case Some(b) => Walkable(d, world, a, b) && b.hash == cur.parentHash && b.number == cur.number - 1
  {
    assert ParentIsBelow(world, cur.hash);
  }

  /** If a block was stored and its parent is attached, or pruned, then it is attached itself, or pruned. */
  lemma ParentAttachedOrPruned(d: Cache, world: Hash -> Block, b: Block)
    requires WellFormed(world) && Invariant(d, world) && !d.isEmpty && b == world(b.hash)
    requires b.parentHash in d.attached || b.number - 1 < d.pruneHeight
    requires b.number >= d.pruneHeight ==> b.hash in d.blocks
    ensures b.hash in d.attached <==> b.number >= d.pruneHeight
  {
    assert b.hash in d.blocks ==> d.blocks[b.hash] == b;
    assert b.hash in d.blocks && b.hash !in d.attached ==> b.hash in Detached(d);
  }

  /** What a walk that starts at `b` guarantees. */
  ghost predicate WalkEffect(c: Cache, w: Walk, world: Hash -> Block, b: Block) {
    && Invariant(w.cache, world) && !w.cache.isEmpty && w.cache.maxDepth == c.maxDepth
    && c.pruneHeight <= w.cache.pruneHeight && c.emitted <= w.cache.emitted
    && (forall h :: h in c.blocks && c.blocks[h].number >= w.cache.pruneHeight ==> h in w.cache.blocks)
    && (forall h :: h in w.cache.blocks ==> h in c.blocks || world(h).number <= b.number)
    && (w.done ==> (b.hash in w.cache.attached <==> b.number >= w.cache.pruneHeight))
  }

  lemma WalkEndsHere(c: Cache, world: Hash -> Block, a: Answers, b: Block)
    requires Walkable(c, world, a, b)
    ensures WalkEffect(c, Walk(AddBlock(c, b), !LeftDetached(Outcome(c, b)), 1), world, b)
  {
    StepBack(c, world, a, b);
    match Outcome(c, b)
    case Added => {
      AttachingKeeps(c, world, b);
      hide AddBlock;
      EndAttached(c, AddBlock(c, b), world, b);
    }
    case NotAddedAlreadyExisted => EndAttached(c, c, world, b);
    case NotAddedBlockNumberTooLow => EndAttached(c, c, world, b);
    case _ => {
      DetachedIsAbove(c, world, b);
      hide AddBlock;
      EndDetached(c, AddBlock(c, b), world, b);
    }
  }

  lemma EndAttached(c: Cache, d: Cache, world: Hash -> Block, b: Block)
    requires Invariant(d, world) && !d.isEmpty && AddEffect(c, d, b) && b == world(b.hash) && Invariant(c, world)
    requires b.hash in d.attached || b.number < d.pruneHeight
    ensures WalkEffect(c, Walk(d, true, 1), world, b)
  {
    assert b.hash in d.blocks ==> d.blocks[b.hash] == b;
  }

  lemma EndDetached(c: Cache, d: Cache, world: Hash -> Block, b: Block)
    requires Invariant(d, world) && !d.isEmpty && AddEffect(c, d, b) && b == world(b.hash) && Invariant(c, world)
    ensures WalkEffect(c, Walk(d, false, 1), world, b)
  {
  }

  lemma WalkGoesOn(c: Cache, d: Cache, w: Walk, world: Hash -> Block, b: Block, parent: Block)
    requires WellFormed(world) && Invariant(c, world) && Invariant(d, world) && !d.isEmpty && AddEffect(c, d, b)
    requires b == world(b.hash) && parent.hash == b.parentHash && parent.number == b.number - 1
    requires b.hash in Detached(d) && d.pruneHeight == c.pruneHeight
    requires WalkEffect(d, w, world, parent)
    ensures WalkEffect(c, w, world, b)
  {
    assert d.blocks[b.hash] == b;
    forall h | h in c.blocks && c.blocks[h].number >= w.cache.pruneHeight ensures h in w.cache.blocks {
      assert h in d.blocks && d.blocks[h] == world(h) == c.blocks[h];
    }
    if w.done {
      ParentAttachedOrPruned(w.cache, world, b);
    }
  }

  /**
   * The backward walk ends, after at most as many blocks as there are heights down to the minimum height. When it ends
   * without a failed request, the block it started from is attached unless it lies below the minimum height by now.
   */
  lemma {:induction false} WalkAttaches(c: Cache, world: Hash -> Block, a: Answers, cur: Block)
    requires Walkable(c, world, a, cur)
    ensures WalkEffect(c, Walked(c, world, a, cur), world, cur)
    ensures c.isEmpty ==> Walked(c, world, a, cur).steps == 1
    ensures !c.isEmpty ==> Walked(c, world, a, cur).steps <= Max(1, cur.number - MinHeight(c) + 1)
    decreases cur.number
  {
    hide AddBlock, AddEffect, Invariant, WellFormed, WalkEffect, Outcome;
    var d := AddBlock(c, cur);
    StepBack(c, world, a, cur);
    WalkEndsHere(c, world, a, cur);
    if LeftDetached(Outcome(c, cur)) {
      DetachedIsAbove(c, world, cur);
      match Fetched(d, a, cur.parentHash)
      case None =>
      case Some(parent) => {
        WalkAttaches(d, world, a, parent);
        WalkGoesOn(c, d, Walked(d, world, a, parent), world, cur, parent);
        StepsAgree(c, Walked(d, world, a, parent), Walked(c, world, a, cur), world, cur);
        MinHeightOf(d, world);
      }
    }
  }

  lemma MinHeightOf(c: Cache, world: Hash -> Block)
    requires Invariant(c, world) && !c.isEmpty
    ensures MinHeight(c) == c.pruneHeight
  {
  }

  lemma StepsAgree(c: Cache, w: Walk, v: Walk, world: Hash -> Block, b: Block)
    requires WalkEffect(c, w, world, b) && v == w.(steps := v.steps)
    ensures WalkEffect(c, v, world, b)
  {
  }

  /** Whatever a provider answers about blocks that are stored, the walk is the same: they are never requested. */
  lemma {:induction false} StoredIsNotRequested(c: Cache, world: Hash -> Block, a: Answers, b: Answers, cur: Block)
    requires Walkable(c, world, a, cur) && Walkable(c, world, b, cur)
    requires forall h :: h !in c.blocks ==> a.byHash(h) == b.byHash(h)
    ensures Walked(c, world, a, cur) == Walked(c, world, b, cur)
    decreases cur.number
  {
    hide AddBlock, Invariant, WellFormed, AddEffect;
    var d := AddBlock(c, cur);
    StepBack(c, world, a, cur);
    StepBack(c, world, b, cur);
    if LeftDetached(Outcome(c, cur)) {
      DetachedKeepsStored(c, cur);
      if Fetched(d, a, cur.parentHash).Some? {
        StoredIsNotRequested(d, world, a, b, Fetched(d, a, cur.parentHash).value);
      }
    }
  }

  /** The block that lies `k` below, following parents. */
  ghost function Ancestor(world: Hash -> Block, b: Block, k: nat): Block
    decreases k
  {
    if k == 0 then b else Ancestor(world, world(b.parentHash), k - 1)
  }

  /** A walk that fails does so when the parent of the last block it looked at is not stored and cannot be fetched. */
  lemma {:induction false} FailsAtRequest(c: Cache, world: Hash -> Block, a: Answers, cur: Block)
    requires Walkable(c, world, a, cur)
    ensures var w := Walked(c, world, a, cur);
      w.steps > 0
      && (!w.done ==> var last := Ancestor(world, cur, w.steps - 1);
            last.parentHash !in w.cache.blocks && a.byHash(last.parentHash) == None)
    decreases cur.number
  {
    hide AddBlock, Invariant, WellFormed, AddEffect, Outcome;
    var d := AddBlock(c, cur);
    StepBack(c, world, a, cur);
    if LeftDetached(Outcome(c, cur)) && Fetched(d, a, cur.parentHash).Some? {
      var parent := Fetched(d, a, cur.parentHash).value;
      FailsAtRequest(d, world, a, parent);
      assert parent == world(cur.parentHash);
    }
  }

  lemma DetachedKeepsStored(c: Cache, b: Block)
    requires LeftDetached(Outcome(c, b))
    ensures c.blocks.Keys <= AddBlock(c, b).blocks.Keys
  {
  }

  // ---- The loop over batches ---------------------------------------------------------------------------

  datatype Progress = Running(cache: Cache) | Aborted(cache: Cache) | Finished(cache: Cache, observed: Block)

  /** The block to process in the next batch; `None` stands for the error of a head that is unset or pruned. */
  function Target(c: Cache, head: Option<Hash>, blockNumber: int): Option<int> {
    if c.isEmpty then Some(blockNumber)
    else if head.None? || head.value !in c.blocks then None
    else
      var limit := c.blocks[head.value].number + c.maxDepth;
      Some(if blockNumber <= limit then blockNumber else limit)
  }

  ghost predicate Processable(c: Cache, world: Hash -> Block, rounds: seq<Answers>, blockNumber: int) {
    WellFormed(world) && Invariant(c, world) && AllTruthful(rounds, world) && blockNumber >= 0
  }

  /** The loop for as long as there are rounds; nothing in it changes the head. */
  function Processed(c: Cache, ghost world: Hash -> Block, head: Option<Hash>, blockNumber: int, rounds: seq<Answers>)
    : Progress
    requires Processable(c, world, rounds, blockNumber)
    decreases |rounds|
  {
    if rounds == [] then Running(c)
    else
      match Target(c, head, blockNumber)
      case None => Aborted(c)
      case Some(t) =>
        assert Truthful(rounds[0], world);
        match rounds[0].byNumber(t)
        case None => Aborted(c)
        case Some(b) =>
          TargetIsWalkable(c, world, head, blockNumber, rounds[0]);
          var w := Walked(c, world, rounds[0], b);
          WalkAttaches(c, world, rounds[0], b);
          if !w.done then Aborted(w.cache)
          else if t == blockNumber then Finished(w.cache, b)
          else Processed(w.cache, world, head, blockNumber, rounds[1..])
  }

  lemma TargetIsWalkable(c: Cache, world: Hash -> Block, head: Option<Hash>, blockNumber: int, a: Answers)
    requires WellFormed(world) && Invariant(c, world) && Truthful(a, world) && blockNumber >= 0
    ensures Target(c, head, blockNumber).Some? ==>
      var t := Target(c, head, blockNumber).value;
      t >= 0 && t <= blockNumber && (a.byNumber(t).Some? ==> Walkable(c, world, a, a.byNumber(t).value))
  {
  }

  /** When the loop finishes, the block observed for `blockNumber` is attached, or below the minimum height: exactly
      in the first case `setHead` succeeds. */
  lemma {:induction false} FinishedIsAttached(c: Cache, world: Hash -> Block, head: Option<Hash>, blockNumber: int,
                                              rounds: seq<Answers>)
    requires Processable(c, world, rounds, blockNumber)
    ensures match Processed(c, world, head, blockNumber, rounds)
      case Finished(d, b) =>
        && Invariant(d, world) && !d.isEmpty && b.number == blockNumber && b == world(b.hash)
        && (HasAttached(d, b.hash) <==> b.number >= MinHeight(d))
      case Running(d) => Invariant(d, world)
      case Aborted(d) => Invariant(d, world)
    decreases |rounds|
  {
    hide WellFormed, Invariant, Walked, MinHeight;
    if rounds != [] && Target(c, head, blockNumber).Some? {
      var t := Target(c, head, blockNumber).value;
      assert Truthful(rounds[0], world);
      TargetIsWalkable(c, world, head, blockNumber, rounds[0]);
      if rounds[0].byNumber(t).Some? {
        var b := rounds[0].byNumber(t).value;
        var w := Walked(c, world, rounds[0], b);
        WalkAttaches(c, world, rounds[0], b);
        AttachedIsStored(w.cache, world);
        if w.done && t != blockNumber {
          FinishedIsAttached(w.cache, world, head, blockNumber, rounds[1..]);
        }
      }
    }
  }

  lemma AttachedIsStored(c: Cache, world: Hash -> Block)
    requires Invariant(c, world)
    ensures c.attached <= c.blocks.Keys && (!c.isEmpty ==> MinHeight(c) == c.pruneHeight)
  {
  }

  predicate WithinReach(c: Cache, head: Option<Hash>, blockNumber: int) {
    c.isEmpty || (head.Some? && head.value in c.blocks && blockNumber <= c.blocks[head.value].number + c.maxDepth)
  }

  /** Within reach of the head, one batch is enough: the loop ends after the first round, one way or the other. */
  lemma EndsAfterOneBatch(c: Cache, world: Hash -> Block, head: Option<Hash>, blockNumber: int, rounds: seq<Answers>)
    requires Processable(c, world, rounds, blockNumber) && rounds != []
    requires WithinReach(c, head, blockNumber)
    ensures Processed(c, world, head, blockNumber, rounds) == Processed(c, world, head, blockNumber, rounds[..1])
    ensures !Processed(c, world, head, blockNumber, rounds).Running?
  {
    assert rounds[..1][0] == rounds[0];
    hide Walked, Invariant, WellFormed;
  }

  /** Nothing that a walk does changes the number of the head, as long as the head is stored. */
  lemma HeadKeepsItsNumber(c: Cache, d: Cache, world: Hash -> Block, h: Hash)
    requires Invariant(c, world) && Invariant(d, world) && h in c.blocks && h in d.blocks
    ensures c.blocks[h].number == d.blocks[h].number
  {
  }

  /** Beyond the reach of the head the loop never finishes, whatever the provider answers. */
  lemma {:induction false} BeyondReachNeverFinishes(c: Cache, world: Hash -> Block, head: Option<Hash>,
                                                    blockNumber: int, rounds: seq<Answers>)
    requires Processable(c, world, rounds, blockNumber)
    requires !c.isEmpty && !WithinReach(c, head, blockNumber)
    ensures !Processed(c, world, head, blockNumber, rounds).Finished?
    decreases |rounds|
  {
    hide WellFormed, Invariant, Walked;
    if rounds != [] && Target(c, head, blockNumber).Some? {
      var t := Target(c, head, blockNumber).value;
      assert Truthful(rounds[0], world);
      TargetIsWalkable(c, world, head, blockNumber, rounds[0]);
      if rounds[0].byNumber(t).Some? {
        var w := Walked(c, world, rounds[0], rounds[0].byNumber(t).value);
        WalkAttaches(c, world, rounds[0], rounds[0].byNumber(t).value);
        if head.value in w.cache.blocks {
          HeadKeepsItsNumber(c, w.cache, world, head.value);
        }
        if w.done {
          BeyondReachNeverFinishes(w.cache, world, head, blockNumber, rounds[1..]);
        }
      }
    }
  }

  // ---- The loop that never ends ------------------------------------------------------------------------

  /** The provider answers every request. */
  ghost predicate Answering(a: Answers) {
    (forall h :: a.byHash(h).Some?) && (forall n :: a.byNumber(n).Some?)
  }

  lemma {:induction false} AnsweredWalkIsDone(c: Cache, world: Hash -> Block, a: Answers, cur: Block)
    requires Walkable(c, world, a, cur) && Answering(a)
    ensures Walked(c, world, a, cur).done
    decreases cur.number
  {
    hide AddBlock, Invariant, WellFormed, AddEffect, Outcome;
    StepBack(c, world, a, cur);
    if LeftDetached(Outcome(c, cur)) {
      AnsweredWalkIsDone(AddBlock(c, cur), world, a, Fetched(AddBlock(c, cur), a, cur.parentHash).value);
    }
  }

  /** With a provider that always answers, the loop finishes if and only if `blockNumber` is within reach. */
  lemma FinishesIffWithinReach(c: Cache, world: Hash -> Block, head: Option<Hash>, blockNumber: int, rounds: seq<Answers>)
    requires Processable(c, world, rounds, blockNumber) && rounds != []
    requires forall i :: 0 <= i < |rounds| ==> Answering(rounds[i])
    ensures Processed(c, world, head, blockNumber, rounds).Finished? <==> WithinReach(c, head, blockNumber)
  {
    hide Walked, Invariant, WellFormed;
    if WithinReach(c, head, blockNumber) {
      assert Truthful(rounds[0], world) && Answering(rounds[0]);
      TargetIsWalkable(c, world, head, blockNumber, rounds[0]);
      AnsweredWalkIsDone(c, world, rounds[0], rounds[0].byNumber(blockNumber).value);
    } else {
      BeyondReachNeverFinishes(c, world, head, blockNumber, rounds);
    }
  }

  ghost predicate NothingAbove(c: Cache, limit: int) {
    forall h :: h in c.blocks ==> c.blocks[h].number <= limit
  }

  /** The greatest height ever attached is still stored. */
  lemma HighestIsStored(c: Cache, world: Hash -> Block)
    requires Invariant(c, world) && !c.isEmpty
    ensures exists h :: h in c.attached && h in c.blocks && c.blocks[h].number == c.maxHeight
  {
    var i :| 0 <= i < |c.emitted| && c.emitted[i].block.number == c.maxHeight;
    assert c.emitted[0].block.number <= c.maxHeight;
    assert c.emitted[i].block.hash in c.attached;
  }

  /** A walk up to `limit` does not prune a block that lies at most `maxDepth` below `limit`. */
  lemma WalkBelowLimitKeepsHead(c: Cache, w: Walk, world: Hash -> Block, b: Block, head: Hash, limit: int)
    requires Invariant(c, world) && !c.isEmpty && WalkEffect(c, w, world, b)
    requires head in c.blocks && limit == c.blocks[head].number + c.maxDepth
    requires NothingAbove(c, limit) && b.number <= limit
    ensures NothingAbove(w.cache, limit)
    ensures head in w.cache.blocks && w.cache.blocks[head] == c.blocks[head]
  {
    var d := w.cache;
    forall h | h in d.blocks ensures d.blocks[h].number <= limit {
      assert d.blocks[h] == world(h);
      assert h in c.blocks ==> c.blocks[h] == world(h);
    }
    HighestIsStored(d, world);
    assert d.maxHeight <= limit;
    assert c.emitted[0] == d.emitted[0];
    assert c.blocks[head] == world(head);
  }

  /** Beyond reach, with a provider that always answers, the loop is still running after any number of batches. */
  lemma {:induction false} BeyondReachNeverEnds(c: Cache, world: Hash -> Block, head: Hash, blockNumber: int,
                                                rounds: seq<Answers>)
    requires Processable(c, world, rounds, blockNumber)
    requires forall i :: 0 <= i < |rounds| ==> Answering(rounds[i])
    requires !c.isEmpty && head in c.blocks && blockNumber > c.blocks[head].number + c.maxDepth
    requires NothingAbove(c, c.blocks[head].number + c.maxDepth)
    ensures Processed(c, world, Some(head), blockNumber, rounds).Running?
    decreases |rounds|
  {
    hide WellFormed, Invariant, Walked, NothingAbove;
    if rounds != [] {
      var t := c.blocks[head].number + c.maxDepth;
      assert Truthful(rounds[0], world) && Answering(rounds[0]);
      TargetIsWalkable(c, world, Some(head), blockNumber, rounds[0]);
      var b := rounds[0].byNumber(t).value;
      var w := Walked(c, world, rounds[0], b);
      WalkAttaches(c, world, rounds[0], b);
      AnsweredWalkIsDone(c, world, rounds[0], b);
      WalkBelowLimitKeepsHead(c, w, world, b, head, t);
      BeyondReachNeverEnds(w.cache, world, head, blockNumber, rounds[1..]);
    }
  }
}
