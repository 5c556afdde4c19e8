/**
 * Walks that end without a failed request keep every attached block above the minimum height attached to its parent;
 * a walk that fails half-way can leave detached blocks behind that later break this.
 */
module BlockProcessorParents {
  import opened Wrappers
  import opened BlockCache
  import opened BlockCacheTheorems
  import opened BlockCacheAdd
  import opened BlockCacheParents
  import opened BlockCacheRule
  import opened BlockCacheAncestry
  import opened BlockProcessor

  /** No detached block is left over, and parents are attached. */
  ghost predicate Clean(c: Cache) {
    Detached(c) == {} && ParentsAttached(c)
  }

  /** The detached blocks are the part of the walk above `b`. */
  ghost predicate WalkedDownTo(c: Cache, b: Block) {
    forall h {:trigger h in Detached(c)} :: h in Detached(c) ==>
      && c.blocks[h].number > b.number
      && (if c.blocks[h].number == b.number + 1 then c.blocks[h].parentHash == b.hash
          else c.blocks[h].parentHash in c.blocks)
  }

  lemma WalkedDownFurther(c: Cache, d: Cache, world: Hash -> Block, b: Block, parent: Block)
    requires WellFormed(world) && Invariant(c, world) && b == world(b.hash) && WalkedDownTo(c, b)
    requires d.blocks == c.blocks[b.hash := b] && d.attached == c.attached
    requires parent.hash == b.parentHash && parent.number == b.number - 1
    ensures WalkedDownTo(d, parent)
  {
    forall h | h in Detached(d)
      ensures d.blocks[h].number > parent.number
      ensures if d.blocks[h].number == parent.number + 1 then d.blocks[h].parentHash == parent.hash
              else d.blocks[h].parentHash in d.blocks
    {
      if h != b.hash {
        assert h in Detached(c);
        assert ParentIsBelow(world, h);
      }
    }
  }

  /** Under the invariant, a cache whose detached blocks all have stored parents has no detached blocks. */
  lemma {:induction false} NoneDetached(c: Cache, world: Hash -> Block, h: Hash)
    requires WellFormed(world) && Invariant(c, world) && StoredParents(c) && h in Detached(c)
    ensures false
    decreases c.blocks[h].number - c.pruneHeight
  {
    var p := c.blocks[h].parentHash;
    assert c.blocks[h] == world(h);
    assert ParentIsBelow(world, h);
    assert c.blocks[h].number != c.pruneHeight;
    assert p in c.blocks && c.blocks[p] == world(p);
    NoneDetached(c, world, p);
  }

  lemma AddedMakesClean(c: Cache, d: Cache, world: Hash -> Block)
    requires WellFormed(world) && Invariant(d, world) && ParentsAttached(d) && StoredParents(d)
    ensures Clean(d)
  {
    if h :| h in Detached(d) {
      NoneDetached(d, world, h);
    }
  }

  lemma AnchoredInWalk(c: Cache, b: Block)
    requires WalkedDownTo(c, b)
    ensures Anchored(c, b)
  {
  }

  lemma NotYetStored(c: Cache, world: Hash -> Block, b: Block)
    requires Invariant(c, world) && b == world(b.hash) && WalkedDownTo(c, b)
    ensures b.hash !in Detached(c)
  {
    assert b.hash in c.blocks ==> c.blocks[b.hash] == b;
  }

  lemma NotLeftBehind(c: Cache, world: Hash -> Block, b: Block)
    requires WellFormed(world) && Invariant(c, world) && b == world(b.hash) && WalkedDownTo(c, b) && Detached(c) != {}
    requires exists h :: h in Detached(c) && c.blocks[h].number == b.number + 1
    ensures Outcome(c, b) == Added || Outcome(c, b) == AddedDetached
  {
    var h :| h in Detached(c) && c.blocks[h].number == b.number + 1;
    assert c.blocks[h].parentHash == b.hash;
    NotYetStored(c, world, b);
  }

  /** At `b` the walk either has just begun in a clean cache or has just left a detached child of `b` behind. */
  ghost predicate OnItsWay(c: Cache, b: Block) {
    && ParentsAttached(c) && WalkedDownTo(c, b)
    && (Detached(c) == {} || exists h :: h in Detached(c) && c.blocks[h].number == b.number + 1)
  }

  lemma StepOnItsWay(c: Cache, world: Hash -> Block, a: Answers, b: Block)
    requires Walkable(c, world, a, b) && OnItsWay(c, b)
    ensures var d := AddBlock(c, b);
      if !LeftDetached(Outcome(c, b)) then Clean(d)
      else match Fetched(d, a, b.parentHash)
           case None => ParentsAttached(d) && b.hash in Detached(d)
           case Some(parent) => OnItsWay(d, parent)
  {
    if Detached(c) != {} {
      NotLeftBehind(c, world, b);
    }
    match Outcome(c, b)
    case Added => AddedOnItsWay(c, world, b);
    case AddedDetached => StoredOnItsWay(c, world, a, b);
    case _ => NotYetStored(c, world, b);
  }

  lemma AddedOnItsWay(c: Cache, world: Hash -> Block, b: Block)
    requires WellFormed(world) && Invariant(c, world) && b == world(b.hash) && b.number >= 0
    requires OnItsWay(c, b) && Outcome(c, b) == Added
    ensures Clean(AddBlock(c, b))
  {
    hide AddBlock, Outcome;
    AnchoredInWalk(c, b);
    AddKeepsParents(c, world, b);
    AttachingKeeps(c, world, b);
    AddedMakesClean(c, AddBlock(c, b), world);
  }

  lemma StoredOnItsWay(c: Cache, world: Hash -> Block, a: Answers, b: Block)
    requires Walkable(c, world, a, b) && OnItsWay(c, b) && Outcome(c, b) == AddedDetached
    ensures var d := AddBlock(c, b);
      match Fetched(d, a, b.parentHash)
      case None => ParentsAttached(d) && b.hash in Detached(d)
      case Some(parent) => OnItsWay(d, parent)
  {
    StoringKeeps(c, world, b);
    StepBack(c, world, a, b);
    var d := AddBlock(c, b);
    hide AddBlock, AddEffect;
    StoringKeepsParents(c, d, world, b);
    match Fetched(d, a, b.parentHash)
    case None =>
    case Some(parent) => {
      WalkedDownFurther(c, d, world, b, parent);
      assert d.blocks[b.hash] == b;
    }
  }

  lemma StoringKeepsParents(c: Cache, d: Cache, world: Hash -> Block, b: Block)
    requires Invariant(c, world) && ParentsAttached(c) && d == Stored(c, b) && b.hash !in c.blocks
    ensures ParentsAttached(d) && b.hash in Detached(d)
  {
    forall h | h in d.attached && h in d.blocks && d.blocks[h].number > d.pruneHeight
      ensures d.blocks[h].parentHash in d.attached
    {
      assert h in c.attached && c.blocks[h] == d.blocks[h];
    }
  }

  lemma {:induction false} WalkOnItsWay(c: Cache, world: Hash -> Block, a: Answers, cur: Block)
    requires Walkable(c, world, a, cur) && OnItsWay(c, cur)
    ensures var w := Walked(c, world, a, cur);
      ParentsAttached(w.cache) && (w.done <==> Detached(w.cache) == {})
    decreases cur.number
  {
    hide AddBlock, Outcome, Invariant, WellFormed, OnItsWay, AddEffect, ParentsAttached, Detached;
    var d := AddBlock(c, cur);
    StepBack(c, world, a, cur);
    StepOnItsWay(c, world, a, cur);
    if LeftDetached(Outcome(c, cur)) && Fetched(d, a, cur.parentHash).Some? {
      WalkOnItsWay(d, world, a, Fetched(d, a, cur.parentHash).value);
    }
  }

  /**
   * A walk from a clean cache keeps parents attached, whether a request fails or not; it leaves no detached block
   * behind, and so a clean cache, if and only if none failed.
   */
  lemma WalkKeepsClean(c: Cache, world: Hash -> Block, a: Answers, cur: Block)
    requires Walkable(c, world, a, cur) && Clean(c)
    ensures var w := Walked(c, world, a, cur);
      ParentsAttached(w.cache) && (w.done <==> Clean(w.cache))
  {
    WalkOnItsWay(c, world, a, cur);
  }

  /** So when the loop finishes from a clean cache, the whole ancestry of the observed block is cached down to the
      minimum height, and each of its blocks was emitted as a new block before. */
  lemma {:induction false} FinishedWithItsAncestry(c: Cache, world: Hash -> Block, head: Option<Hash>, blockNumber: int,
                                                   rounds: seq<Answers>)
    requires Processable(c, world, rounds, blockNumber) && Clean(c)
    ensures match Processed(c, world, head, blockNumber, rounds)
      case Finished(d, b) => Clean(d) && Invariant(d, world) && (HasAttached(d, b.hash) ==> WholeAncestry(d, world, b))
      case _ => true
    decreases |rounds|
  {
    hide WellFormed, Invariant, Walked, Clean, WholeAncestry, WalkEffect;
    if rounds != [] && Target(c, head, blockNumber).Some? {
      var t := Target(c, head, blockNumber).value;
      assert Truthful(rounds[0], world);
      TargetIsWalkable(c, world, head, blockNumber, rounds[0]);
      if rounds[0].byNumber(t).Some? {
        var b := rounds[0].byNumber(t).value;
        var w := Walked(c, world, rounds[0], b);
        WalkAttaches(c, world, rounds[0], b);
        WalkKeepsClean(c, world, rounds[0], b);
        WalkParts(c, w, world, b);
        if w.done && t != blockNumber {
          FinishedWithItsAncestry(w.cache, world, head, blockNumber, rounds[1..]);
        } else if w.done && HasAttached(w.cache, b.hash) {
          AncestryWasEmitted(w.cache, world, b);
        }
      }
    }
  }

  lemma WalkParts(c: Cache, w: Walk, world: Hash -> Block, b: Block)
    requires WalkEffect(c, w, world, b)
    ensures Invariant(w.cache, world)
  {
  }

  ghost predicate WholeAncestry(c: Cache, world: Hash -> Block, b: Block) {
    && WellFormed(world) && Faithful(c.blocks, world) && b.hash in c.blocks
    && var chain := Ancestry(c, world, b.hash);
       && |chain| == b.number - MinHeight(c) + 1
       && forall i :: 0 <= i < |chain| ==> EmittedBefore(c.emitted, chain[i].hash, |c.emitted|)
  }

  lemma AncestryWasEmitted(c: Cache, world: Hash -> Block, b: Block)
    requires WellFormed(world) && Invariant(c, world) && Clean(c) && HasAttached(c, b.hash) && b == world(b.hash)
    ensures WholeAncestry(c, world, b)
  {
    hide WellFormed, Ancestry;
    InvariantIsFaithful(c, world);
    AncestryReachesMinHeight(c, world, b.hash);
    AncestryIsChain(c, world, b.hash);
    var chain := Ancestry(c, world, b.hash);
    forall i | 0 <= i < |chain| ensures EmittedBefore(c.emitted, chain[i].hash, |c.emitted|) {
      assert chain[0] == c.blocks[b.hash] == b;
      assert chain[i].hash in c.attached;
    }
  }

  // ---- A walk that fails half-way ----------------------------------------------------------------------

  /** A provider that knows exactly the blocks of `known`. */
  function Knowing(world: Hash -> Block, known: set<Hash>): Answers {
    Answers(_ => None, h => if h in known then Some(world(h)) else None)
  }

  /**
   * Three walks after which a block is attached without its parent: `a` opens the cache, the walk from `x` fails
   * because its parent cannot be fetched, and the walk from `b`, a sibling of that parent, attaches `x`.
   */
  lemma FailedWalkBreaksParents(world: Hash -> Block, maxDepth: nat, a: Block, x: Block, b: Block)
    requires WellFormed(world) && Fork(world, a, x, b) && maxDepth >= 2
    ensures var nobody := Knowing(world, {});
      && Walkable(EmptyCache(maxDepth), world, nobody, a)
      && var first := Walked(EmptyCache(maxDepth), world, nobody, a);
      && first.done && Clean(first.cache) && Walkable(first.cache, world, nobody, x)
      && var second := Walked(first.cache, world, nobody, x);
      && !second.done && Walkable(second.cache, world, nobody, b)
      && var third := Walked(second.cache, world, nobody, b);
      && third.done && x.hash in third.cache.attached && !ParentsAttached(third.cache)
  {
    hide AddBlock, WellFormed, Invariant;
    var e, nobody := EmptyCache(maxDepth), Knowing(world, {});
    EmptyInvariant(maxDepth, world);
    assert Truthful(nobody, world);
    FirstOfFork(world, maxDepth, a, x, b);
    var c1 := AddBlock(e, a);
    StepBack(e, world, nobody, a);
    WalkKeepsClean(e, world, nobody, a);
    StepBack(c1, world, nobody, x);
    var c2 := AddBlock(c1, x);
    StepBack(c2, world, nobody, b);
    ForkBreaksParents(world, maxDepth, a, x, b);
    RunOfThree(e, a, x, b);
  }

  lemma EmptyInvariant(maxDepth: nat, world: Hash -> Block)
    ensures Invariant(EmptyCache(maxDepth), world) && Clean(EmptyCache(maxDepth))
  {
  }

  lemma FirstOfFork(world: Hash -> Block, maxDepth: nat, a: Block, x: Block, b: Block)
    requires WellFormed(world) && Fork(world, a, x, b) && maxDepth >= 2
    ensures var e := EmptyCache(maxDepth);
      && var c1 := AddBlock(e, a);
      && var c2 := AddBlock(c1, x);
      && Outcome(e, a) == Added && Outcome(c1, x) == AddedDetached && Outcome(c2, b) == Added
      && x.parentHash !in c2.blocks
  {
    hide AddBlock;
    OpensWith(world, maxDepth, a);
    StoresOrphan(AddBlock(EmptyCache(maxDepth), a), world, a, x, b);
  }
}
