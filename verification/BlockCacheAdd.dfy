/** The invariant of the block cache over every call of `addBlock` and every run of them. */
module BlockCacheAdd {
  import opened Wrappers
  import opened BlockCache
  import opened BlockCacheTheorems

  // ---- The block itself --------------------------------------------------------------------------------

  /** The cache once `b` is stored, attached and emitted and the minimum height has followed, before any sweep. */
  function Attachment(c: Cache, b: Block): Cache {
    RaisedTo(AttachedOne(Stored(Opened(c, b), b), b.hash), b.number)
  }

  lemma OpenedKeeps(c: Cache, world: Hash -> Block, b: Block)
    requires Invariant(c, world) && b.number >= 0
    requires c.isEmpty || b.number >= MinHeight(c)
    ensures var o := Opened(c, b);
      && Structured(o, world) && Complete(o)
      && o.pruneHeight == MinHeight(o) <= b.number
      && o == c.(isEmpty := false, pruneHeight := if c.isEmpty then b.number else c.pruneHeight)
      && c.pruneHeight <= o.pruneHeight
  {
  }

  ghost predicate AttachmentEffect(c: Cache, d: Cache, b: Block) {
    && c.pruneHeight <= d.pruneHeight <= b.number && c.maxHeight <= d.maxHeight && c.maxDepth == d.maxDepth
    && (c.isEmpty ==> d.pruneHeight == b.number)
    && (forall h :: h in d.blocks <==> h == b.hash || (h in c.blocks && c.blocks[h].number >= d.pruneHeight))
    && (forall h :: h in d.attached <==> h in d.blocks && (h == b.hash || h in c.attached))
    && c.emitted <= d.emitted && |d.emitted| == |c.emitted| + 1
    && d.emitted[|c.emitted|].block == b
  }

  /** `b` was stored and emitted and nothing else has changed yet. */
  ghost predicate FreshEffect(c: Cache, a: Cache, b: Block) {
    && c.pruneHeight <= a.pruneHeight == MinHeight(a) <= b.number
    && a.pruneHeight == (if c.isEmpty then b.number else c.pruneHeight)
    && a.maxHeight == c.maxHeight && a.maxDepth == c.maxDepth
    && a.blocks == c.blocks[b.hash := b] && a.attached == c.attached + {b.hash}
    && c.emitted <= a.emitted && |a.emitted| == |c.emitted| + 1
    && a.emitted[|c.emitted|].block == b
  }

  lemma StoreAndAttach(c: Cache, world: Hash -> Block, b: Block)
    requires WellFormed(world) && Invariant(c, world) && b == world(b.hash) && b.number >= 0
    requires Outcome(c, b) == Added
    ensures var a := AttachedOne(Stored(Opened(c, b), b), b.hash);
      Structured(a, world) && FreshEffect(c, a, b)
  {
    var o := Opened(c, b);
    assert b.hash !in c.blocks && (c.isEmpty || b.number >= MinHeight(c));
    OpenedKeeps(c, world, b);
    hide Invariant, Opened, Outcome, Complete;
    StoredKeeps(o, world, b);
    AttachedOneKeeps(Stored(o, b), world, b.hash);
    hide Structured;
    FreshParts(c, o, b);
  }

  lemma FreshParts(c: Cache, o: Cache, b: Block)
    requires o == c.(isEmpty := false, pruneHeight := if c.isEmpty then b.number else c.pruneHeight)
    requires c.pruneHeight <= o.pruneHeight == MinHeight(o) <= b.number
    ensures FreshEffect(c, AttachedOne(Stored(o, b), b.hash), b)
  {
  }

  lemma HighestAfterFresh(c: Cache, world: Hash -> Block, a: Cache, b: Block)
    requires Invariant(c, world) && FreshEffect(c, a, b) && b.number >= 0
    ensures forall i :: 0 <= i < |a.emitted| ==> a.emitted[i].block.number <= Max(a.maxHeight, b.number)
    ensures exists i :: 0 <= i < |a.emitted| && a.emitted[i].block.number == Max(a.maxHeight, b.number)
    ensures PrunedUpToDate(a) && a.pruneHeight <= b.number
  {
    if c.isEmpty {
      assert a.emitted[0].block == b;
    } else {
      HighestAfterRound(c, a, b.number);
      assert a.emitted[0] == c.emitted[0];
    }
  }

  lemma FreshThenRaised(c: Cache, world: Hash -> Block, a: Cache, d: Cache, b: Block)
    requires Invariant(c, world) && FreshEffect(c, a, b) && RaiseEffect(a, d, b.number) && d.pruneHeight <= b.number
    requires Outcome(c, b) == Added
    ensures AttachmentEffect(c, d, b)
  {
  }

  lemma AttachmentKeeps(c: Cache, world: Hash -> Block, b: Block)
    requires WellFormed(world) && Invariant(c, world) && b == world(b.hash) && b.number >= 0
    requires Outcome(c, b) == Added
    ensures Structured(Attachment(c, b), world) && Settled(Attachment(c, b))
    ensures AttachmentEffect(c, Attachment(c, b), b) && Attachment(c, b).pruneHeight <= b.number
  {
    var a := AttachedOne(Stored(Opened(c, b), b), b.hash);
    StoreAndAttach(c, world, b);
    FreshIsRaised(c, world, a, b);
  }

  lemma FreshIsRaised(c: Cache, world: Hash -> Block, a: Cache, b: Block)
    requires WellFormed(world) && Invariant(c, world) && b.number >= 0 && Outcome(c, b) == Added
    requires Structured(a, world) && FreshEffect(c, a, b)
    ensures Structured(RaisedTo(a, b.number), world) && Settled(RaisedTo(a, b.number))
    ensures AttachmentEffect(c, RaisedTo(a, b.number), b) && RaisedTo(a, b.number).pruneHeight <= b.number
  {
    hide *;
    HighestAfterFresh(c, world, a, b);
    RaisedKeeps(a, world, b.number);
    FreshThenRaised(c, world, a, RaisedTo(a, b.number), b);
  }

  lemma AttachmentCompletes(c: Cache, world: Hash -> Block, b: Block, d: Cache)
    requires WellFormed(world) && Invariant(c, world) && b == world(b.hash)
    requires Structured(d, world) && AttachmentEffect(c, d, b) && Outcome(c, b) == Added
    ensures CompleteExcept(d, b.number + 1)
  {
    forall h | h in Detached(d) && d.blocks[h].number != b.number + 1 ensures d.blocks[h].parentHash !in d.attached {
      assert h in Detached(c) && d.blocks[h] == world(h);
      assert ParentIsBelow(world, h);
    }
  }

  // ---- The whole call ----------------------------------------------------------------------------------

  /** What a call changes: nothing is lost above the minimum height, and only `b` and detached blocks are emitted. */
  ghost predicate AddEffect(c: Cache, d: Cache, b: Block) {
    && Keeps(c, d)
    && (forall h :: h in d.blocks ==> h == b.hash || h in c.blocks)
    && (forall h :: h in Detached(d) ==> h == b.hash || h in Detached(c))
    && (forall i :: |c.emitted| <= i < |d.emitted| ==>
          d.emitted[i].block.hash == b.hash || d.emitted[i].block.hash in Detached(c))
  }

  lemma AttachThenSweep(c: Cache, x: Cache, d: Cache, b: Block, world: Hash -> Block, height: int)
    requires Invariant(c, world)
    requires AttachmentEffect(c, x, b) && Structured(x, world) && SweptFrom(x, d, world, height)
    requires height == d.pruneHeight && b == world(b.hash)
    ensures Invariant(d, world) && !d.isEmpty
    ensures AddEffect(c, d, b)
    ensures b.hash in d.attached || b.number < d.pruneHeight
  {
    forall h | h in c.blocks && c.blocks[h].number >= d.pruneHeight ensures h in d.blocks {
      assert h in x.blocks && x.blocks[h] == c.blocks[h];
    }
    forall i | |c.emitted| <= i < |d.emitted|
      ensures d.emitted[i].block.hash == b.hash || d.emitted[i].block.hash in Detached(c)
    {
      if i == |c.emitted| {
        assert d.emitted[i] == x.emitted[i];
      } else {
        assert d.emitted[i].block.hash in Detached(x);
      }
    }
    forall i | 0 <= i < |c.emitted| ensures c.emitted[i] == d.emitted[i] {
      assert c.emitted[i] == x.emitted[i];
    }
    assert x.blocks[b.hash] == b;
  }

  lemma FullSweep(x: Cache, world: Hash -> Block, height: int)
    requires WellFormed(world) && Structured(x, world) && Settled(x) && x.pruneHeight <= height
    requires CompleteExcept(x, height)
    ensures var d := SweptAtMinHeight(Swept(x, height));
      SweptFrom(x, d, world, d.pruneHeight)
  {
    var y := Swept(x, height);
    SweptKeeps(x, world, height);
    SweptAtMinHeightKeeps(y, world);
    SweptTwice(x, y, SweptAtMinHeight(y), world, height, SweptAtMinHeight(y).pruneHeight);
  }

  lemma AttachingKeeps(c: Cache, world: Hash -> Block, b: Block)
    requires WellFormed(world) && Invariant(c, world) && b == world(b.hash) && b.number >= 0
    requires Outcome(c, b) == Added
    ensures Invariant(AddBlock(c, b), world) && !AddBlock(c, b).isEmpty
    ensures AddEffect(c, AddBlock(c, b), b)
    ensures b.hash in AddBlock(c, b).attached || b.number < AddBlock(c, b).pruneHeight
  {
    hide *;
    var x := Attachment(c, b);
    var d := SweptAtMinHeight(Swept(x, b.number + 1));
    AttachmentKeeps(c, world, b);
    AttachmentCompletes(c, world, b, x);
    FullSweep(x, world, b.number + 1);
    AttachThenSweep(c, x, d, b, world, d.pruneHeight);
    AddBlockAttaches(c, b);
  }

  lemma AddBlockAttaches(c: Cache, b: Block)
    requires Outcome(c, b) == Added
    ensures AddBlock(c, b) == SweptAtMinHeight(Swept(Attachment(c, b), b.number + 1))
  {
    hide Swept, SweptAtMinHeight, RaisedTo;
  }

  lemma StoredDetached(c: Cache, b: Block)
    requires b.hash !in c.attached
    ensures var d := Stored(c, b);
      && Detached(d) == Detached(c) + {b.hash}
      && d == c.(blocks := c.blocks[b.hash := b], heights := d.heights)
  {
  }

  lemma StoredInvariant(c: Cache, d: Cache, world: Hash -> Block, b: Block)
    requires WellFormed(world) && Invariant(c, world) && !c.isEmpty && Structured(d, world)
    requires d == c.(blocks := c.blocks[b.hash := b], heights := d.heights)
    requires Detached(d) == Detached(c) + {b.hash}
    requires b.hash !in c.blocks && b.parentHash !in c.attached && b.number > MinHeight(c)
    ensures Invariant(d, world)
    ensures AddEffect(c, d, b)
  {
    forall h | h in Detached(d) ensures d.blocks[h].parentHash !in d.attached && d.blocks[h].number != d.pruneHeight {
      assert h == b.hash || h in Detached(c);
    }
  }

  lemma StoringKeeps(c: Cache, world: Hash -> Block, b: Block)
    requires WellFormed(world) && Invariant(c, world) && b == world(b.hash) && b.number >= 0
    requires Outcome(c, b) == AddedDetached
    ensures Invariant(AddBlock(c, b), world) && !AddBlock(c, b).isEmpty
    ensures AddEffect(c, AddBlock(c, b), b)
    ensures AddBlock(c, b) == Stored(c, b) && Detached(AddBlock(c, b)) == Detached(c) + {b.hash}
  {
    hide Attaching;
    StoredKeeps(c, world, b);
    StoredDetached(c, b);
    StoredInvariant(c, Stored(c, b), world, b);
  }

  /**
   * Every `addBlock` keeps the invariant: only heights from the minimum height on are stored, `maxHeight` is the
   * greatest height ever attached, no detached block is at the minimum height or has an attached parent, and exactly
   * the blocks that became attached were emitted, each once. Nothing at or above the minimum height is lost.
   */
  lemma AddBlockKeepsInvariant(c: Cache, world: Hash -> Block, b: Block)
    requires WellFormed(world) && Invariant(c, world) && b == world(b.hash) && b.number >= 0
    ensures Invariant(AddBlock(c, b), world)
    ensures AddEffect(c, AddBlock(c, b), b)
  {
    hide Attaching;
    match Outcome(c, b)
    case Added => AttachingKeeps(c, world, b);
    case AddedDetached => StoringKeeps(c, world, b);
    case _ =>
  }

  /** The lowest height at which a block can be added: that of the first block, or `maxDepth` below the greatest height. */
  ghost function Lowest(c: Cache): int
    requires c.emitted != []
  {
    if c.emitted[0].block.number >= c.maxHeight - c.maxDepth then c.emitted[0].block.number else c.maxHeight - c.maxDepth
  }

  /** What the result of a call says about the block and the cache before the call; only two of the results add it. */
  lemma OutcomeMeans(c: Cache, world: Hash -> Block, b: Block)
    requires Invariant(c, world) && b == world(b.hash) && b.number >= 0
    ensures Outcome(c, b) == NotAddedAlreadyExisted <==> b.hash in c.blocks && b.hash in c.attached
    ensures Outcome(c, b) == NotAddedAlreadyExistedDetached <==> b.hash in c.blocks && b.hash !in c.attached
    ensures Outcome(c, b) == NotAddedBlockNumberTooLow
      <==> b.hash !in c.blocks && c.emitted != [] && b.number < Lowest(c)
    ensures Outcome(c, b) == AddedDetached
      <==> b.hash !in c.blocks && c.emitted != [] && b.number > Lowest(c) && b.parentHash !in c.attached
    ensures Outcome(c, b) != Added && Outcome(c, b) != AddedDetached ==> AddBlock(c, b) == c
  {
    hide Attaching;
  }

  function AddAll(c: Cache, bs: seq<Block>): Cache
    decreases |bs|
  {
    if bs == [] then c else AddAll(AddBlock(c, bs[0]), bs[1..])
  }

  lemma {:induction false} EveryRunKeepsInvariant(c: Cache, world: Hash -> Block, bs: seq<Block>)
    requires WellFormed(world) && Invariant(c, world)
    requires forall i :: 0 <= i < |bs| ==> bs[i] == world(bs[i].hash) && bs[i].number >= 0
    ensures Invariant(AddAll(c, bs), world)
    ensures c.emitted <= AddAll(c, bs).emitted
    ensures c.maxHeight <= AddAll(c, bs).maxHeight && c.pruneHeight <= AddAll(c, bs).pruneHeight
    decreases |bs|
  {
    hide AddBlock;
    if bs != [] {
      var d := AddBlock(c, bs[0]);
      AddBlockKeepsInvariant(c, world, bs[0]);
      EveryRunKeepsInvariant(d, world, bs[1..]);
    }
  }

  /** Over a whole run: "new block" is emitted once for each block that became attached, never for one that is detached. */
  lemma NewBlockExactlyOnce(maxDepth: nat, world: Hash -> Block, bs: seq<Block>)
    requires WellFormed(world)
    requires forall i :: 0 <= i < |bs| ==> bs[i] == world(bs[i].hash) && bs[i].number >= 0
    ensures var c := AddAll(EmptyCache(maxDepth), bs);
      && (forall i, j :: 0 <= i < j < |c.emitted| ==> c.emitted[i].block.hash != c.emitted[j].block.hash)
      && (forall h :: h in c.attached ==> EmittedBefore(c.emitted, h, |c.emitted|))
      && (forall h :: h in Detached(c) ==> !EmittedBefore(c.emitted, h, |c.emitted|))
      && (forall i :: 0 <= i < |c.emitted| ==>
            c.emitted[i].parentCached ==> EmittedBefore(c.emitted, c.emitted[i].block.parentHash, i))
  {
    hide AddBlock;
    EveryRunKeepsInvariant(EmptyCache(maxDepth), world, bs);
    var c := AddAll(EmptyCache(maxDepth), bs);
    forall h | h in Detached(c) ensures !EmittedBefore(c.emitted, h, |c.emitted|) {
      forall i | 0 <= i < |c.emitted| ensures c.emitted[i].block.hash != h {
        assert c.emitted[i].block == world(c.emitted[i].block.hash);
      }
    }
  }
}
