/**
 * The block cache after a restart: it takes itself for empty although blocks are stored, so it opens again at the first
 * new block, and nothing that is stored below that block is ever pruned.
 */
module BlockCacheRestart {
  import opened Wrappers
  import opened BlockCache
  import opened BlockCacheTheorems
  import opened BlockCacheAdd
  import opened BlockCacheAncestry

  /** The stored blocks, their flags and the index come back, the index in any order; the heights start anew. */
  ghost predicate RestartOf(r: Cache, c: Cache) {
    && r == c.(isEmpty := true, pruneHeight := r.pruneHeight, maxHeight := 0, heights := r.heights)
    && Indexed(r.blocks, r.heights)
  }

  /** The height of the first block of the run that is not stored. */
  function ReopenedAt(r: Cache, bs: seq<Block>): Option<int>
    decreases |bs|
  {
    if bs == [] then None
    else if bs[0].hash !in r.blocks then Some(bs[0].number)
    else ReopenedAt(r, bs[1..])
  }

  /** Below `from` there are the blocks of `before`, and no others are below the next height to prune. */
  ghost predicate KeepsOld(d: Cache, before: map<Hash, Block>, world: Hash -> Block, from: int) {
    && from <= d.pruneHeight <= MinHeight(d)
    && Indexed(d.blocks, d.heights) && Faithful(d.blocks, world)
    && (forall h :: world(h).number < from ==> (h in d.blocks <==> h in before))
    && (forall h :: h in d.blocks ==> world(h).number < from || world(h).number >= d.pruneHeight)
  }

  ghost predicate Reopened(d: Cache, before: map<Hash, Block>, world: Hash -> Block, from: int) {
    !d.isEmpty && d.pruneHeight == MinHeight(d) && KeepsOld(d, before, world, from)
  }

  // ---- What the parts of a call keep -------------------------------------------------------------------

  lemma DeletingKeepsOld(d: Cache, before: map<Hash, Block>, world: Hash -> Block, from: int)
    requires KeepsOld(d, before, world, from) && d.pruneHeight < MinHeight(d)
    ensures KeepsOld(DeletedAt(d, d.pruneHeight).(pruneHeight := d.pruneHeight + 1), before, world, from)
  {
    var n := d.pruneHeight;
    var e := DeletedAt(d, n);
    forall m ensures HashesAt(e.heights, m) == if m == n then [] else HashesAt(d.heights, m) {}
    assert forall m :: NoDuplicates(HashesAt(d.heights, m));
    forall h ensures h in e.blocks <==> h in d.blocks && world(h).number != n {
      assert h in HashesAt(d.heights, n) <==> h in d.blocks && d.blocks[h].number == n;
    }
  }

  lemma {:induction false} PruningKeepsOld(d: Cache, before: map<Hash, Block>, world: Hash -> Block, from: int)
    requires KeepsOld(d, before, world, from) && !d.isEmpty
    ensures Reopened(Pruned(d), before, world, from)
    decreases MinHeight(d) - d.pruneHeight
  {
    hide KeepsOld, DeletedAt;
    if d.pruneHeight < MinHeight(d) {
      DeletingKeepsOld(d, before, world, from);
      DeletingKeepsHeights(d);
      PruningKeepsOld(DeletedAt(d, d.pruneHeight).(pruneHeight := d.pruneHeight + 1), before, world, from);
    } else {
      NotBelowMinHeight(d, before, world, from);
    }
  }

  lemma DeletingKeepsHeights(d: Cache)
    ensures var e := DeletedAt(d, d.pruneHeight);
      e.isEmpty == d.isEmpty && e.maxHeight == d.maxHeight && e.maxDepth == d.maxDepth
  {
  }

  lemma NotBelowMinHeight(d: Cache, before: map<Hash, Block>, world: Hash -> Block, from: int)
    requires KeepsOld(d, before, world, from)
    ensures d.pruneHeight <= MinHeight(d)
  {
  }

  lemma RaisingKeepsOld(d: Cache, before: map<Hash, Block>, world: Hash -> Block, from: int, height: int)
    requires Reopened(d, before, world, from)
    ensures Reopened(RaisedTo(d, height), before, world, from)
  {
    if d.maxHeight < height {
      PruningKeepsOld(d.(maxHeight := height), before, world, from);
    }
  }

  lemma RoundKeepsOld(d: Cache, before: map<Hash, Block>, world: Hash -> Block, from: int, height: int)
    requires Reopened(d, before, world, from)
    ensures Reopened(RaisedTo(AttachedAll(d, DetachedAt(d, height)), height), before, world, from)
  {
    AttachedAllEffect(d, DetachedAt(d, height));
    RaisingKeepsOld(AttachedAll(d, DetachedAt(d, height)), before, world, from, height);
  }

  lemma {:induction false} SweepKeepsOld(d: Cache, before: map<Hash, Block>, world: Hash -> Block, from: int, height: int)
    requires Reopened(d, before, world, from)
    ensures Reopened(Swept(d, height), before, world, from)
    decreases Detached(d)
  {
    hide Reopened, RaisedTo, AttachedAll;
    if DetachedAt(d, height) != [] {
      SweepShrinks(d, height);
      RoundKeepsOld(d, before, world, from, height);
      SweepKeepsOld(RaisedTo(AttachedAll(d, DetachedAt(d, height)), height), before, world, from, height + 1);
    }
  }

  lemma {:induction false} MinHeightSweepKeepsOld(d: Cache, before: map<Hash, Block>, world: Hash -> Block, from: int)
    requires Reopened(d, before, world, from)
    ensures Reopened(SweptAtMinHeight(d), before, world, from)
    decreases Detached(d)
  {
    hide Reopened, Swept;
    SweptShrinks(d, MinHeight(d));
    SweepKeepsOld(d, before, world, from, MinHeight(d));
    if MinHeight(Swept(d, MinHeight(d))) > MinHeight(d) {
      MinHeightSweepKeepsOld(Swept(d, MinHeight(d)), before, world, from);
    }
  }

  // ---- Calls and runs ----------------------------------------------------------------------------------

  lemma StoringKeepsOld(d: Cache, before: map<Hash, Block>, world: Hash -> Block, from: int, b: Block)
    requires Reopened(d, before, world, from) && b == world(b.hash) && b.hash !in d.blocks && b.number >= d.pruneHeight
    requires b.number >= 0
    ensures Reopened(Stored(d, b), before, world, from)
  {
    StoredIsIndexed(d.blocks, d.heights, b);
  }

  lemma MarkingKeepsOld(d: Cache, before: map<Hash, Block>, world: Hash -> Block, from: int, hash: Hash)
    requires Reopened(d, before, world, from) && hash in d.blocks
    ensures Reopened(AttachedOne(d, hash), before, world, from)
  {
    hide HasAttached;
  }

  lemma AttachingInParts(d: Cache, b: Block)
    ensures b.hash in Stored(d, b).blocks
    ensures Attaching(d, b)
      == SweptAtMinHeight(Swept(RaisedTo(AttachedOne(Stored(d, b), b.hash), b.number), b.number + 1))
  {
    hide Swept, SweptAtMinHeight, RaisedTo, AttachedOne;
  }

  lemma AttachingKeepsOld(d: Cache, before: map<Hash, Block>, world: Hash -> Block, from: int, b: Block)
    requires Reopened(Stored(d, b), before, world, from)
    ensures Reopened(Attaching(d, b), before, world, from)
  {
    hide *;
    AttachingInParts(d, b);
    MarkingKeepsOld(Stored(d, b), before, world, from, b.hash);
    var a := AttachedOne(Stored(d, b), b.hash);
    RaisingKeepsOld(a, before, world, from, b.number);
    SweepKeepsOld(RaisedTo(a, b.number), before, world, from, b.number + 1);
    MinHeightSweepKeepsOld(Swept(RaisedTo(a, b.number), b.number + 1), before, world, from);
  }

  lemma AddingKeepsOld(d: Cache, before: map<Hash, Block>, world: Hash -> Block, from: int, b: Block)
    requires Reopened(d, before, world, from) && b == world(b.hash) && b.number >= 0
    ensures Reopened(AddBlock(d, b), before, world, from)
  {
    hide Attaching, Stored;
    match Outcome(d, b)
    case Added => {
      StoringKeepsOld(d, before, world, from, b);
      AttachingKeepsOld(d, before, world, from, b);
    }
    case AddedDetached => StoringKeepsOld(d, before, world, from, b);
    case _ =>
  }

  lemma {:induction false} RunKeepsOld(d: Cache, before: map<Hash, Block>, world: Hash -> Block, from: int, bs: seq<Block>)
    requires Reopened(d, before, world, from)
    requires forall i :: 0 <= i < |bs| ==> bs[i] == world(bs[i].hash) && bs[i].number >= 0
    ensures Reopened(AddAll(d, bs), before, world, from)
    decreases |bs|
  {
    hide Reopened, AddBlock;
    if bs != [] {
      AddingKeepsOld(d, before, world, from, bs[0]);
      RunKeepsOld(AddBlock(d, bs[0]), before, world, from, bs[1..]);
    }
  }

  /** A block that is stored already leaves the cache as it is; the first new one opens it, whatever is stored. */
  lemma Reopens(c: Cache, r: Cache, world: Hash -> Block, b: Block)
    requires Invariant(c, world) && RestartOf(r, c) && b == world(b.hash) && b.number >= 0
    ensures b.hash in r.blocks ==> AddBlock(r, b) == r
    ensures b.hash !in r.blocks ==> Outcome(r, b) == Added && Reopened(AddBlock(r, b), r.blocks, world, b.number)
  {
    hide Attaching, Stored;
    assert r.attached <= r.blocks.Keys;
    InvariantIsFaithful(c, world);
    if b.hash !in r.blocks {
      assert Reopened(Opened(r, b), r.blocks, world, b.number);
      StoringKeepsOld(Opened(r, b), r.blocks, world, b.number, b);
      AttachingKeepsOld(Opened(r, b), r.blocks, world, b.number, b);
    }
  }

  /** So over every run after a restart the cache is as it was, or keeps all that is stored below where it reopened. */
  lemma {:induction false} RestartedRun(c: Cache, r: Cache, world: Hash -> Block, bs: seq<Block>)
    requires Invariant(c, world) && RestartOf(r, c)
    requires forall i :: 0 <= i < |bs| ==> bs[i] == world(bs[i].hash) && bs[i].number >= 0
    ensures match ReopenedAt(r, bs)
      case None => AddAll(r, bs) == r
      case Some(from) => Reopened(AddAll(r, bs), r.blocks, world, from)
    decreases |bs|
  {
    hide Reopened, AddBlock, Invariant, RestartOf;
    if bs != [] {
      Reopens(c, r, world, bs[0]);
      if bs[0].hash in r.blocks {
        RestartedRun(c, r, world, bs[1..]);
      } else {
        RunKeepsOld(AddBlock(r, bs[0]), r.blocks, world, bs[0].number, bs[1..]);
      }
    }
  }

  /** No stored block lies more than `maxDepth` below the greatest height. */
  ghost predicate DepthIsBounded(d: Cache) {
    forall h :: h in d.blocks ==> d.blocks[h].number >= d.maxHeight - d.maxDepth
  }

  /**
   * After a restart the depth of the cache is bounded, as documented, if and only if what was stored below the height at
   * which it reopened is still within the depth; and the invariant does not come back as long as anything was.
   */
  lemma DepthIsBoundedIff(c: Cache, r: Cache, world: Hash -> Block, bs: seq<Block>)
    requires Invariant(c, world) && RestartOf(r, c)
    requires forall i :: 0 <= i < |bs| ==> bs[i] == world(bs[i].hash) && bs[i].number >= 0
    requires ReopenedAt(r, bs).Some?
    ensures var (d, from) := (AddAll(r, bs), ReopenedAt(r, bs).value);
      && (DepthIsBounded(d) <==>
            forall h :: h in c.blocks && c.blocks[h].number < from ==> c.blocks[h].number >= d.maxHeight - d.maxDepth)
      && ((exists h :: h in c.blocks && c.blocks[h].number < from) ==> !Invariant(d, world))
  {
    RestartedRun(c, r, world, bs);
    InvariantIsFaithful(c, world);
    hide AddAll, ReopenedAt;
    BoundedIff(AddAll(r, bs), c.blocks, world, ReopenedAt(r, bs).value);
  }

  lemma BoundedIff(d: Cache, before: map<Hash, Block>, world: Hash -> Block, from: int)
    requires Reopened(d, before, world, from) && Faithful(before, world)
    ensures DepthIsBounded(d) <==>
      forall h :: h in before && before[h].number < from ==> before[h].number >= d.maxHeight - d.maxDepth
    ensures (exists h :: h in before && before[h].number < from) ==> !Invariant(d, world)
  {
    forall h | h in d.blocks && world(h).number >= from ensures d.blocks[h].number >= d.maxHeight - d.maxDepth {}
    if h :| h in before && before[h].number < from {
      assert h in d.blocks;
    }
  }
}
