/** The block cache as an object that is updated in place, tied to the functions of `BlockCache`. */
module BlockCacheService {
  import opened Wrappers
  import opened BlockCache
  import opened BlockCacheTheorems
  import opened BlockCacheParents
  import opened BlockCacheAncestry

  class LiveCache {
    const maxDepth: nat
    var isEmpty: bool
    var pruneHeight: int
    var maxHeight: int
    var blocks: map<Hash, Block>
    var attached: set<Hash>
    var heights: map<int, seq<Hash>>
    var emitted: seq<Emission>
    var headHash: Option<Hash>

    function Contents(): Cache
      reads this
    {
      Cache(maxDepth, isEmpty, pruneHeight, maxHeight, blocks, attached, heights, emitted)
    }

    constructor (depth: nat)
      ensures Contents() == EmptyCache(depth) && headHash == None && maxDepth == depth
    {
      maxDepth := depth;
      isEmpty, pruneHeight, maxHeight := true, 0, 0;
      blocks, attached, heights, emitted := map[], {}, map[], [];
      headHash := None;
    }

    method DeleteItemsAtHeight(height: int)
      modifies this
      ensures Contents() == DeletedAt(old(Contents()), height) && headHash == old(headHash)
    {
      var gone := HashesAt(heights, height);
      blocks := blocks - Elements(gone);
      attached := attached - Elements(gone);
      heights := heights - {height};
    }

    method Prune()
      modifies this
      ensures Contents() == Pruned(old(Contents())) && headHash == old(headHash)
    {
      while pruneHeight < MinHeight(Contents())
        invariant Pruned(Contents()) == Pruned(old(Contents())) && headHash == old(headHash)
        decreases MinHeight(Contents()) - pruneHeight
      {
        DeleteItemsAtHeight(pruneHeight);
        pruneHeight := pruneHeight + 1;
      }
    }

    method UpdateMaxHeightAndPrune(newHeight: int)
      modifies this
      ensures Contents() == RaisedTo(old(Contents()), newHeight) && headHash == old(headHash)
    {
      if maxHeight < newHeight {
        maxHeight := newHeight;
        Prune();
      }
    }

    method SetBlock(b: Block)
      modifies this
      ensures Contents() == Stored(old(Contents()), b) && headHash == old(headHash)
    {
      blocks := blocks[b.hash := b];
      if b.hash !in HashesAt(heights, b.number) {
        heights := heights[b.number := HashesAt(heights, b.number) + [b.hash]];
      }
    }

    method AttachAndEmit(hash: Hash)
      requires hash in blocks
      modifies this
      ensures Contents() == AttachedOne(old(Contents()), hash) && headHash == old(headHash)
    {
      attached := attached + {hash};
      emitted := emitted + [Emission(blocks[hash], HasAttached(Contents(), blocks[hash].parentHash))];
    }

    method AttachEach(hashes: seq<Hash>)
      requires forall h :: h in hashes ==> h in blocks
      modifies this
      ensures Contents() == AttachedAll(old(Contents()), hashes) && headHash == old(headHash)
    {
      for i := 0 to |hashes|
        invariant blocks == old(blocks) && headHash == old(headHash)
        invariant AttachedAll(Contents(), hashes[i..]) == AttachedAll(old(Contents()), hashes)
      {
        assert hashes[i..][0] == hashes[i] && hashes[i..][1..] == hashes[i + 1..];
        AttachAndEmit(hashes[i]);
      }
    }

    method ProcessDetached(height: int)
      modifies this
      ensures Contents() == Swept(old(Contents()), height) && headHash == old(headHash)
      decreases Detached(Contents())
    {
      var blocksToAdd := DetachedAt(Contents(), height);
      AttachEach(blocksToAdd);
      if |blocksToAdd| > 0 {
        UpdateMaxHeightAndPrune(height);
        SweepShrinks(old(Contents()), height);
        ProcessDetached(height + 1);
      }
    }

    method ProcessDetachedBlocksAtMinHeight()
      modifies this
      ensures Contents() == SweptAtMinHeight(old(Contents())) && headHash == old(headHash)
    {
      var again := true;
      while again
        invariant headHash == old(headHash)
        invariant again ==> SweptAtMinHeight(Contents()) == SweptAtMinHeight(old(Contents()))
        invariant !again ==> Contents() == SweptAtMinHeight(old(Contents()))
        decreases again, Detached(Contents())
      {
        var prevMinHeight := MinHeight(Contents());
        SweptShrinks(Contents(), prevMinHeight);
        ProcessDetached(prevMinHeight);
        again := MinHeight(Contents()) > prevMinHeight;
      }
    }

    method AddBlock(b: Block) returns (result: AddResult)
      requires b.number >= 0 && (isEmpty ==> maxHeight == 0)
      modifies this
      ensures Contents() == BlockCache.AddBlock(old(Contents()), b) && result == Outcome(old(Contents()), b)
      ensures headHash == old(headHash)
    {
      hide Swept, SweptAtMinHeight, RaisedTo, AttachedOne;
      if b.hash in attached { return NotAddedAlreadyExisted; }
      if !isEmpty && b.number < MinHeight(Contents()) { return NotAddedBlockNumberTooLow; }
      if b.hash in blocks { return NotAddedAlreadyExistedDetached; }
      if isEmpty {
        pruneHeight := b.number;
        isEmpty := false;
      }
      var attachable := CanAttach(Contents(), b);
      SetBlock(b);
      if !attachable { return AddedDetached; }
      AttachAndEmit(b.hash);
      UpdateMaxHeightAndPrune(b.number);
      ProcessDetached(b.number + 1);
      ProcessDetachedBlocksAtMinHeight();
      return Added;
    }

    /** Sets the head, which must be attached. */
    method SetHead(hash: Hash) returns (ok: bool)
      modifies this`headHash
      ensures ok == HasAttached(Contents(), hash)
      ensures headHash == if ok then Some(hash) else old(headHash)
    {
      ok := HasAttached(Contents(), hash);
      if ok { headHash := Some(hash); }
    }

    /** The head block; `None` stands for the error of a head that is unset or pruned. */
    function Head(): (b: Option<Block>)
      reads this
    {
      if headHash.Some? && headHash.value in blocks then Some(blocks[headHash.value]) else None
    }

    /** Walks from a block to its cached ancestors until one satisfies `pred`. */
    method FindAncestor(ghost world: Hash -> Block, hash: Hash, pred: Block -> bool, minHeight: int)
      returns (found: Option<Block>)
      requires WellFormed(world) && Faithful(blocks, world) && hash in blocks
      ensures found == Nearest(Ancestry(Contents(), world, hash), pred, minHeight)
    {
      hide WellFormed, Faithful, Ancestry, Nearest;
      var cur := blocks[hash];
      ParentIsOneBelow(blocks, world, hash);
      while true
        invariant cur.hash in blocks && cur == blocks[cur.hash]
        invariant Nearest(Ancestry(Contents(), world, hash), pred, minHeight)
               == Nearest(Ancestry(Contents(), world, cur.hash), pred, minHeight)
        decreases cur.number
      {
        SearchStep(Contents(), world, cur.hash, pred, minHeight);
        ParentIsOneBelow(blocks, world, cur.hash);
        if cur.number < minHeight { return None; }
        if pred(cur) { return Some(cur); }
        if !HasAttached(Contents(), cur.parentHash) { return None; }
        ParentIsOneBelow(blocks, world, cur.parentHash);
        cur := blocks[cur.parentHash];
      }
    }

    /** The lowest cached ancestor, searched for as the nearest one whose parent is not attached. */
    method GetOldestAncestorInCache(ghost world: Hash -> Block, hash: Hash) returns (oldest: Option<Block>)
      requires WellFormed(world) && Invariant(Contents(), world)
      ensures Faithful(blocks, world)
      ensures oldest.None? <==> !HasAttached(Contents(), hash)
      ensures oldest.Some? ==> var chain := Ancestry(Contents(), world, hash); oldest.value == chain[|chain| - 1]
      ensures oldest.Some? && ParentsAttached(Contents()) ==> oldest.value.number == MinHeight(Contents())
    {
      hide Invariant, WellFormed, Faithful, Ancestry, Nearest, ParentsAttached;
      var c := Contents();
      InvariantIsFaithful(c, world);
      if !HasAttached(c, hash) { return None; }
      OldestIsLast(c, world, hash);
      if ParentsAttached(c) {
        AncestryReachesMinHeight(c, world, hash);
      }
      oldest := FindAncestor(world, hash, (b: Block) => !HasAttached(c, b.parentHash), 0);
    }
  }
}
