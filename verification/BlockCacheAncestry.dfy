/** The chain of cached ancestors of a block, and searches along it. */
module BlockCacheAncestry {
  import opened Wrappers
  import opened BlockCache
  import opened BlockCacheTheorems
  import opened BlockCacheParents

  /** Every stored block is the one its hash determines. */
  ghost predicate Faithful(blocks: map<Hash, Block>, world: Hash -> Block) {
    forall h :: h in blocks ==> blocks[h] == world(h) && world(h).number >= 0
  }

  lemma InvariantIsFaithful(c: Cache, world: Hash -> Block)
    requires Invariant(c, world)
    ensures Faithful(c.blocks, world)
  {
  }

  lemma ParentIsOneBelow(blocks: map<Hash, Block>, world: Hash -> Block, hash: Hash)
    requires WellFormed(world) && Faithful(blocks, world) && hash in blocks
    ensures blocks[hash].hash == hash && blocks[hash].number >= 0
    ensures blocks[hash].parentHash in blocks ==> blocks[blocks[hash].parentHash].number == blocks[hash].number - 1
  {
    assert ParentIsBelow(world, hash);
  }

  /** The block, its parent, and so on, for as long as the parent is attached. */
  function Ancestry(c: Cache, ghost world: Hash -> Block, hash: Hash): (chain: seq<Block>)
    requires WellFormed(world) && Faithful(c.blocks, world) && hash in c.blocks
    ensures |chain| > 0 && chain[0] == c.blocks[hash]
    decreases c.blocks[hash].number
  {
    var b := c.blocks[hash];
    ParentIsOneBelow(c.blocks, world, hash);
    if HasAttached(c, b.parentHash) then [b] + Ancestry(c, world, b.parentHash)
    else [b]
  }

  /** Each block is the parent of the one before it, and they are numbered downwards. */
  ghost predicate Chained(chain: seq<Block>) {
    && (forall i :: 0 <= i < |chain| ==> chain[i].number == chain[0].number - i)
    && (forall i {:trigger chain[i].parentHash} :: 0 <= i < |chain| - 1 ==> chain[i + 1].hash == chain[i].parentHash)
  }

  lemma {:induction false} AncestryIsChain(c: Cache, world: Hash -> Block, hash: Hash)
    requires WellFormed(world) && Faithful(c.blocks, world) && hash in c.blocks
    ensures var chain := Ancestry(c, world, hash);
      && Chained(chain)
      && (forall i :: 0 <= i < |chain| ==> chain[i].hash in c.blocks && c.blocks[chain[i].hash] == chain[i])
      && (forall i :: 1 <= i < |chain| ==> chain[i].hash in c.attached)
      && !HasAttached(c, chain[|chain| - 1].parentHash)
    decreases c.blocks[hash].number
  {
    ParentIsOneBelow(c.blocks, world, hash);
    hide WellFormed, Faithful;
    var b := c.blocks[hash];
    if HasAttached(c, b.parentHash) {
      AncestryIsChain(c, world, b.parentHash);
      var rest := Ancestry(c, world, b.parentHash);
      var chain := [b] + rest;
      forall i | 0 <= i < |chain| - 1 ensures chain[i + 1].hash == chain[i].parentHash {
        if i > 0 {
          assert chain[i] == rest[i - 1] && chain[i + 1] == rest[i];
          assert rest[i - 1].parentHash == rest[i].hash;
        }
      }
    }
  }

  /** When parents are attached, the ancestry of an attached block goes all the way down to the minimum height. */
  lemma AncestryReachesMinHeight(c: Cache, world: Hash -> Block, hash: Hash)
    requires WellFormed(world) && Invariant(c, world) && ParentsAttached(c) && hash in c.attached
    ensures Faithful(c.blocks, world) && hash in c.blocks
    ensures var chain := Ancestry(c, world, hash);
      |chain| == c.blocks[hash].number - MinHeight(c) + 1 && chain[|chain| - 1].number == MinHeight(c)
  {
    hide Invariant, Ancestry, WellFormed, Faithful;
    InvariantIsFaithful(c, world);
    LowestParts(c, world);
    ParentIsOneBelow(c.blocks, world, hash);
    AncestryIsChain(c, world, hash);
    var chain := Ancestry(c, world, hash);
    var last := chain[|chain| - 1];
    assert last.hash in c.attached;
  }

  lemma LowestParts(c: Cache, world: Hash -> Block)
    requires Invariant(c, world)
    ensures forall h :: h in c.attached ==> h in c.blocks && c.blocks[h].number >= MinHeight(c) >= c.pruneHeight
  {
  }

  // ---- Searching ---------------------------------------------------------------------------------------

  /** The first block of a chain that satisfies `pred`, giving up at the first one below `minHeight`. */
  function Nearest(chain: seq<Block>, pred: Block -> bool, minHeight: int): Option<Block>
    decreases |chain|
  {
    if chain == [] || chain[0].number < minHeight then None
    else if pred(chain[0]) then Some(chain[0])
    else Nearest(chain[1..], pred, minHeight)
  }

  lemma {:induction false} NearestIsNearest(chain: seq<Block>, pred: Block -> bool, minHeight: int)
    requires Chained(chain)
    ensures match Nearest(chain, pred, minHeight)
      case None => forall i :: 0 <= i < |chain| && chain[i].number >= minHeight ==> !pred(chain[i])
      case Some(b) => exists i :: 0 <= i < |chain| && chain[i] == b && pred(b) && b.number >= minHeight
                        && forall j :: 0 <= j < i ==> !pred(chain[j])
    decreases |chain|
  {
    if chain != [] && chain[0].number >= minHeight && !pred(chain[0]) {
      var rest := chain[1..];
      forall i | 0 <= i < |rest| - 1 ensures rest[i + 1].hash == rest[i].parentHash {
        assert chain[i + 1].parentHash == chain[i + 2].hash;
      }
      NearestIsNearest(rest, pred, minHeight);
      match Nearest(chain, pred, minHeight)
      case None => {
        forall i | 0 <= i < |chain| && chain[i].number >= minHeight ensures !pred(chain[i]) {
          if i > 0 { assert chain[i] == rest[i - 1]; }
        }
      }
      case Some(b) => {
        var i :| 0 <= i < |rest| && rest[i] == b && forall j :: 0 <= j < i ==> !pred(rest[j]);
        assert chain[i + 1] == b;
        forall j | 0 <= j < i + 1 ensures !pred(chain[j]) {
          if j > 0 { assert chain[j] == rest[j - 1]; }
        }
      }
    }
  }

  /** One step of a search along an ancestry. */
  lemma SearchStep(c: Cache, world: Hash -> Block, hash: Hash, pred: Block -> bool, minHeight: int)
    requires WellFormed(world) && Faithful(c.blocks, world) && hash in c.blocks
    ensures var b := c.blocks[hash];
      Nearest(Ancestry(c, world, hash), pred, minHeight)
      == if b.number < minHeight then None
         else if pred(b) then Some(b)
         else if HasAttached(c, b.parentHash) then Nearest(Ancestry(c, world, b.parentHash), pred, minHeight)
         else None
  {
    ParentIsOneBelow(c.blocks, world, hash);
    hide WellFormed, Faithful;
    var b := c.blocks[hash];
    var chain := Ancestry(c, world, hash);
    if HasAttached(c, b.parentHash) {
      assert chain[1..] == Ancestry(c, world, b.parentHash);
    } else {
      assert chain[1..] == [];
    }
  }

  /** Searching for a block whose parent is not attached finds the last block of the ancestry. */
  lemma OldestIsLast(c: Cache, world: Hash -> Block, hash: Hash)
    requires WellFormed(world) && Faithful(c.blocks, world) && hash in c.blocks
    ensures var chain := Ancestry(c, world, hash);
      Nearest(chain, (b: Block) => !HasAttached(c, b.parentHash), 0) == Some(chain[|chain| - 1])
    decreases c.blocks[hash].number
  {
    ParentIsOneBelow(c.blocks, world, hash);
    hide WellFormed, Faithful;
    var b := c.blocks[hash];
    if HasAttached(c, b.parentHash) {
      OldestIsLast(c, world, b.parentHash);
      assert Ancestry(c, world, hash)[1..] == Ancestry(c, world, b.parentHash);
    }
  }

  /** The confirmations of a transaction seen from a head: 0 if no cached ancestor holds it. */
  function Confirmations(chain: seq<Block>, holds: Block -> bool): int
    requires chain != []
  {
    match Nearest(chain, holds, 0)
    case None => 0
    case Some(b) => chain[0].number - b.number + 1
  }

  /** With `k` confirmations the transaction stands in the k-th block of the chain, counted from the head. */
  lemma ConfirmationsCountBlocks(chain: seq<Block>, holds: Block -> bool)
    requires chain != [] && Chained(chain) && forall i :: 0 <= i < |chain| ==> chain[i].number >= 0
    ensures var k := Confirmations(chain, holds);
      && 0 <= k <= |chain|
      && (k > 0 ==> holds(chain[k - 1]) && forall i :: 0 <= i < k - 1 ==> !holds(chain[i]))
      && (k == 0 ==> forall i :: 0 <= i < |chain| ==> !holds(chain[i]))
  {
    NearestIsNearest(chain, holds, 0);
  }
}
