/**
 * Whether an attached block above the minimum height has an attached parent, as the cache documents.
 *
 * Sweeping a height attaches every detached block there without looking at parents, so this is not always so. The
 * lemmas below say exactly when one sweep keeps it, and show a run in which it breaks; `BlockCacheRule` says exactly
 * when adding a block keeps it.
 */
module BlockCacheParents {
  import opened Wrappers
  import opened BlockCache
  import opened BlockCacheTheorems
  import opened BlockCacheAdd

  ghost predicate ParentsAttached(c: Cache) {
    forall h {:trigger h in c.attached} :: h in c.attached && h in c.blocks && c.blocks[h].number > c.pruneHeight ==>
      c.blocks[h].parentHash in c.attached
  }

  // ---- Which blocks a sweep takes ----------------------------------------------------------------------

  ghost predicate SomeDetachedAt(c: Cache, height: int) {
    exists h :: h in Detached(c) && c.blocks[h].number == height
  }

  ghost function DetachedFrom(c: Cache, height: int): set<Hash> {
    set h | h in Detached(c) && c.blocks[h].number >= height
  }

  /** The first height from `height` on without a detached block. */
  ghost function Stop(c: Cache, height: int): (s: int)
    ensures height <= s
    decreases DetachedFrom(c, height)
  {
    if SomeDetachedAt(c, height) then
      var h :| h in Detached(c) && c.blocks[h].number == height;
      assert h in DetachedFrom(c, height) && h !in DetachedFrom(c, height + 1);
      Stop(c, height + 1)
    else height
  }

  /** The blocks that a sweep from `height` attaches: the detached ones of the heights before the first gap. */
  ghost predicate Taken(c: Cache, height: int, h: Hash) {
    h in Detached(c) && height <= c.blocks[h].number < Stop(c, height)
  }

  lemma {:induction false} StopDependsOnDetached(c: Cache, d: Cache, height: int)
    requires forall n :: n >= height ==> SomeDetachedAt(c, n) == SomeDetachedAt(d, n)
    ensures Stop(c, height) == Stop(d, height)
    decreases DetachedFrom(c, height)
  {
    if SomeDetachedAt(c, height) {
      assert SomeDetachedAt(d, height);
      var h :| h in Detached(c) && c.blocks[h].number == height;
      assert h in DetachedFrom(c, height) && h !in DetachedFrom(c, height + 1);
      StopDependsOnDetached(c, d, height + 1);
    }
  }

  lemma RoundLeavesHigherDetached(c: Cache, world: Hash -> Block, height: int)
    requires WellFormed(world) && Structured(c, world) && Settled(c)
    requires c.pruneHeight <= height && DetachedAt(c, height) != []
    ensures var d := Round(c, height);
      && RoundEffect(c, d, height) && d.pruneHeight <= height
      && (forall n :: n >= height + 1 ==> SomeDetachedAt(c, n) == SomeDetachedAt(d, n))
      && (forall h :: h in d.blocks ==> d.blocks[h] == c.blocks[h])
  {
    hide Round;
    RoundStructured(c, world, height);
    var d := Round(c, height);
    assert forall h :: h in d.blocks ==> d.blocks[h] == world(h) == c.blocks[h];
    forall n | n >= height + 1 ensures SomeDetachedAt(c, n) == SomeDetachedAt(d, n) {
      if SomeDetachedAt(c, n) {
        var h :| h in Detached(c) && c.blocks[h].number == n;
        assert h in Detached(d);
      }
      if SomeDetachedAt(d, n) {
        var h :| h in Detached(d) && d.blocks[h].number == n;
        assert h in Detached(c);
      }
    }
  }

  /**
   * What a sweep from `height` makes of `c`: only pruning removes blocks, only taken blocks become attached, and the
   * greatest height is the last before the gap.
   */
  ghost predicate Took(c: Cache, d: Cache, height: int) {
    && c.pruneHeight <= d.pruneHeight && c.maxDepth == d.maxDepth
    && (height <= c.maxHeight + 1 ==> d.maxHeight == Max(c.maxHeight, Stop(c, height) - 1))
    && (forall h :: h in d.blocks <==> h in c.blocks && c.blocks[h].number >= d.pruneHeight)
    && (forall h :: h in d.attached <==> h in d.blocks && (h in c.attached || Taken(c, height, h)))
  }

  lemma {:induction false} SweepTakes(c: Cache, world: Hash -> Block, height: int)
    requires WellFormed(world) && Structured(c, world) && Settled(c)
    requires c.pruneHeight <= height && CompleteExcept(c, height)
    ensures Took(c, Swept(c, height), height)
    decreases Detached(c)
  {
    hide *;
    DetachedAtIff(c, world, height);
    if DetachedAt(c, height) != [] {
      var next := Round(c, height);
      RoundIsStep(c, height);
      RoundRaises(c, height);
      RoundKeeps(c, world, height);
      RoundLeavesHigherDetached(c, world, height);
      StopDependsOnDetached(c, next, height + 1);
      SweepTakes(next, world, height + 1);
      AttachedAreStored(c, world);
      TakenInRounds(c, next, Swept(next, height + 1), height);
    } else {
      NothingTaken(c, world, height);
    }
  }

  lemma DetachedAtIff(c: Cache, world: Hash -> Block, height: int)
    requires Structured(c, world)
    ensures DetachedAt(c, height) != [] <==> SomeDetachedAt(c, height)
  {
    DetachedAtHeight(c, world, height);
    if DetachedAt(c, height) != [] {
      assert DetachedAt(c, height)[0] in DetachedAt(c, height);
    }
  }

  lemma AttachedAreStored(c: Cache, world: Hash -> Block)
    requires Structured(c, world)
    ensures c.attached <= c.blocks.Keys
  {
  }

  lemma NothingTaken(c: Cache, world: Hash -> Block, height: int)
    requires Structured(c, world) && DetachedAt(c, height) == [] && !SomeDetachedAt(c, height)
    ensures Took(c, Swept(c, height), height)
  {
    assert Swept(c, height) == c;
    assert Stop(c, height) == height;
  }

  lemma RoundIsStep(c: Cache, height: int)
    requires DetachedAt(c, height) != []
    ensures Detached(Round(c, height)) < Detached(c)
    ensures Swept(c, height) == Swept(Round(c, height), height + 1)
  {
    SweepShrinks(c, height);
  }

  lemma RoundRaises(c: Cache, height: int)
    requires DetachedAt(c, height) != []
    ensures Round(c, height).maxHeight == Max(c.maxHeight, height)
  {
    var a := AttachedAll(c, DetachedAt(c, height));
    AttachedAllEffect(c, DetachedAt(c, height));
    if a.maxHeight < height {
      PrunedShrinks(a.(maxHeight := height));
    }
  }

  lemma TakenInRounds(c: Cache, next: Cache, d: Cache, height: int)
    requires RoundEffect(c, next, height) && SomeDetachedAt(c, height) && Stop(c, height + 1) == Stop(next, height + 1)
    requires forall h :: h in next.blocks ==> next.blocks[h] == c.blocks[h]
    requires Took(next, d, height + 1) && c.attached <= c.blocks.Keys && next.maxHeight == Max(c.maxHeight, height)
    ensures Took(c, d, height)
  {
    forall h | h in d.blocks ensures h in d.attached <==> h in c.attached || Taken(c, height, h) {
      assert h in Detached(next) <==> h in Detached(c) && c.blocks[h].number != height;
    }
  }

  // ---- When a sweep keeps parents attached -------------------------------------------------------------

  /** A taken block's parent is attached already or, above the height where the sweep starts, at least stored. */
  ghost predicate Linked(c: Cache, height: int, h: Hash)
    requires h in c.blocks
  {
    if c.blocks[h].number == height then c.blocks[h].parentHash in c.attached else c.blocks[h].parentHash in c.blocks
  }

  /** A sweep leaves parents attached exactly if the blocks it takes, above the new minimum height, are linked. */
  lemma SweepKeepsParentsIff(c: Cache, world: Hash -> Block, height: int)
    requires WellFormed(world) && Structured(c, world) && Settled(c)
    requires c.pruneHeight <= height && CompleteExcept(c, height) && ParentsAttached(c)
    ensures var d := Swept(c, height);
      ParentsAttached(d) <==>
        forall h {:trigger Linked(c, height, h)} :: Taken(c, height, h) && c.blocks[h].number > d.pruneHeight ==> Linked(c, height, h)
  {
    hide Swept, Stop;
    SweptKeeps(c, world, height);
    SweepTakes(c, world, height);
    var d := Swept(c, height);
    if ParentsAttached(d) {
      forall h | Taken(c, height, h) && c.blocks[h].number > d.pruneHeight ensures Linked(c, height, h) {
        assert h in d.attached && d.blocks[h] == world(h) == c.blocks[h];
        var p := world(h).parentHash;
        assert p in d.attached && ParentIsBelow(world, h);
        assert c.blocks[p] == world(p);
      }
    }
    if forall h {:trigger Linked(c, height, h)} :: Taken(c, height, h) && c.blocks[h].number > d.pruneHeight ==> Linked(c, height, h) {
      forall h | h in d.attached && h in d.blocks && d.blocks[h].number > d.pruneHeight
        ensures d.blocks[h].parentHash in d.attached
      {
        assert d.blocks[h] == world(h) == c.blocks[h];
        var p := world(h).parentHash;
        assert ParentIsBelow(world, h);
        if h in c.attached {
          assert p in c.attached;
        } else {
          assert Linked(c, height, h);
        }
        assert p in c.blocks && c.blocks[p] == world(p);
        assert p in c.attached || Taken(c, height, p);
      }
    }
  }

  lemma SweptParts(c: Cache, d: Cache, world: Hash -> Block, height: int)
    requires SweptFrom(c, d, world, height)
    ensures Structured(d, world) && Settled(d) && Complete(d)
  {
  }

  // ---- When it breaks ----------------------------------------------------------------------------------

  lemma NothingLeftAbove(y: Cache, d: Cache, world: Hash -> Block, height: int, k: int, h: Hash)
    requires Structured(y, world) && NoneDetachedAt(y, height) && SweptFrom(y, d, world, k)
    requires world(h).number == height
    ensures h !in Detached(d)
  {
    assert h in y.blocks ==> y.blocks[h] == world(h);
  }

  lemma SweptClears(c: Cache, d: Cache, world: Hash -> Block, height: int)
    requires SweptFrom(c, d, world, height)
    ensures NoneDetachedAt(d, height)
  {
  }

  lemma NotDetachedAbove(c: Cache, world: Hash -> Block, b: Block, h: Hash)
    requires WellFormed(world) && Invariant(c, world) && b == world(b.hash) && b.number >= 0
    requires Outcome(c, b) == Added && world(h).number == b.number + 1
    ensures h !in Detached(AddBlock(c, b))
  {
    hide *;
    var x := Attachment(c, b);
    var y := Swept(x, b.number + 1);
    AddBlockAttaches(c, b);
    AttachmentKeeps(c, world, b);
    AttachmentCompletes(c, world, b, x);
    SweptKeeps(x, world, b.number + 1);
    SweptParts(x, y, world, b.number + 1);
    SweptClears(x, y, world, b.number + 1);
    SweptAtMinHeightKeeps(y, world);
    NothingLeftAbove(y, SweptAtMinHeight(y), world, b.number + 1, SweptAtMinHeight(y).pruneHeight, h);
  }

  /** Adding an attachable block attaches every detached block directly above it, whoever its parent is. */
  lemma AttachesWhateverIsAbove(c: Cache, world: Hash -> Block, b: Block, h: Hash)
    requires WellFormed(world) && Invariant(c, world) && b == world(b.hash) && b.number >= 0
    requires Outcome(c, b) == Added && h in c.blocks && c.blocks[h].number == b.number + 1
    ensures h in AddBlock(c, b).attached || b.number + 1 < AddBlock(c, b).pruneHeight
  {
    hide AddBlock, Outcome;
    assert c.blocks[h] == world(h);
    NotDetachedAbove(c, world, b, h);
    AttachingKeeps(c, world, b);
  }

  /** So a detached block directly above an attachable one, with an unknown parent, is attached without its parent. */
  lemma StrangerBreaksParents(c: Cache, world: Hash -> Block, b: Block, h: Hash)
    requires WellFormed(world) && Invariant(c, world) && b == world(b.hash) && b.number >= 0
    requires Outcome(c, b) == Added && h in Detached(c) && c.blocks[h].number == b.number + 1
    requires c.blocks[h].parentHash !in c.blocks && c.blocks[h].parentHash != b.hash
    requires b.number + 1 > AddBlock(c, b).pruneHeight
    ensures !ParentsAttached(AddBlock(c, b))
  {
    AttachesWhateverIsAbove(c, world, b, h);
    AttachingKeeps(c, world, b);
    hide AddBlock, Outcome;
    var d := AddBlock(c, b);
    assert h in d.attached && d.blocks[h] == world(h) == c.blocks[h];
    assert d.blocks[h].parentHash !in d.blocks;
  }

  // ---- A run in which it breaks ------------------------------------------------------------------------

  /**
   * A world of blocks with forks: a block's hash spells its path from a root, one letter for each block; hashes that
   * begin with a dash are the blocks below the root.
   */
  function Tree(h: Hash): Block {
    if h != "" && h[0] == '-' then Block(h, 0 - |h|, "-" + h)
    else if h == "" then Block(h, 0, "-")
    else Block(h, |h|, h[..|h| - 1])
  }

  lemma TreeIsWellFormed()
    ensures WellFormed(Tree)
  {
    forall h: Hash ensures ParentIsBelow(Tree, h) {
      if h != "" && h[0] != '-' && |h| > 1 {
        assert h[..|h| - 1][0] == h[0];
      }
    }
  }

  /** `x` stands two above `a`, its parent is unknown, and `b`, a child of `a`, is neither. */
  ghost predicate Fork(world: Hash -> Block, a: Block, x: Block, b: Block) {
    && a == world(a.hash) && x == world(x.hash) && b == world(b.hash)
    && 0 <= a.number && b.number == a.number + 1 && x.number == a.number + 2
    && b.parentHash == a.hash && x.parentHash != b.hash && x.parentHash != a.hash && x.parentHash != x.hash
  }

  /** `a` opened the cache and is its only attached block so far. */
  ghost predicate Holds(c: Cache, world: Hash -> Block, a: Block, blocks: map<Hash, Block>) {
    && Invariant(c, world) && !c.isEmpty
    && c.attached == {a.hash} && c.blocks == blocks
    && c.pruneHeight == c.maxHeight == a.number && c.emitted != [] && c.emitted[0].block == a
    && forall i :: 0 <= i < |c.emitted| ==> c.emitted[i].block == a
  }

  lemma OpensWith(world: Hash -> Block, maxDepth: nat, a: Block)
    requires WellFormed(world) && a == world(a.hash) && a.number >= 0
    ensures Holds(AddBlock(EmptyCache(maxDepth), a), world, a, map[a.hash := a])
    ensures AddBlock(EmptyCache(maxDepth), a).maxDepth == maxDepth
  {
    hide AddBlock;
    var e := EmptyCache(maxDepth);
    AttachingKeeps(e, world, a);
    OnlyOne(e, AddBlock(e, a), world, a);
  }

  lemma OnlyOne(e: Cache, c: Cache, world: Hash -> Block, a: Block)
    requires e == EmptyCache(e.maxDepth) && a == world(a.hash)
    requires Invariant(c, world) && !c.isEmpty && AddEffect(e, c, a)
    ensures Holds(c, world, a, map[a.hash := a]) && c.maxDepth == e.maxDepth
  {
    forall i | 0 <= i < |c.emitted| ensures c.emitted[i].block == a {
      assert c.emitted[i].block == world(c.emitted[i].block.hash);
    }
    var i :| 0 <= i < |c.emitted| && c.emitted[i].block.number == c.maxHeight;
    assert a.hash in c.attached;
    assert c.blocks.Keys == {a.hash};
  }

  lemma StoresOrphan(c: Cache, world: Hash -> Block, a: Block, x: Block, b: Block)
    requires WellFormed(world) && Fork(world, a, x, b) && Holds(c, world, a, map[a.hash := a])
    ensures Holds(AddBlock(c, x), world, a, map[a.hash := a, x.hash := x])
    ensures AddBlock(c, x).maxDepth == c.maxDepth
  {
    assert Outcome(c, x) == AddedDetached;
    hide AddBlock, Outcome;
    StoringKeeps(c, world, x);
  }

  lemma AttachesOrphan(c: Cache, world: Hash -> Block, a: Block, x: Block, b: Block)
    requires WellFormed(world) && Fork(world, a, x, b) && Holds(c, world, a, map[a.hash := a, x.hash := x])
    requires c.maxDepth >= 2
    ensures var d := AddBlock(c, b);
      Invariant(d, world) && x.hash in d.attached && x.parentHash !in d.blocks && !ParentsAttached(d)
  {
    assert Outcome(c, b) == Added;
    hide AddBlock, Outcome;
    AttachingKeeps(c, world, b);
    LowAfterFork(c, AddBlock(c, b), world, a, x, b);
    AttachesWhateverIsAbove(c, world, b, x.hash);
    StrangerBreaksParents(c, world, b, x.hash);
  }

  lemma LowAfterFork(c: Cache, d: Cache, world: Hash -> Block, a: Block, x: Block, b: Block)
    requires Fork(world, a, x, b) && Holds(c, world, a, map[a.hash := a, x.hash := x]) && c.maxDepth >= 2
    requires Invariant(d, world) && !d.isEmpty && AddEffect(c, d, b)
    ensures d.pruneHeight == a.number
  {
    forall i | 0 <= i < |d.emitted| ensures d.emitted[i].block.number <= a.number + 2 {
      assert d.emitted[i].block == world(d.emitted[i].block.hash);
      if i < |c.emitted| {
        assert d.emitted[i] == c.emitted[i];
      }
    }
    assert d.emitted[0] == c.emitted[0];
  }

  /** Every such fork breaks parents when its blocks arrive in this order, given room for two blocks above the first. */
  lemma ForkBreaksParents(world: Hash -> Block, maxDepth: nat, a: Block, x: Block, b: Block)
    requires WellFormed(world) && Fork(world, a, x, b) && maxDepth >= 2
    ensures var c := AddAll(EmptyCache(maxDepth), [a, x, b]);
      Invariant(c, world) && x.hash in c.attached && x.parentHash !in c.blocks && !ParentsAttached(c)
  {
    hide AddBlock;
    var e := EmptyCache(maxDepth);
    OpensWith(world, maxDepth, a);
    StoresOrphan(AddBlock(e, a), world, a, x, b);
    AttachesOrphan(AddBlock(AddBlock(e, a), x), world, a, x, b);
    RunOfThree(e, a, x, b);
  }

  lemma RunOfThree(e: Cache, a: Block, x: Block, b: Block)
    ensures AddAll(e, [a, x, b]) == AddBlock(AddBlock(AddBlock(e, a), x), b)
  {
    hide AddBlock;
    assert [a, x, b][1..] == [x, b] && [x, b][1..] == [b] && [b][1..] == [];
    var c1 := AddBlock(e, a);
    assert AddAll(e, [a, x, b]) == AddAll(c1, [x, b]);
    var c2 := AddBlock(c1, x);
    assert AddAll(c1, [x, b]) == AddAll(c2, [b]);
    assert AddAll(c2, [b]) == AddAll(AddBlock(c2, b), []);
  }

  /** For example: "a" opens the cache, "bcd" stays detached, and then "ad" pulls "bcd" in without "bc". */
  lemma OrphanIsAttached()
    ensures var c := AddAll(EmptyCache(10), [Tree("a"), Tree("bcd"), Tree("ad")]);
      Invariant(c, Tree) && "bcd" in c.attached && "bc" !in c.blocks && !ParentsAttached(c)
  {
    TreeIsWellFormed();
    assert "a"[..0] == "" && "bcd"[..2] == "bc" && "ad"[..1] == "a";
    ForkBreaksParents(Tree, 10, Tree("a"), Tree("bcd"), Tree("ad"));
  }
}
