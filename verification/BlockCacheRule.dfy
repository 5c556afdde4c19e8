/**
 * Exactly when adding a block keeps every attached block above the minimum height attached to its parent: the blocks
 * that the call takes, and the minimum height it ends with, are written from the cache before the call.
 */
module BlockCacheRule {
  import opened Wrappers
  import opened BlockCache
  import opened BlockCacheTheorems
  import opened BlockCacheAdd
  import opened BlockCacheParents
  import opened BlockCacheAncestry

  // ---- Gaps --------------------------------------------------------------------------------------------

  lemma {:induction false} StopIsFirstGap(c: Cache, height: int)
    ensures forall n :: height <= n < Stop(c, height) ==> SomeDetachedAt(c, n)
    ensures !SomeDetachedAt(c, Stop(c, height))
    decreases DetachedFrom(c, height)
  {
    if SomeDetachedAt(c, height) {
      var h :| h in Detached(c) && c.blocks[h].number == height;
      assert h in DetachedFrom(c, height) && h !in DetachedFrom(c, height + 1);
      StopIsFirstGap(c, height + 1);
    }
  }

  lemma SameGap(c: Cache, k: int, n: int)
    requires k <= n < Stop(c, k)
    ensures Stop(c, n) == Stop(c, k)
  {
    StopIsFirstGap(c, k);
    StopIsFirstGap(c, n);
  }

  /** The heights from `start` up to the first gap. */
  ghost predicate InRun(c: Cache, start: int, n: int) {
    start <= n < Stop(c, start)
  }

  /** Sweeping from the minimum height `m`, with `top` the greatest height attached, until neither moves any more. */
  ghost function Floor(c: Cache, m: int, top: int): int
    requires m >= top - c.maxDepth
    decreases DetachedFrom(c, top + 1)
  {
    var higher := Max(top, Stop(c, m) - 1);
    var next := Max(m, higher - c.maxDepth);
    if next > m then
      StopIsFirstGap(c, m);
      assert SomeDetachedAt(c, higher);
      var h :| h in Detached(c) && c.blocks[h].number == higher;
      assert h in DetachedFrom(c, top + 1) && h !in DetachedFrom(c, higher + 1);
      Floor(c, next, higher)
    else m
  }

  /** The minimum height after `b` is added: the sweep above `b` comes first. */
  ghost function FinalMinHeight(c: Cache, b: Block): int {
    var top := Max(Max(c.maxHeight, b.number), Stop(c, b.number + 1) - 1);
    Floor(c, Max(if c.isEmpty then b.number else c.pruneHeight, top - c.maxDepth), top)
  }

  ghost predicate HashSoFar(c: Cache, y: Cache, world: Hash -> Block, b: Block, k: int, h: Hash) {
    var n := world(h).number;
    && (h in y.blocks <==> (h == b.hash || h in c.blocks) && n >= y.pruneHeight)
    && (h in y.attached <==>
          h in y.blocks && (h == b.hash || h in c.attached || InRun(c, b.number + 1, n) || InRun(c, k, n)))
  }

  /** `y` within the call that adds `b` to `c`, once the heights above `b` and those from `k` on have been swept. */
  ghost predicate SweptSoFar(c: Cache, y: Cache, world: Hash -> Block, b: Block, k: int) {
    && b.hash !in c.blocks && y.maxDepth == c.maxDepth && (k <= y.pruneHeight || k == b.number + 1)
    && Stop(c, b.number + 1) - 1 <= y.maxHeight && Stop(c, k) - 1 <= y.maxHeight
    && (forall h :: HashSoFar(c, y, world, b, k, h))
  }

  lemma DetachedBefore(c: Cache, y: Cache, world: Hash -> Block, b: Block, k: int, n: int)
    requires Faithful(c.blocks, world) && Faithful(y.blocks, world) && SweptSoFar(c, y, world, b, k)
    ensures SomeDetachedAt(y, n) ==> SomeDetachedAt(c, n)
  {
    hide Stop;
    if SomeDetachedAt(y, n) {
      var h :| h in Detached(y) && y.blocks[h].number == n;
      assert HashSoFar(c, y, world, b, k, h);
      assert h in Detached(c) && c.blocks[h] == world(h);
    }
  }

  /** Where a sweep of `y` meets its gap earlier than in `c`, it meets heights that were swept before. */
  lemma GapInSwept(c: Cache, y: Cache, world: Hash -> Block, b: Block, k: int)
    requires Faithful(c.blocks, world) && Faithful(y.blocks, world)
    requires SweptSoFar(c, y, world, b, k)
    ensures var m, s := y.pruneHeight, Stop(y, y.pruneHeight);
      && s <= Stop(c, m)
      && (s < Stop(c, m) ==> InRun(c, b.number + 1, s) || InRun(c, k, s))
      && Max(y.maxHeight, s - 1) == Max(y.maxHeight, Stop(c, m) - 1)
  {
    hide Stop;
    var m, s := y.pruneHeight, Stop(y, y.pruneHeight);
    StopIsFirstGap(y, m);
    StopIsFirstGap(c, m);
    DetachedBefore(c, y, world, b, k, Stop(c, m));
    if s < Stop(c, m) {
      assert SomeDetachedAt(c, s);
      var h :| h in Detached(c) && c.blocks[h].number == s;
      assert HashSoFar(c, y, world, b, k, h);
      assert h in y.blocks && y.blocks[h] == world(h) == c.blocks[h];
      assert h !in Detached(y);
      SameGap(c, m, s);
      if InRun(c, b.number + 1, s) {
        SameGap(c, b.number + 1, s);
      } else {
        SameGap(c, k, s);
      }
    }
  }

  /** A height is taken by the sweep from the minimum height `m` or was before exactly if it is in one of the runs. */
  lemma RunsMeet(c: Cache, y: Cache, world: Hash -> Block, b: Block, k: int, n: int)
    requires Faithful(c.blocks, world) && Faithful(y.blocks, world)
    requires SweptSoFar(c, y, world, b, k) && n >= y.pruneHeight
    ensures InRun(c, b.number + 1, n) || InRun(c, y.pruneHeight, n) <==>
            InRun(c, b.number + 1, n) || InRun(c, k, n) || n < Stop(y, y.pruneHeight)
  {
    hide Stop;
    var m, s := y.pruneHeight, Stop(y, y.pruneHeight);
    GapInSwept(c, y, world, b, k);
    if InRun(c, k, n) && k <= m {
      SameGap(c, k, m);
    }
    if InRun(c, m, n) && n >= s {
      SameGap(c, m, s);
      if InRun(c, b.number + 1, s) {
        SameGap(c, b.number + 1, s);
      } else {
        SameGap(c, k, s);
      }
    }
  }

  lemma NextSweep(c: Cache, y: Cache, r: Cache, world: Hash -> Block, b: Block, k: int)
    requires Faithful(c.blocks, world) && Faithful(y.blocks, world) && y.attached <= y.blocks.Keys
    requires SweptSoFar(c, y, world, b, k) && Took(y, r, y.pruneHeight) && y.pruneHeight <= y.maxHeight
    ensures SweptSoFar(c, r, world, b, y.pruneHeight)
    ensures r.maxHeight == Max(y.maxHeight, Stop(c, y.pruneHeight) - 1)
  {
    hide Stop, InRun;
    GapInSwept(c, y, world, b, k);
    forall h ensures HashSoFar(c, r, world, b, y.pruneHeight, h) {
      assert HashSoFar(c, y, world, b, k, h);
      if h in r.blocks {
        RunsMeet(c, y, world, b, k, world(h).number);
      }
    }
  }

  lemma PrunesFurther(y: Cache, r: Cache)
    requires Settled(y) && Settled(r) && Keeps(y, r)
    ensures r.pruneHeight == Max(y.pruneHeight, r.maxHeight - y.maxDepth)
    ensures y.pruneHeight == MinHeight(y) && y.pruneHeight >= y.maxHeight - y.maxDepth
  {
    assert r.emitted[0] == y.emitted[0];
  }

  lemma LowBelowHigh(y: Cache)
    requires Settled(y)
    ensures y.pruneHeight <= y.maxHeight
  {
  }

  lemma {:induction false} SettlesAtFloor(c: Cache, y: Cache, world: Hash -> Block, b: Block, k: int)
    requires WellFormed(world) && Faithful(c.blocks, world) && SweptSoFar(c, y, world, b, k)
    requires Structured(y, world) && Settled(y) && Complete(y)
    ensures y.pruneHeight >= y.maxHeight - c.maxDepth
    ensures var d := SweptAtMinHeight(y);
      d.pruneHeight == Floor(c, y.pruneHeight, y.maxHeight) && SweptSoFar(c, d, world, b, d.pruneHeight)
    decreases Detached(y)
  {
    hide Swept, Stop, InRun, SweptSoFar, Took, WellFormed, Structured, Settled, Complete, Keeps, SweepsOnly, NoneDetachedAt;
    var m := y.pruneHeight;
    MinHeightSwept(y, world);
    var r := Swept(y, m);
    PrunesFurther(y, y) by { SelfKept(y); }
    LowBelowHigh(y);
    SweepTakes(y, world, m) by { CompleteHere(y, m); }
    StructuredIsFaithful(y, world);
    NextSweep(c, y, r, world, b, k);
    PrunesFurther(y, r);
    SameDepth(c, y, world, b, k);
    if MinHeight(r) > m {
      SettlesAtFloor(c, r, world, b, m);
    }
  }

  lemma SelfKept(y: Cache)
    ensures Keeps(y, y)
  {
  }

  lemma CompleteHere(y: Cache, height: int)
    requires Complete(y)
    ensures CompleteExcept(y, height)
  {
  }

  lemma StructuredIsFaithful(y: Cache, world: Hash -> Block)
    requires Structured(y, world)
    ensures Faithful(y.blocks, world) && y.attached <= y.blocks.Keys
  {
  }

  lemma SameDepth(c: Cache, y: Cache, world: Hash -> Block, b: Block, k: int)
    requires SweptSoFar(c, y, world, b, k)
    ensures y.maxDepth == c.maxDepth
  {
  }

  // ---- The whole call ----------------------------------------------------------------------------------

  lemma AttachmentHeights(c: Cache, b: Block)
    requires Outcome(c, b) == Added
    ensures var x := Attachment(c, b);
      x.maxHeight == Max(c.maxHeight, b.number) && x.maxDepth == c.maxDepth
  {
    var a := AttachedOne(Stored(Opened(c, b), b), b.hash);
    if a.maxHeight < b.number {
      PrunedShrinks(a.(maxHeight := b.number));
    }
  }

  lemma SameAbove(c: Cache, x: Cache, world: Hash -> Block, b: Block)
    requires Invariant(c, world) && b == world(b.hash) && Outcome(c, b) == Added
    requires Structured(x, world) && AttachmentEffect(c, x, b)
    ensures forall n :: n >= b.number + 1 ==> SomeDetachedAt(c, n) == SomeDetachedAt(x, n)
  {
    forall n | n >= b.number + 1 ensures SomeDetachedAt(c, n) == SomeDetachedAt(x, n) {
      if SomeDetachedAt(c, n) {
        var h :| h in Detached(c) && c.blocks[h].number == n;
        assert h in Detached(x) && x.blocks[h] == world(h);
      }
      if SomeDetachedAt(x, n) {
        var h :| h in Detached(x) && x.blocks[h].number == n;
        assert h in Detached(c) && c.blocks[h] == world(h) == x.blocks[h];
      }
    }
  }

  lemma FirstSweep(c: Cache, x: Cache, y: Cache, world: Hash -> Block, b: Block, k: int)
    requires Invariant(c, world) && b == world(b.hash) && Outcome(c, b) == Added && k == b.number + 1
    requires Structured(x, world) && AttachmentEffect(c, x, b) && x.maxHeight == Max(c.maxHeight, b.number)
    requires Stop(c, k) == Stop(x, k) && Took(x, y, k)
    ensures SweptSoFar(c, y, world, b, k)
    ensures y.maxHeight == Max(Max(c.maxHeight, b.number), Stop(c, k) - 1)
  {
    hide *;
    forall h ensures HashSoFar(c, y, world, b, k, h) {
      FirstSweepOf(c, x, y, world, b, h);
    }
    FirstHeights(c, x, y, b, k);
    SoFarParts(c, y, world, b, k);
  }

  lemma FirstHeights(c: Cache, x: Cache, y: Cache, b: Block, k: int)
    requires Outcome(c, b) == Added && k == b.number + 1
    requires AttachmentEffect(c, x, b) && x.maxHeight == Max(c.maxHeight, b.number)
    requires Stop(c, k) == Stop(x, k) && Took(x, y, k)
    ensures b.hash !in c.blocks && y.maxDepth == c.maxDepth && Stop(c, k) - 1 <= y.maxHeight
    ensures y.maxHeight == Max(Max(c.maxHeight, b.number), Stop(c, k) - 1)
  {
    hide Stop, Taken, CanAttach;
  }

  lemma SoFarParts(c: Cache, y: Cache, world: Hash -> Block, b: Block, k: int)
    requires b.hash !in c.blocks && y.maxDepth == c.maxDepth && k == b.number + 1
    requires Stop(c, k) - 1 <= y.maxHeight && forall h :: HashSoFar(c, y, world, b, k, h)
    ensures SweptSoFar(c, y, world, b, k)
  {
    hide Stop, HashSoFar;
  }

  lemma FirstSweepOf(c: Cache, x: Cache, y: Cache, world: Hash -> Block, b: Block, h: Hash)
    requires Invariant(c, world) && b == world(b.hash)
    requires Structured(x, world) && AttachmentEffect(c, x, b)
    requires Stop(c, b.number + 1) == Stop(x, b.number + 1) && Took(x, y, b.number + 1)
    ensures HashSoFar(c, y, world, b, b.number + 1, h)
  {
    hide Stop, Complete, Settled, NoneDetachedAt, Indexed, EmittedOnce;
    assert h in x.blocks ==> x.blocks[h] == world(h);
    assert h in c.blocks ==> c.blocks[h] == world(h);
  }

  /** How adding an attachable block ends: its minimum height, and which blocks it attaches. */
  lemma AddingSettles(c: Cache, world: Hash -> Block, b: Block)
    requires WellFormed(world) && Invariant(c, world) && b == world(b.hash) && b.number >= 0
    requires Outcome(c, b) == Added
    ensures var d := AddBlock(c, b);
      && d.pruneHeight == FinalMinHeight(c, b)
      && forall h :: HashSoFar(c, d, world, b, d.pruneHeight, h)
  {
    hide *;
    var k := b.number + 1;
    var x := Attachment(c, b);
    var y := Swept(x, k);
    AttachmentKeeps(c, world, b);
    AttachmentCompletes(c, world, b, x);
    AttachmentHeights(c, b);
    SameAbove(c, x, world, b);
    StopDependsOnDetached(c, x, k);
    SweepTakes(x, world, k);
    FirstSweep(c, x, y, world, b, k);
    SweptKeeps(x, world, k);
    SweptParts(x, y, world, k);
    InvariantIsFaithful(c, world);
    SettlesAtFloor(c, y, world, b, k);
    StartsAt(c, x, y, world, b, k);
    AddBlockAttaches(c, b);
    SoFarOfAll(c, SweptAtMinHeight(y), world, b);
  }

  lemma SoFarOfAll(c: Cache, d: Cache, world: Hash -> Block, b: Block)
    requires SweptSoFar(c, d, world, b, d.pruneHeight)
    ensures forall h :: HashSoFar(c, d, world, b, d.pruneHeight, h)
  {
    hide HashSoFar;
  }

  lemma StartsAt(c: Cache, x: Cache, y: Cache, world: Hash -> Block, b: Block, k: int)
    requires Invariant(c, world) && AttachmentEffect(c, x, b) && SweptFrom(x, y, world, k) && k == b.number + 1
    requires y.maxHeight == Max(Max(c.maxHeight, b.number), Stop(c, k) - 1)
    requires y.pruneHeight >= y.maxHeight - c.maxDepth
    ensures FinalMinHeight(c, b) == Floor(c, y.pruneHeight, y.maxHeight)
  {
    hide Stop, Floor, Structured, Complete, NoneDetachedAt, SweepsOnly, Highest;
    if c.isEmpty {
      assert y.emitted[0] == x.emitted[0];
    } else {
      assert y.emitted[0] == x.emitted[0] == c.emitted[0];
    }
  }

  // ---- When parents stay attached ----------------------------------------------------------------------

  /** The detached blocks of `c` that adding `b` attaches above the minimum height it ends with. */
  ghost predicate TakenAbove(c: Cache, b: Block, h: Hash) {
    && h in Detached(c) && c.blocks[h].number > FinalMinHeight(c, b)
    && (InRun(c, b.number + 1, c.blocks[h].number) || InRun(c, FinalMinHeight(c, b), c.blocks[h].number))
  }

  /**
   * A block's parent is `b`, or is stored; directly above `b` a stored parent counts only if the sweep from the minimum
   * height reaches that far.
   */
  ghost predicate LinkedTo(c: Cache, b: Block, h: Hash)
    requires h in c.blocks
  {
    || c.blocks[h].parentHash == b.hash
    || (c.blocks[h].parentHash in c.blocks &&
        (c.blocks[h].number == b.number + 1 ==> InRun(c, FinalMinHeight(c, b), c.blocks[h].number)))
  }

  lemma LinkedIff(c: Cache, d: Cache, world: Hash -> Block, b: Block, h: Hash)
    requires WellFormed(world) && Invariant(c, world) && b == world(b.hash) && b.hash !in c.blocks
    requires d.pruneHeight == FinalMinHeight(c, b) && TakenAbove(c, b, h)
    requires HashSoFar(c, d, world, b, d.pruneHeight, h)
    requires HashSoFar(c, d, world, b, d.pruneHeight, world(h).parentHash)
    ensures h in d.attached && h in d.blocks && world(h).number > d.pruneHeight
    ensures world(h).parentHash in d.attached <==> LinkedTo(c, b, h)
  {
    hide Stop, FinalMinHeight, Settled, NoneDetachedAt, Indexed, EmittedOnce;
    var p := world(h).parentHash;
    assert c.blocks[h] == world(h) && ParentIsBelow(world, h);
    assert p in c.blocks ==> c.blocks[p] == world(p);
    assert p !in c.attached;
    StopIsFirstGap(c, d.pruneHeight);
    assert SomeDetachedAt(c, world(h).number);
  }

  lemma OldKeepsParent(c: Cache, d: Cache, world: Hash -> Block, b: Block, h: Hash)
    requires WellFormed(world) && Invariant(c, world) && b == world(b.hash) && Outcome(c, b) == Added
    requires ParentsAttached(c) && c.pruneHeight <= d.pruneHeight && (c.isEmpty ==> b.number <= d.pruneHeight)
    requires HashSoFar(c, d, world, b, d.pruneHeight, world(h).parentHash)
    requires h == b.hash || h in c.attached
    requires world(h).number > d.pruneHeight
    ensures world(h).parentHash in d.attached
  {
    hide InRun, Indexed, EmittedOnce;
    var p := world(h).parentHash;
    assert ParentIsBelow(world, h);
    assert h != b.hash ==> c.blocks[h] == world(h);
    assert p in c.attached;
    assert c.blocks[p] == world(p);
  }

  lemma AttachedOrTaken(c: Cache, d: Cache, world: Hash -> Block, b: Block, h: Hash)
    requires Invariant(c, world) && d.pruneHeight == FinalMinHeight(c, b)
    requires HashSoFar(c, d, world, b, d.pruneHeight, h) && h in d.attached && world(h).number > d.pruneHeight
    ensures h == b.hash || h in c.attached || TakenAbove(c, b, h)
  {
    hide Stop, InRun, FinalMinHeight, Settled, Complete, NoneDetachedAt, Indexed, EmittedOnce;
    assert h in c.blocks ==> c.blocks[h] == world(h);
  }

  /**
   * Adding an attachable block leaves parents attached if and only if every detached block that the call takes above
   * its final minimum height is linked to `b` or to a stored block.
   */
  lemma AddKeepsParentsIff(c: Cache, world: Hash -> Block, b: Block)
    requires WellFormed(world) && Invariant(c, world) && b == world(b.hash) && b.number >= 0
    requires Outcome(c, b) == Added && ParentsAttached(c)
    ensures ParentsAttached(AddBlock(c, b)) <==> forall h :: TakenAbove(c, b, h) ==> LinkedTo(c, b, h)
  {
    var d := AddBlock(c, b);
    AttachingKeeps(c, world, b);
    AddingSettles(c, world, b);
    SettledParts(c, d, world, b);
    hide *;
    forall h ensures ParentsAttached(d) && TakenAbove(c, b, h) ==> LinkedTo(c, b, h) {
      if ParentsAttached(d) && TakenAbove(c, b, h) {
        LinkedIff(c, d, world, b, h);
        TakenKeepsParent(c, d, world, b, h);
      }
    }
    if forall h :: TakenAbove(c, b, h) ==> LinkedTo(c, b, h) {
      forall h | h in d.attached && world(h).number > d.pruneHeight ensures world(h).parentHash in d.attached {
        AttachedOrTaken(c, d, world, b, h);
        if TakenAbove(c, b, h) {
          LinkedIff(c, d, world, b, h);
        } else {
          OldKeepsParent(c, d, world, b, h);
        }
      }
      ParentsOfAll(d, world);
    }
  }

  lemma SettledParts(c: Cache, d: Cache, world: Hash -> Block, b: Block)
    requires Invariant(c, world) && Invariant(d, world) && !d.isEmpty && AddEffect(c, d, b) && Outcome(c, b) == Added
    requires forall h :: HashSoFar(c, d, world, b, d.pruneHeight, h)
    requires b == world(b.hash)
    ensures b.hash !in c.blocks && c.pruneHeight <= d.pruneHeight && (c.isEmpty ==> b.number <= d.pruneHeight)
    ensures Faithful(d.blocks, world)
  {
    if c.isEmpty {
      assert d.emitted[0].block == b;
    }
  }

  lemma TakenKeepsParent(c: Cache, d: Cache, world: Hash -> Block, b: Block, h: Hash)
    requires Faithful(d.blocks, world) && ParentsAttached(d) && h in d.attached && h in d.blocks
    requires world(h).number > d.pruneHeight
    ensures world(h).parentHash in d.attached
  {
  }

  lemma ParentsOfAll(d: Cache, world: Hash -> Block)
    requires Faithful(d.blocks, world)
    requires forall h :: h in d.attached && world(h).number > d.pruneHeight ==> world(h).parentHash in d.attached
    ensures ParentsAttached(d)
  {
  }

  /** Every detached block above the minimum height has a stored parent. */
  ghost predicate StoredParents(c: Cache) {
    forall h {:trigger h in Detached(c)} :: h in Detached(c) && c.blocks[h].number > c.pruneHeight ==>
      c.blocks[h].parentHash in c.blocks
  }

  /** Every detached block's parent is stored, or is `b`; directly above `b` only children of `b` are detached. */
  ghost predicate Anchored(c: Cache, b: Block) {
    forall h {:trigger h in Detached(c)} :: h in Detached(c) ==>
      if c.blocks[h].number == b.number + 1 then c.blocks[h].parentHash == b.hash
      else c.blocks[h].parentHash in c.blocks || c.blocks[h].parentHash == b.hash
  }

  /** In particular when all detached blocks are anchored in the cache or in `b`: then no parent is missing afterwards. */
  lemma AddKeepsParents(c: Cache, world: Hash -> Block, b: Block)
    requires WellFormed(world) && Invariant(c, world) && b == world(b.hash) && b.number >= 0
    requires Outcome(c, b) == Added && ParentsAttached(c) && Anchored(c, b)
    ensures ParentsAttached(AddBlock(c, b)) && StoredParents(AddBlock(c, b))
  {
    hide AddBlock, FinalMinHeight, InRun, Outcome;
    AttachingKeeps(c, world, b);
    AddKeepsParentsIff(c, world, b);
    ParentsStayStored(c, AddBlock(c, b), world, b);
  }

  lemma ParentsStayStored(c: Cache, d: Cache, world: Hash -> Block, b: Block)
    requires WellFormed(world) && Invariant(c, world) && b == world(b.hash) && Anchored(c, b)
    requires Invariant(d, world) && !d.isEmpty && AddEffect(c, d, b) && (b.hash in d.attached || b.number < d.pruneHeight)
    ensures StoredParents(d)
  {
    forall h | h in Detached(d) && d.blocks[h].number > d.pruneHeight ensures d.blocks[h].parentHash in d.blocks {
      assert h in Detached(c) && d.blocks[h] == world(h) == c.blocks[h];
      var p := world(h).parentHash;
      assert ParentIsBelow(world, h);
      assert p in c.blocks ==> c.blocks[p] == world(p);
    }
  }
}
