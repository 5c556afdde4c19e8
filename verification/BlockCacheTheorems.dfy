/** What every `addBlock` keeps, over all blocks of a well-formed chain of blocks. */
module BlockCacheTheorems {
  import opened Wrappers
  import opened BlockCache

  /** A hash determines its block, and a parent stands exactly one below its child. */
  ghost predicate WellFormed(world: Hash -> Block) {
    && (forall h :: world(h).hash == h)
    && (forall h :: ParentIsBelow(world, h))
  }

  ghost predicate ParentIsBelow(world: Hash -> Block, h: Hash) {
    world(world(h).parentHash).number == world(h).number - 1
  }

  // ---- The invariant -----------------------------------------------------------------------------------

  ghost predicate NoDuplicates<T>(s: seq<T>) {
    forall i, j :: 0 <= i < j < |s| ==> s[i] != s[j]
  }

  /** The height index lists exactly the stored blocks, each once. */
  ghost predicate Indexed(blocks: map<Hash, Block>, heights: map<int, seq<Hash>>) {
    && (forall n, h :: h in HashesAt(heights, n) <==> h in blocks && blocks[h].number == n)
    && (forall n :: NoDuplicates(HashesAt(heights, n)))
  }

  ghost predicate EmittedBefore(emitted: seq<Emission>, h: Hash, n: nat)
    requires n <= |emitted|
  {
    exists i :: 0 <= i < n && emitted[i].block.hash == h
  }

  /** Exactly the attached blocks were emitted, and pruned ones; each once, after its parent if that was attached. */
  ghost predicate EmittedOnce(emitted: seq<Emission>, attached: set<Hash>, pruneHeight: int, world: Hash -> Block) {
    && (forall h :: h in attached ==> EmittedBefore(emitted, h, |emitted|))
    && (forall i :: 0 <= i < |emitted| ==>
          && emitted[i].block == world(emitted[i].block.hash)
          && (emitted[i].block.hash in attached || emitted[i].block.number < pruneHeight))
    && (forall i {:trigger emitted[i].parentCached} :: 0 <= i < |emitted| && emitted[i].parentCached ==>
          EmittedBefore(emitted, emitted[i].block.parentHash, i))
    && (forall i, j :: 0 <= i < j < |emitted| ==> emitted[i].block.hash != emitted[j].block.hash)
  }

  ghost predicate Structured(c: Cache, world: Hash -> Block) {
    && !c.isEmpty && 0 <= c.pruneHeight
    && (forall h :: h in c.blocks ==> c.blocks[h] == world(h) && c.blocks[h].number >= c.pruneHeight)
    && c.attached <= c.blocks.Keys
    && Indexed(c.blocks, c.heights)
    && EmittedOnce(c.emitted, c.attached, c.pruneHeight, world)
  }

  /** `maxHeight` is the greatest height that was ever attached. */
  ghost predicate Highest(c: Cache) {
    && (forall i :: 0 <= i < |c.emitted| ==> c.emitted[i].block.number <= c.maxHeight)
    && (exists i :: 0 <= i < |c.emitted| && c.emitted[i].block.number == c.maxHeight)
  }

  /** The minimum height is that of the first block or lies `maxDepth` below the maximum, whichever is greater. */
  ghost predicate PrunedUpToDate(c: Cache) {
    c.emitted != [] && c.pruneHeight == MinHeight(c) == Max(c.emitted[0].block.number, c.maxHeight - c.maxDepth)
  }

  ghost predicate Settled(c: Cache) {
    PrunedUpToDate(c) && Highest(c)
  }

  /** No detached block has an attached parent, leaving aside the blocks of one height. */
  ghost predicate CompleteExcept(c: Cache, height: int) {
    forall h {:trigger h in Detached(c)} :: h in Detached(c) && c.blocks[h].number != height ==>
      c.blocks[h].parentHash !in c.attached
  }

  ghost predicate Complete(c: Cache) {
    forall h {:trigger h in Detached(c)} :: h in Detached(c) ==> c.blocks[h].parentHash !in c.attached
  }

  ghost predicate NoneDetachedAt(c: Cache, height: int) {
    forall h {:trigger h in Detached(c)} :: h in Detached(c) ==> c.blocks[h].number != height
  }

  ghost predicate Invariant(c: Cache, world: Hash -> Block) {
    if c.isEmpty then c == EmptyCache(c.maxDepth)
    else Structured(c, world) && Settled(c) && Complete(c) && NoneDetachedAt(c, c.pruneHeight)
  }

  /** From `c` to `d` nothing at or above the new minimum height is deleted or detached, and nothing is taken back. */
  ghost predicate Keeps(c: Cache, d: Cache) {
    && c.pruneHeight <= d.pruneHeight && c.maxHeight <= d.maxHeight && c.maxDepth == d.maxDepth
    && (forall h :: h in c.blocks && c.blocks[h].number >= d.pruneHeight ==> h in d.blocks)
    && (forall h :: h in c.attached && h in d.blocks ==> h in d.attached)
    && c.emitted <= d.emitted
  }

  /** A sweep stores nothing and emits only blocks that were detached. */
  ghost predicate SweepsOnly(c: Cache, d: Cache) {
    && d.blocks.Keys <= c.blocks.Keys
    && Detached(d) <= Detached(c)
    && |c.emitted| <= |d.emitted|
    && (forall i :: |c.emitted| <= i < |d.emitted| ==> d.emitted[i].block.hash in Detached(c))
  }

  // ---- Pruning -----------------------------------------------------------------------------------------

  lemma DeletedAtKeeps(c: Cache, world: Hash -> Block)
    requires Structured(c, world)
    ensures var d := DeletedAt(c, c.pruneHeight).(pruneHeight := c.pruneHeight + 1);
      && Structured(d, world)
      && (forall h :: h in d.blocks <==> h in c.blocks && c.blocks[h].number != c.pruneHeight)
      && (forall h :: h in d.attached <==> h in c.attached && c.blocks[h].number != c.pruneHeight)
  {
    var gone := Elements(HashesAt(c.heights, c.pruneHeight));
    var d := DeletedAt(c, c.pruneHeight).(pruneHeight := c.pruneHeight + 1);
    assert forall h :: h in gone <==> h in c.blocks && c.blocks[h].number == c.pruneHeight;
    forall n, h ensures h in HashesAt(d.heights, n) <==> h in d.blocks && d.blocks[h].number == n {
      assert HashesAt(d.heights, n) == if n == c.pruneHeight then [] else HashesAt(c.heights, n);
    }
    forall n ensures NoDuplicates(HashesAt(d.heights, n)) {
      assert NoDuplicates(HashesAt(c.heights, n));
    }
  }

  lemma {:induction false} PrunedKeeps(c: Cache, world: Hash -> Block)
    requires Structured(c, world)
    ensures var d := Pruned(c);
      && Structured(d, world)
      && d.emitted == c.emitted && d.maxHeight == c.maxHeight && d.maxDepth == c.maxDepth
      && d.pruneHeight == MinHeight(c) == MinHeight(d)
      && (forall h :: h in d.blocks <==> h in c.blocks && c.blocks[h].number >= d.pruneHeight)
      && (forall h :: h in d.attached <==> h in c.attached && h in d.blocks)
    decreases MinHeight(c) - c.pruneHeight
  {
    if c.pruneHeight < MinHeight(c) {
      DeletedAtKeeps(c, world);
      PrunedKeeps(DeletedAt(c, c.pruneHeight).(pruneHeight := c.pruneHeight + 1), world);
    }
  }

  // ---- Attaching the blocks of one height --------------------------------------------------------------

  lemma OneMoreEmission(emitted: seq<Emission>, attached: set<Hash>, pruneHeight: int, world: Hash -> Block, e: Emission)
    requires EmittedOnce(emitted, attached, pruneHeight, world)
    requires e.block == world(e.block.hash) && e.block.hash !in attached && e.block.number >= pruneHeight
    requires e.parentCached ==> e.block.parentHash in attached
    ensures EmittedOnce(emitted + [e], attached + {e.block.hash}, pruneHeight, world)
  {
    var more, n := emitted + [e], |emitted|;
    forall h, m: nat | m <= n && EmittedBefore(emitted, h, m)
      ensures EmittedBefore(more, h, m) && EmittedBefore(more, h, n + 1)
    {
      var i :| 0 <= i < m && emitted[i].block.hash == h;
      assert more[i].block.hash == h;
    }
    assert more[n].block.hash == e.block.hash;
    forall i | 0 <= i < |more| && more[i].parentCached ensures EmittedBefore(more, more[i].block.parentHash, i) {
      if i < n {
        assert EmittedBefore(emitted, emitted[i].block.parentHash, i);
      } else {
        assert EmittedBefore(emitted, e.block.parentHash, n);
      }
    }
  }

  lemma AttachedOneKeeps(c: Cache, world: Hash -> Block, hash: Hash)
    requires WellFormed(world) && Structured(c, world) && hash in c.blocks && hash !in c.attached
    ensures Structured(AttachedOne(c, hash), world)
  {
    var d, b := AttachedOne(c, hash), c.blocks[hash];
    assert ParentIsBelow(world, hash);
    assert b.hash == hash && b.parentHash != hash;
    OneMoreEmission(c.emitted, c.attached, c.pruneHeight, world, d.emitted[|c.emitted|]);
  }

  lemma {:induction false} AttachedAllKeeps(c: Cache, world: Hash -> Block, hashes: seq<Hash>)
    requires WellFormed(world) && Structured(c, world)
    requires NoDuplicates(hashes) && forall h :: h in hashes ==> h in c.blocks && h !in c.attached
    ensures Structured(AttachedAll(c, hashes), world)
    decreases |hashes|
  {
    if hashes != [] {
      var next, rest := AttachedOne(c, hashes[0]), hashes[1..];
      AttachedOneKeeps(c, world, hashes[0]);
      forall h | h in rest ensures h in next.blocks && h !in next.attached {
        var i :| 0 <= i < |rest| && rest[i] == h;
        assert hashes[i + 1] == h;
      }
      assert NoDuplicates(rest);
      AttachedAllKeeps(next, world, rest);
    }
  }

  lemma {:induction false} AttachedAllEmits(c: Cache, hashes: seq<Hash>)
    requires forall h :: h in hashes ==> h in c.blocks
    ensures var e := AttachedAll(c, hashes).emitted;
      && |e| == |c.emitted| + |hashes| && e[..|c.emitted|] == c.emitted
      && (forall i :: |c.emitted| <= i < |e| ==> e[i].block == c.blocks[hashes[i - |c.emitted|]])
    decreases |hashes|
  {
    if hashes != [] {
      var next, n := AttachedOne(c, hashes[0]), |c.emitted|;
      AttachedAllEmits(next, hashes[1..]);
      var e := AttachedAll(c, hashes).emitted;
      assert e[..n] == e[..n + 1][..n] == next.emitted[..n] == c.emitted;
      assert e[n] == e[..n + 1][n] == next.emitted[n];
    }
  }

  lemma {:induction false} DetachedAmongOnce(c: Cache, hashes: seq<Hash>)
    requires NoDuplicates(hashes)
    ensures NoDuplicates(DetachedAmong(c, hashes))
  {
    if hashes != [] {
      DetachedAmongOnce(c, hashes[1..]);
      var rest := DetachedAmong(c, hashes[1..]);
      assert hashes[0] !in rest by {
        assert forall i :: 0 <= i < |hashes[1..]| ==> hashes[1..][i] == hashes[i + 1];
      }
    }
  }

  lemma DetachedAtHeight(c: Cache, world: Hash -> Block, height: int)
    requires Structured(c, world)
    ensures forall h :: h in DetachedAt(c, height) <==> h in Detached(c) && c.blocks[h].number == height
    ensures NoDuplicates(DetachedAt(c, height))
    ensures DetachedAt(c, height) == [] <==> NoneDetachedAt(c, height)
  {
    DetachedAmongOnce(c, HashesAt(c.heights, height));
    if DetachedAt(c, height) != [] {
      assert DetachedAt(c, height)[0] in DetachedAt(c, height);
    }
  }

  // ---- One round of a sweep ----------------------------------------------------------------------------

  function Round(c: Cache, height: int): Cache {
    RaisedTo(AttachedAll(c, DetachedAt(c, height)), height)
  }

  lemma RaisedKeeps(c: Cache, world: Hash -> Block, height: int)
    requires Structured(c, world) && PrunedUpToDate(c) && c.pruneHeight <= height
    requires forall i :: 0 <= i < |c.emitted| ==> c.emitted[i].block.number <= Max(c.maxHeight, height)
    requires exists i :: 0 <= i < |c.emitted| && c.emitted[i].block.number == Max(c.maxHeight, height)
    ensures var d := RaisedTo(c, height);
      Structured(d, world) && Settled(d) && d.pruneHeight <= height && RaiseEffect(c, d, height)
  {
    if c.maxHeight < height {
      var m := c.(maxHeight := height);
      PrunedKeeps(m, world);
    }
  }

  ghost predicate AttachEffect(c: Cache, a: Cache, height: int) {
    && a == c.(attached := a.attached, emitted := a.emitted)
    && (forall h :: h in a.attached <==> h in c.attached || (h in c.blocks && c.blocks[h].number == height))
    && c.emitted <= a.emitted && |c.emitted| < |a.emitted|
    && (forall i :: |c.emitted| <= i < |a.emitted| ==>
          a.emitted[i].block.hash in Detached(c) && a.emitted[i].block.number == height)
  }

  ghost predicate RaiseEffect(a: Cache, d: Cache, height: int) {
    && d.emitted == a.emitted && d.maxDepth == a.maxDepth && d.maxHeight == Max(a.maxHeight, height)
    && a.pruneHeight <= d.pruneHeight
    && (forall h :: h in d.blocks <==> h in a.blocks && a.blocks[h].number >= d.pruneHeight)
    && (forall h :: h in d.attached <==> h in a.attached && h in d.blocks)
  }

  /** Attaching the detached blocks of a height, before the maximum height is brought up to date. */
  lemma AttachedAtKeeps(c: Cache, world: Hash -> Block, height: int)
    requires WellFormed(world) && Structured(c, world) && Highest(c) && DetachedAt(c, height) != []
    ensures Structured(AttachedAll(c, DetachedAt(c, height)), world)
    ensures AttachEffect(c, AttachedAll(c, DetachedAt(c, height)), height)
  {
    var ds := DetachedAt(c, height);
    var a, n := AttachedAll(c, ds), |c.emitted|;
    DetachedAtHeight(c, world, height);
    AttachedAllKeeps(c, world, ds);
    AttachedAllEffect(c, ds);
    AttachedAllEmits(c, ds);
    forall i | n <= i < |a.emitted|
      ensures a.emitted[i].block.hash in Detached(c) && a.emitted[i].block.number == height
    {
      assert ds[i - n] in ds;
      assert c.blocks[ds[i - n]] == world(ds[i - n]);
    }
  }

  lemma HighestAfterRound(c: Cache, a: Cache, height: int)
    requires Highest(c) && a.maxHeight == c.maxHeight && c.emitted <= a.emitted && |c.emitted| < |a.emitted|
    requires forall i :: |c.emitted| <= i < |a.emitted| ==> a.emitted[i].block.number == height
    ensures forall i :: 0 <= i < |a.emitted| ==> a.emitted[i].block.number <= Max(a.maxHeight, height)
    ensures exists i :: 0 <= i < |a.emitted| && a.emitted[i].block.number == Max(a.maxHeight, height)
  {
    forall i | 0 <= i < |a.emitted| ensures a.emitted[i].block.number <= Max(a.maxHeight, height) {
      if i < |c.emitted| { assert a.emitted[i] == c.emitted[i]; }
    }
    if height >= c.maxHeight {
      assert a.emitted[|c.emitted|].block.number == height;
    } else {
      var i :| 0 <= i < |c.emitted| && c.emitted[i].block.number == c.maxHeight;
      assert a.emitted[i] == c.emitted[i];
    }
  }

  /** How one round changes what is stored, attached and emitted. */
  ghost predicate RoundEffect(c: Cache, d: Cache, height: int) {
    && c.pruneHeight <= d.pruneHeight && c.maxHeight <= d.maxHeight && c.maxDepth == d.maxDepth
    && (forall h :: h in d.blocks <==> h in c.blocks && c.blocks[h].number >= d.pruneHeight)
    && (forall h :: h in d.attached <==> h in d.blocks && (h in c.attached || c.blocks[h].number == height))
    && c.emitted <= d.emitted
    && (forall i :: |c.emitted| <= i < |d.emitted| ==> d.emitted[i].block.hash in Detached(c))
  }

  lemma RoundStructured(c: Cache, world: Hash -> Block, height: int)
    requires WellFormed(world) && Structured(c, world) && Settled(c)
    requires c.pruneHeight <= height && DetachedAt(c, height) != []
    ensures var d := Round(c, height);
      Structured(d, world) && Settled(d) && d.pruneHeight <= height && RoundEffect(c, d, height)
  {
    var a := AttachedAll(c, DetachedAt(c, height));
    AttachedAtKeeps(c, world, height);
    HighestAfterRound(c, a, height);
    RaisedKeeps(a, world, height);
    EffectsCompose(c, a, RaisedTo(a, height), height);
  }

  lemma EffectsCompose(c: Cache, a: Cache, d: Cache, height: int)
    requires AttachEffect(c, a, height) && RaiseEffect(a, d, height)
    ensures RoundEffect(c, d, height)
  {
  }

  lemma RoundFrame(c: Cache, d: Cache, height: int)
    requires RoundEffect(c, d, height) && c.attached <= c.blocks.Keys
    requires forall h :: h in d.blocks ==> d.blocks[h] == c.blocks[h]
    ensures Keeps(c, d) && SweepsOnly(c, d) && NoneDetachedAt(d, height)
  {
  }

  lemma RoundKeeps(c: Cache, world: Hash -> Block, height: int)
    requires WellFormed(world) && Structured(c, world) && Settled(c)
    requires c.pruneHeight <= height && DetachedAt(c, height) != []
    ensures var d := Round(c, height);
      && Structured(d, world) && Settled(d) && d.pruneHeight <= height
      && NoneDetachedAt(d, height)
      && Keeps(c, d) && SweepsOnly(c, d)
      && (CompleteExcept(c, height) ==> CompleteExcept(d, height + 1))
  {
    var d := Round(c, height);
    RoundStructured(c, world, height);
    RoundFrame(c, d, height);
    if CompleteExcept(c, height) {
      RoundCompletes(c, world, height, d);
    }
  }

  lemma RoundCompletes(c: Cache, world: Hash -> Block, height: int, d: Cache)
    requires WellFormed(world) && Structured(c, world) && Structured(d, world) && CompleteExcept(c, height)
    requires forall h :: h in d.attached ==> h in c.attached || (h in c.blocks && c.blocks[h].number == height)
    requires Detached(d) <= Detached(c) && NoneDetachedAt(d, height)
    ensures CompleteExcept(d, height + 1)
  {
    forall h | h in Detached(d) && d.blocks[h].number != height + 1 ensures d.blocks[h].parentHash !in d.attached {
      assert h in Detached(c) && c.blocks[h] == world(h) == d.blocks[h];
      var p := world(h).parentHash;
      assert ParentIsBelow(world, h);
      if p in d.attached && p !in c.attached {
        assert false;
      }
    }
  }

  // ---- Whole sweeps ------------------------------------------------------------------------------------

  lemma KeepsTransitively(c: Cache, d: Cache, e: Cache)
    requires Keeps(c, d) && Keeps(d, e) && SweepsOnly(c, d) && SweepsOnly(d, e)
    requires forall h :: h in d.blocks ==> d.blocks[h] == c.blocks[h]
    ensures Keeps(c, e) && SweepsOnly(c, e)
  {
    forall h | h in c.blocks && c.blocks[h].number >= e.pruneHeight ensures h in e.blocks {
      assert h in d.blocks;
    }
    forall i | |c.emitted| <= i < |e.emitted| ensures e.emitted[i].block.hash in Detached(c) {
      if i < |d.emitted| {
        assert e.emitted[i] == d.emitted[i];
      }
    }
  }

  /** What sweeping from `height` on achieves. */
  ghost predicate SweptFrom(c: Cache, d: Cache, world: Hash -> Block, height: int) {
    && Structured(d, world) && Settled(d) && Complete(d) && NoneDetachedAt(d, height)
    && Keeps(c, d) && SweepsOnly(c, d)
  }

  lemma {:induction false} SweptKeeps(c: Cache, world: Hash -> Block, height: int)
    requires WellFormed(world) && Structured(c, world) && Settled(c) && c.pruneHeight <= height
    requires CompleteExcept(c, height)
    ensures SweptFrom(c, Swept(c, height), world, height)
    decreases Detached(c)
  {
    DetachedAtHeight(c, world, height);
    if DetachedAt(c, height) != [] {
      var next := Round(c, height);
      SweepShrinks(c, height);
      RoundKeeps(c, world, height);
      SweptKeeps(next, world, height + 1);
      KeepsTransitively(c, next, Swept(next, height + 1));
    }
  }

  lemma SweptTwice(c: Cache, d: Cache, e: Cache, world: Hash -> Block, h: int, k: int)
    requires Structured(c, world)
    requires SweptFrom(c, d, world, h) && SweptFrom(d, e, world, k)
    ensures SweptFrom(c, e, world, k)
  {
    KeepsTransitively(c, d, e);
  }

  /** If sweeping from the minimum height does not move it, nothing detached is left there. */
  lemma MinHeightSwept(c: Cache, world: Hash -> Block)
    requires WellFormed(world) && Structured(c, world) && Settled(c) && Complete(c)
    ensures var r := Swept(c, MinHeight(c));
      && SweptFrom(c, r, world, MinHeight(c))
      && (MinHeight(r) <= MinHeight(c) ==> SweptFrom(c, r, world, r.pruneHeight))
      && (MinHeight(r) > MinHeight(c) ==> Detached(r) < Detached(c))
  {
    SweptKeeps(c, world, MinHeight(c));
    SweptShrinks(c, MinHeight(c));
  }

  lemma {:induction false} SweptAtMinHeightKeeps(c: Cache, world: Hash -> Block)
    requires WellFormed(world) && Structured(c, world) && Settled(c) && Complete(c)
    ensures SweptFrom(c, SweptAtMinHeight(c), world, SweptAtMinHeight(c).pruneHeight)
    decreases Detached(c)
  {
    hide Swept;
    var r := Swept(c, MinHeight(c));
    MinHeightSwept(c, world);
    if MinHeight(r) > MinHeight(c) {
      var d := SweptAtMinHeight(r);
      SweptAtMinHeightKeeps(r, world);
      SweptTwice(c, r, d, world, MinHeight(c), d.pruneHeight);
    }
  }

  // ---- Adding a block ----------------------------------------------------------------------------------

  lemma StoredIsIndexed(blocks: map<Hash, Block>, heights: map<int, seq<Hash>>, b: Block)
    requires Indexed(blocks, heights) && b.hash !in blocks
    ensures b.hash !in HashesAt(heights, b.number)
    ensures Indexed(blocks[b.hash := b], heights[b.number := HashesAt(heights, b.number) + [b.hash]])
  {
    var more := heights[b.number := HashesAt(heights, b.number) + [b.hash]];
    forall n ensures HashesAt(more, n) == if n == b.number then HashesAt(heights, n) + [b.hash] else HashesAt(heights, n) {}
    forall n ensures NoDuplicates(HashesAt(more, n)) {
      assert NoDuplicates(HashesAt(heights, n));
    }
  }

  lemma StoredKeeps(c: Cache, world: Hash -> Block, b: Block)
    requires Structured(c, world) && b == world(b.hash) && b.hash !in c.blocks && b.number >= c.pruneHeight
    ensures Structured(Stored(c, b), world)
  {
    hide EmittedOnce, Indexed, HashesAt;
    StoredIsIndexed(c.blocks, c.heights, b);
  }
}
