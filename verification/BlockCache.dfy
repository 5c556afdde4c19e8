/**
 * The pruned cache of blocks (src/blockMonitor/blockCache.ts): blocks are attached or detached, adding one block can
 * attach others, and the minimum height moves up with the greatest height attached so far.
 */
module BlockCache {
  import opened Wrappers

  type Hash = string

  datatype Block = Block(hash: Hash, number: int, parentHash: Hash)

  /** A "new block" event, and whether the block's parent was attached in the cache at that moment. */
  datatype Emission = Emission(block: Block, parentCached: bool)

  /**
   * `heights` lists the stored blocks of each height in the order in which they were stored. `pruneHeight` has no
   * meaning while the cache is empty.
   */
  datatype Cache = Cache(maxDepth: nat, isEmpty: bool, pruneHeight: int, maxHeight: int,
                         blocks: map<Hash, Block>, attached: set<Hash>, heights: map<int, seq<Hash>>,
                         emitted: seq<Emission>)

  function EmptyCache(maxDepth: nat): Cache {
    Cache(maxDepth, true, 0, 0, map[], {}, map[], [])
  }

  datatype AddResult =
    | Added
    | AddedDetached
    | NotAddedBlockNumberTooLow
    | NotAddedAlreadyExisted
    | NotAddedAlreadyExistedDetached

  function MinHeight(c: Cache): int {
    Max(c.pruneHeight, c.maxHeight - c.maxDepth)
  }

  predicate HasAttached(c: Cache, hash: Hash) {
    hash in c.attached && hash in c.blocks
  }

  predicate CanAttach(c: Cache, b: Block) {
    c.isEmpty || HasAttached(c, b.parentHash) || b.number == MinHeight(c)
  }

  function Detached(c: Cache): set<Hash> {
    c.blocks.Keys - c.attached
  }

  function HashesAt(heights: map<int, seq<Hash>>, height: int): seq<Hash> {
    if height in heights then heights[height] else []
  }

  // ---- Storing and deleting ----------------------------------------------------------------------------

  function Elements<T>(s: seq<T>): set<T> {
    set x | x in s
  }

  function Stored(c: Cache, b: Block): Cache {
    c.(blocks := c.blocks[b.hash := b],
       heights := if b.hash in HashesAt(c.heights, b.number) then c.heights
                  else c.heights[b.number := HashesAt(c.heights, b.number) + [b.hash]])
  }

  function DeletedAt(c: Cache, height: int): Cache {
    var gone := Elements(HashesAt(c.heights, height));
    c.(blocks := c.blocks - gone, attached := c.attached - gone, heights := c.heights - {height})
  }

  /** Deletes everything from `pruneHeight` up to the minimum height. */
  function Pruned(c: Cache): Cache
    decreases MinHeight(c) - c.pruneHeight
  {
    if c.pruneHeight < MinHeight(c)
    then Pruned(DeletedAt(c, c.pruneHeight).(pruneHeight := c.pruneHeight + 1))
    else c
  }

  function RaisedTo(c: Cache, height: int): Cache {
    if c.maxHeight < height then Pruned(c.(maxHeight := height)) else c
  }

  // ---- Attaching ---------------------------------------------------------------------------------------

  /** Marks one stored block as attached and emits it. */
  function AttachedOne(c: Cache, hash: Hash): Cache
    requires hash in c.blocks
  {
    var marked := c.(attached := c.attached + {hash});
    marked.(emitted := c.emitted + [Emission(c.blocks[hash], HasAttached(marked, c.blocks[hash].parentHash))])
  }

  function AttachedAll(c: Cache, hashes: seq<Hash>): Cache
    requires forall h :: h in hashes ==> h in c.blocks
    decreases |hashes|
  {
    if hashes == [] then c else AttachedAll(AttachedOne(c, hashes[0]), hashes[1..])
  }

  /** The stored but detached blocks among `hashes`, in order. */
  function DetachedAmong(c: Cache, hashes: seq<Hash>): (r: seq<Hash>)
    ensures forall h :: h in r <==> h in hashes && h in c.blocks && h !in c.attached
  {
    if hashes == [] then []
    else (if hashes[0] in c.blocks && hashes[0] !in c.attached then [hashes[0]] else []) + DetachedAmong(c, hashes[1..])
  }

  function DetachedAt(c: Cache, height: int): seq<Hash> {
    DetachedAmong(c, HashesAt(c.heights, height))
  }

  lemma AttachedAllEffect(c: Cache, hashes: seq<Hash>)
    requires forall h :: h in hashes ==> h in c.blocks
    ensures var r := AttachedAll(c, hashes);
      && r == c.(attached := r.attached, emitted := r.emitted)
      && r.attached == c.attached + Elements(hashes)
    decreases |hashes|
  {
    if hashes != [] {
      AttachedAllEffect(AttachedOne(c, hashes[0]), hashes[1..]);
      assert Elements(hashes) == {hashes[0]} + Elements(hashes[1..]);
    }
  }

  lemma PrunedShrinks(c: Cache)
    ensures var r := Pruned(c);
      && r.blocks.Keys <= c.blocks.Keys && r.attached <= c.attached && Detached(r) <= Detached(c)
      && (forall h :: h in r.blocks ==> r.blocks[h] == c.blocks[h])
      && MinHeight(r) == MinHeight(c) && r.pruneHeight == MinHeight(c)
      && r.maxHeight == c.maxHeight && r.maxDepth == c.maxDepth && r.isEmpty == c.isEmpty && r.emitted == c.emitted
    decreases MinHeight(c) - c.pruneHeight
  {
    if c.pruneHeight < MinHeight(c) {
      PrunedShrinks(DeletedAt(c, c.pruneHeight).(pruneHeight := c.pruneHeight + 1));
    }
  }

  /** Attaching the detached blocks of a height leaves fewer detached ones: the recursion below ends. */
  lemma SweepShrinks(c: Cache, height: int)
    requires DetachedAt(c, height) != []
    ensures var next := RaisedTo(AttachedAll(c, DetachedAt(c, height)), height);
      && Detached(next) < Detached(c)
      && MinHeight(next) >= MinHeight(c)
  {
    var ds := DetachedAt(c, height);
    var a := AttachedAll(c, ds);
    AttachedAllEffect(c, ds);
    assert ds[0] in Elements(ds);
    assert ds[0] in Detached(c) && ds[0] !in Detached(a);
    if a.maxHeight < height {
      PrunedShrinks(a.(maxHeight := height));
    }
  }

  /** Attaches every detached block of this height and, if there was one, goes on with the next height. */
  function Swept(c: Cache, height: int): Cache
    decreases Detached(c)
  {
    var ds := DetachedAt(c, height);
    if ds == [] then c
    else
      SweepShrinks(c, height);
      Swept(RaisedTo(AttachedAll(c, ds), height), height + 1)
  }

  lemma SweptShrinks(c: Cache, height: int)
    ensures Detached(Swept(c, height)) <= Detached(c)
    ensures MinHeight(Swept(c, height)) >= MinHeight(c)
    ensures DetachedAt(c, height) == [] ==> Swept(c, height) == c
    ensures DetachedAt(c, height) != [] ==> Detached(Swept(c, height)) < Detached(c)
    decreases Detached(c)
  {
    if DetachedAt(c, height) != [] {
      SweepShrinks(c, height);
      SweptShrinks(RaisedTo(AttachedAll(c, DetachedAt(c, height)), height), height + 1);
    }
  }

  /** Sweeps from the minimum height, again and again as long as that moves the minimum height. */
  function SweptAtMinHeight(c: Cache): Cache
    decreases Detached(c)
  {
    var r := Swept(c, MinHeight(c));
    SweptShrinks(c, MinHeight(c));
    if MinHeight(r) > MinHeight(c) then SweptAtMinHeight(r) else r
  }

  // ---- Adding a block ----------------------------------------------------------------------------------

  function Opened(c: Cache, b: Block): Cache {
    if c.isEmpty then c.(pruneHeight := b.number, isEmpty := false) else c
  }

  /** `b` is stored, attached and emitted, the minimum height follows, and detached blocks are swept. */
  function Attaching(c: Cache, b: Block): Cache {
    SweptAtMinHeight(Swept(RaisedTo(AttachedOne(Stored(c, b), b.hash), b.number), b.number + 1))
  }

  /** The source tests for the minimum height only once a block was added. */
  function Outcome(c: Cache, b: Block): AddResult {
    if b.hash in c.attached then NotAddedAlreadyExisted
    else if !c.isEmpty && b.number < MinHeight(c) then NotAddedBlockNumberTooLow
    else if b.hash in c.blocks then NotAddedAlreadyExistedDetached
    else if CanAttach(c, b) then Added
    else AddedDetached
  }

  function AddBlock(c: Cache, b: Block): Cache {
    match Outcome(c, b)
    case Added => Attaching(Opened(c, b), b)
    case AddedDetached => Stored(Opened(c, b), b)
    case _ => c
  }
}
