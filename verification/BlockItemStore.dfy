/**
 * The store of blocks and of what is attached to them (`BlockItemStore` in src/dataEntities/block.ts): items in memory
 * with an index by height, writes collected in a batch, and the database they are written to at the end of the batch.
 */
module BlockItemStore {
  import opened Wrappers
  import opened BlockCache
  import opened BlockCacheTheorems

  /** What an item is: a block, whether it is attached, or a component's state for it. */
  datatype Kind = OfBlock | OfAttached | OfState(component: string) | OfEmittedState(component: string)

  datatype Key = Key(hash: Hash, kind: Kind)

  datatype Item<S> = TheBlock(block: Block) | TheFlag(attached: bool) | TheState(state: S)

  datatype Write<S> = Put(height: int, key: Key, item: Item<S>) | Del(height: int, key: Key)

  type Disk<S> = map<(int, Key), Item<S>>

  datatype Store<S> = Store(items: map<Key, Item<S>>, heights: map<int, seq<Key>>, batch: Option<seq<Write<S>>>,
                            disk: Disk<S>)

  function KeysAt(heights: map<int, seq<Key>>, height: int): seq<Key> {
    if height in heights then heights[height] else []
  }

  /** The effect of one write on the database. */
  function Written<S>(disk: Disk<S>, w: Write<S>): Disk<S> {
    match w
    case Put(height, key, item) => disk[(height, key) := item]
    case Del(height, key) => disk - {(height, key)}
  }

  function WrittenAll<S>(disk: Disk<S>, writes: seq<Write<S>>): Disk<S>
    decreases |writes|
  {
    if writes == [] then disk else Written(WrittenAll(disk, writes[..|writes| - 1]), writes[|writes| - 1])
  }

  /** The hashes of the blocks that a list of keys names, in order. */
  function BlocksAmong(keys: seq<Key>): seq<Hash> {
    if keys == [] then []
    else
      var last := keys[|keys| - 1];
      BlocksAmong(keys[..|keys| - 1]) + if last.kind == OfBlock then [last.hash] else []
  }

  // ---- Operations --------------------------------------------------------------------------------------

  datatype Op<S> = PutItem(height: int, key: Key, item: Item<S>) | DeleteAt(height: int)

  function PutInMemory<S>(s: Store<S>, height: int, key: Key, item: Item<S>): Store<S> {
    s.(heights := if key in KeysAt(s.heights, height) then s.heights
                  else s.heights[height := KeysAt(s.heights, height) + [key]],
       items := s.items[key := item])
  }

  function Deletions<S>(height: int, keys: seq<Key>): seq<Write<S>> {
    if keys == [] then [] else Deletions(height, keys[..|keys| - 1]) + [Del(height, keys[|keys| - 1])]
  }

  /** The new store, and whether the operation succeeded; without a batch it throws half-way. */
  function Applied<S>(s: Store<S>, op: Op<S>): (Store<S>, bool) {
    match op
    case PutItem(height, key, item) =>
      var memory := PutInMemory(s, height, key, item);
      if s.batch.None? then (memory, false)
      else (memory.(batch := Some(s.batch.value + [Put(height, key, item)])), true)
    case DeleteAt(height) =>
      if height !in s.heights then (s, true)
      else
        var keys := s.heights[height];
        var unlisted := s.(heights := s.heights - {height});
        if keys == [] then (unlisted, true)
        else if s.batch.None? then (unlisted, false)
        else (unlisted.(items := s.items - Elements(keys), batch := Some(s.batch.value + Deletions(height, keys))), true)
  }

  /** Applies operations until one of them throws. */
  function AppliedAll<S>(s: Store<S>, ops: seq<Op<S>>): (Store<S>, bool)
    decreases |ops|
  {
    if ops == [] then (s, true)
    else
      var (next, ok) := Applied(s, ops[0]);
      if ok then AppliedAll(next, ops[1..]) else (next, false)
  }

  /** How a batch ends: written, or left because the callback failed after its operations or the write failed. */
  datatype Fate = Completes | Fails

  /** `withBatch`; `false` when it rejects. */
  function WithBatch<S>(s: Store<S>, ops: seq<Op<S>>, fate: Fate): (Store<S>, bool) {
    if s.batch.Some? then (s, false)
    else
      var (after, ok) := AppliedAll(s.(batch := Some([])), ops);
      if ok && fate == Completes && after.batch.Some?
      then (after.(disk := WrittenAll(s.disk, after.batch.value), batch := None), true)
      else (after.(batch := None), false)
  }

  // ---- The invariant -----------------------------------------------------------------------------------

  /** The index lists exactly the items, each once under the height of its block. */
  ghost predicate Consistent<S>(items: map<Key, Item<S>>, heights: map<int, seq<Key>>, heightOf: Hash -> int) {
    && (forall n, k :: k in KeysAt(heights, n) <==> k in items && n == heightOf(k.hash))
    && (forall n :: NoDuplicates(KeysAt(heights, n)))
  }

  /** The database holds exactly these items, each under the height of its block. */
  ghost predicate Mirrors<S>(disk: Disk<S>, items: map<Key, Item<S>>, heightOf: Hash -> int) {
    && (forall n, k :: (n, k) in disk <==> k in items && n == heightOf(k.hash))
    && (forall n, k :: (n, k) in disk ==> disk[(n, k)] == items[k])
  }

  /** Writing the open batch now would make the database hold exactly `stored`. */
  ghost predicate Holds<S>(s: Store<S>, stored: map<Key, Item<S>>, heightOf: Hash -> int) {
    && Consistent(s.items, s.heights, heightOf)
    && Mirrors(WrittenAll(s.disk, if s.batch.Some? then s.batch.value else []), stored, heightOf)
  }

  /** Writing it would make the database hold what is in memory. */
  ghost predicate InStep<S>(s: Store<S>, heightOf: Hash -> int) {
    Holds(s, s.items, heightOf)
  }

  /** An item is only ever put at the height of its block. */
  ghost predicate Fits<S>(op: Op<S>, heightOf: Hash -> int) {
    op.PutItem? ==> op.height == heightOf(op.key.hash)
  }

  ghost predicate AllFit<S>(ops: seq<Op<S>>, heightOf: Hash -> int) {
    forall i :: 0 <= i < |ops| ==> Fits(ops[i], heightOf)
  }

  /** The keys of the items of a height. */
  ghost function KeysOf<S>(items: map<Key, Item<S>>, height: int, heightOf: Hash -> int): set<Key> {
    set k | k in items && heightOf(k.hash) == height
  }

  /** What an operation means for the items in memory. */
  ghost function ItemsAfter<S>(items: map<Key, Item<S>>, op: Op<S>, heightOf: Hash -> int): map<Key, Item<S>> {
    match op
    case PutItem(height, key, item) => items[key := item]
    case DeleteAt(height) => items - KeysOf(items, height, heightOf)
  }

  /** What it means for the stored items once it is written: only items that are in memory are deleted. */
  ghost function StoredAfter<S>(items: map<Key, Item<S>>, stored: map<Key, Item<S>>, op: Op<S>, heightOf: Hash -> int)
    : map<Key, Item<S>>
  {
    match op
    case PutItem(height, key, item) => stored[key := item]
    case DeleteAt(height) => stored - KeysOf(items, height, heightOf)
  }

  ghost function ItemsAfterAll<S>(items: map<Key, Item<S>>, ops: seq<Op<S>>, heightOf: Hash -> int): map<Key, Item<S>>
    decreases |ops|
  {
    if ops == [] then items else ItemsAfterAll(ItemsAfter(items, ops[0], heightOf), ops[1..], heightOf)
  }

  ghost function StoredAfterAll<S>(items: map<Key, Item<S>>, stored: map<Key, Item<S>>, ops: seq<Op<S>>,
                                   heightOf: Hash -> int): map<Key, Item<S>>
    decreases |ops|
  {
    if ops == [] then stored
    else StoredAfterAll(ItemsAfter(items, ops[0], heightOf), StoredAfter(items, stored, ops[0], heightOf), ops[1..], heightOf)
  }

  /** Items that are stored as they are in memory stay so. */
  lemma {:induction false} StoredLikeMemory<S>(items: map<Key, Item<S>>, ops: seq<Op<S>>, heightOf: Hash -> int)
    ensures StoredAfterAll(items, items, ops, heightOf) == ItemsAfterAll(items, ops, heightOf)
    decreases |ops|
  {
    if ops != [] {
      StoredLikeMemory(ItemsAfter(items, ops[0], heightOf), ops[1..], heightOf);
    }
  }

  lemma WrittenOneMore<S>(disk: Disk<S>, writes: seq<Write<S>>, w: Write<S>)
    ensures WrittenAll(disk, writes + [w]) == Written(WrittenAll(disk, writes), w)
  {
    assert (writes + [w])[..|writes|] == writes;
  }

  lemma PutKeepsConsistent<S>(items: map<Key, Item<S>>, heights: map<int, seq<Key>>, key: Key, item: Item<S>,
                              heightOf: Hash -> int)
    requires Consistent(items, heights, heightOf)
    ensures var n := heightOf(key.hash);
      && (key in KeysAt(heights, n) ==> Consistent(items[key := item], heights, heightOf))
      && (key !in KeysAt(heights, n) ==> Consistent(items[key := item], heights[n := KeysAt(heights, n) + [key]], heightOf))
  {
    var n := heightOf(key.hash);
    var more := heights[n := KeysAt(heights, n) + [key]];
    forall m ensures KeysAt(more, m) == if m == n then KeysAt(heights, n) + [key] else KeysAt(heights, m) {}
    assert forall m :: NoDuplicates(KeysAt(heights, m));
  }

  lemma PutKeeps<S>(s: Store<S>, stored: map<Key, Item<S>>, height: int, key: Key, item: Item<S>, heightOf: Hash -> int)
    requires Holds(s, stored, heightOf) && s.batch.Some? && height == heightOf(key.hash)
    ensures Holds(Applied(s, PutItem(height, key, item)).0, stored[key := item], heightOf)
  {
    WrittenOneMore(s.disk, s.batch.value, Put(height, key, item));
    PutKeepsConsistent(s.items, s.heights, key, item, heightOf);
    hide Consistent, WrittenAll;
  }

  lemma {:induction false} WrittenDeletions<S>(disk: Disk<S>, writes: seq<Write<S>>, height: int, keys: seq<Key>)
    ensures var d := WrittenAll(disk, writes + Deletions(height, keys));
      && (forall n, k :: (n, k) in d <==> (n, k) in WrittenAll(disk, writes) && !(n == height && k in keys))
      && (forall n, k :: (n, k) in d ==> d[(n, k)] == WrittenAll(disk, writes)[(n, k)])
    decreases |keys|
  {
    if keys == [] {
      assert writes + Deletions<S>(height, keys) == writes;
    } else {
      var last, rest := keys[|keys| - 1], keys[..|keys| - 1];
      WrittenDeletions(disk, writes, height, rest);
      WrittenOneMore(disk, writes + Deletions(height, rest), Del(height, last));
      assert writes + Deletions<S>(height, keys) == (writes + Deletions(height, rest)) + [Del(height, last)];
      assert keys == rest + [last];
    }
  }

  lemma DeleteKeepsConsistent<S>(items: map<Key, Item<S>>, heights: map<int, seq<Key>>, height: int, heightOf: Hash -> int)
    requires Consistent(items, heights, heightOf)
    ensures Consistent(items - Elements(KeysAt(heights, height)), heights - {height}, heightOf)
    ensures Elements(KeysAt(heights, height)) == KeysOf(items, height, heightOf)
  {
    var less := heights - {height};
    var gone := Elements(KeysAt(heights, height));
    forall n ensures KeysAt(less, n) == if n == height then [] else KeysAt(heights, n) {}
    assert forall n :: NoDuplicates(KeysAt(heights, n));
    forall n, k ensures k in KeysAt(less, n) <==> k in items - gone && n == heightOf(k.hash) {
      assert k in gone <==> k in KeysAt(heights, height);
      assert k in KeysAt(heights, n) <==> k in items && n == heightOf(k.hash);
    }
  }

  /** Writing the deletions of a height leaves what is stored besides these keys. */
  lemma DeletionsMirror<S>(disk: Disk<S>, writes: seq<Write<S>>, stored: map<Key, Item<S>>, height: int, keys: seq<Key>,
                           heightOf: Hash -> int)
    requires Mirrors(WrittenAll(disk, writes), stored, heightOf) && forall k :: k in keys ==> heightOf(k.hash) == height
    ensures Mirrors(WrittenAll(disk, writes + Deletions(height, keys)), stored - Elements(keys), heightOf)
  {
    WrittenDeletions(disk, writes, height, keys);
    hide WrittenAll;
  }

  lemma DeleteKeeps<S>(s: Store<S>, stored: map<Key, Item<S>>, height: int, heightOf: Hash -> int)
    requires Holds(s, stored, heightOf) && s.batch.Some?
    ensures Applied(s, DeleteAt(height)).0.items == s.items - KeysOf(s.items, height, heightOf)
    ensures Holds(Applied(s, DeleteAt(height)).0, stored - KeysOf(s.items, height, heightOf), heightOf)
  {
    var keys := KeysAt(s.heights, height);
    assert forall k :: k in keys ==> heightOf(k.hash) == height;
    DeleteKeepsConsistent(s.items, s.heights, height, heightOf);
    DeletionsMirror(s.disk, s.batch.value, stored, height, keys, heightOf);
    hide WrittenAll, NoDuplicates, Mirrors, Consistent, KeysOf;
    if keys == [] {
      assert Elements(keys) == {} && s.items - {} == s.items && stored - {} == stored;
      assert s.batch.value + Deletions<S>(height, keys) == s.batch.value;
    }
    assert height !in s.heights ==> s.heights - {height} == s.heights;
  }

  lemma OpKeeps<S>(s: Store<S>, stored: map<Key, Item<S>>, op: Op<S>, heightOf: Hash -> int)
    requires Holds(s, stored, heightOf) && s.batch.Some? && Fits(op, heightOf)
    ensures var (t, ok) := Applied(s, op);
      && ok && t.batch.Some? && t.disk == s.disk && t.items == ItemsAfter(s.items, op, heightOf)
      && Holds(t, StoredAfter(s.items, stored, op, heightOf), heightOf)
  {
    match op
    case PutItem(height, key, item) => PutKeeps(s, stored, height, key, item, heightOf);
    case DeleteAt(height) => DeleteKeeps(s, stored, height, heightOf);
  }

  lemma {:induction false} OpsKeep<S>(s: Store<S>, stored: map<Key, Item<S>>, ops: seq<Op<S>>, heightOf: Hash -> int)
    requires Holds(s, stored, heightOf) && s.batch.Some? && AllFit(ops, heightOf)
    ensures var (t, ok) := AppliedAll(s, ops);
      && ok && t.batch.Some? && t.disk == s.disk && t.items == ItemsAfterAll(s.items, ops, heightOf)
      && Holds(t, StoredAfterAll(s.items, stored, ops, heightOf), heightOf)
    decreases |ops|
  {
    hide Holds, Applied, ItemsAfter, StoredAfter, Fits;
    if ops != [] {
      assert Fits(ops[0], heightOf);
      OpKeeps(s, stored, ops[0], heightOf);
      forall i | 0 <= i < |ops[1..]| ensures Fits(ops[1..][i], heightOf) {
        assert Fits(ops[i + 1], heightOf);
      }
      OpsKeep(Applied(s, ops[0]).0, StoredAfter(s.items, stored, ops[0], heightOf), ops[1..], heightOf);
    }
  }

  // ---- Batches -----------------------------------------------------------------------------------------

  /** The items in memory and those in the database. */
  datatype Contents<S> = Contents(items: map<Key, Item<S>>, stored: map<Key, Item<S>>)

  /** A store between two batches with these items in memory and in the database. */
  ghost predicate Has<S>(s: Store<S>, c: Contents<S>, heightOf: Hash -> int) {
    && s.batch.None? && s.items == c.items
    && Consistent(s.items, s.heights, heightOf) && Mirrors(s.disk, c.stored, heightOf)
  }

  /** A batch always reaches the memory, and the database exactly if it completes. */
  ghost function AfterBatch<S>(c: Contents<S>, ops: seq<Op<S>>, fate: Fate, heightOf: Hash -> int): Contents<S> {
    Contents(ItemsAfterAll(c.items, ops, heightOf),
             if fate == Completes then StoredAfterAll(c.items, c.stored, ops, heightOf) else c.stored)
  }

  /** Whatever happened before, a batch means for memory and database what it should, and rejects exactly if it fails. */
  lemma BatchMeans<S>(s: Store<S>, c: Contents<S>, ops: seq<Op<S>>, fate: Fate, heightOf: Hash -> int)
    requires Has(s, c, heightOf) && AllFit(ops, heightOf)
    ensures Has(WithBatch(s, ops, fate).0, AfterBatch(c, ops, fate, heightOf), heightOf)
    ensures WithBatch(s, ops, fate).1 == (fate == Completes)
  {
    OpsKeep(s.(batch := Some([])), c.stored, ops, heightOf);
    hide AppliedAll, Consistent, Mirrors, ItemsAfterAll, StoredAfterAll;
  }

  lemma SameContents<S>(disk: Disk<S>, items: map<Key, Item<S>>, others: map<Key, Item<S>>, heightOf: Hash -> int)
    requires Mirrors(disk, items, heightOf) && Mirrors(disk, others, heightOf)
    ensures items == others
  {
    forall k ensures k in items <==> k in others {
      MirroredItem(disk, items, heightOf, k);
      MirroredItem(disk, others, heightOf, k);
    }
    forall k | k in items ensures items[k] == others[k] {
      MirroredItem(disk, items, heightOf, k);
      MirroredItem(disk, others, heightOf, k);
    }
  }

  lemma InStepIff<S>(s: Store<S>, c: Contents<S>, heightOf: Hash -> int)
    requires Has(s, c, heightOf)
    ensures InStep(s, heightOf) <==> c.items == c.stored
  {
    assert WrittenAll(s.disk, []) == s.disk;
    if InStep(s, heightOf) {
      SameContents(s.disk, c.items, c.stored, heightOf);
    }
  }

  /**
   * From a memory that the database mirrors, a batch that completes is mirrored in turn. After one that fails, the
   * database is unchanged, and still mirrors the memory if and only if the operations changed nothing.
   */
  lemma BatchIsAtomic<S>(s: Store<S>, ops: seq<Op<S>>, fate: Fate, heightOf: Hash -> int)
    requires InStep(s, heightOf) && s.batch.None? && AllFit(ops, heightOf)
    ensures var (t, ok) := WithBatch(s, ops, fate);
      && ok == (fate == Completes)
      && t.items == ItemsAfterAll(s.items, ops, heightOf)
      && (ok ==> InStep(t, heightOf))
      && (!ok ==> t.disk == s.disk && (InStep(t, heightOf) <==> ItemsAfterAll(s.items, ops, heightOf) == s.items))
  {
    var c := Contents(s.items, s.items);
    assert WrittenAll(s.disk, []) == s.disk;
    assert Has(s, c, heightOf);
    BatchMeans(s, c, ops, fate, heightOf);
    StoredLikeMemory(s.items, ops, heightOf);
    InStepIff(WithBatch(s, ops, fate).0, AfterBatch(c, ops, fate, heightOf), heightOf);
    FailingKeepsDisk(s, ops, fate);
  }

  lemma {:induction false} FailingKeepsDisk<S>(s: Store<S>, ops: seq<Op<S>>, fate: Fate)
    ensures !WithBatch(s, ops, fate).1 ==> WithBatch(s, ops, fate).0.disk == s.disk
  {
    OpsKeepDisk(s.(batch := Some([])), ops);
  }

  lemma {:induction false} OpsKeepDisk<S>(s: Store<S>, ops: seq<Op<S>>)
    ensures AppliedAll(s, ops).0.disk == s.disk
    decreases |ops|
  {
    if ops != [] && Applied(s, ops[0]).1 {
      OpsKeepDisk(Applied(s, ops[0]).0, ops[1..]);
    }
  }

  // ---- Restarting --------------------------------------------------------------------------------------

  lemma MirroredItem<S>(disk: Disk<S>, items: map<Key, Item<S>>, heightOf: Hash -> int, k: Key)
    requires Mirrors(disk, items, heightOf)
    ensures (heightOf(k.hash), k) in disk <==> k in items
    ensures k in items ==> disk[(heightOf(k.hash), k)] == items[k]
  {
    var n := heightOf(k.hash);
    assert (n, k) in disk <==> k in items && n == heightOf(k.hash);
  }

  /** Whatever the order of the records, a restart gives back the items and the index of the mirrored memory. */
  lemma RestartRebuildsMemory<S>(s: Store<S>, items: map<Key, Item<S>>, heights: map<int, seq<Key>>, heightOf: Hash -> int)
    requires Consistent(s.items, s.heights, heightOf) && Mirrors(s.disk, s.items, heightOf)
    requires Consistent(items, heights, heightOf) && Mirrors(s.disk, items, heightOf)
    ensures items == s.items
    ensures forall n, k :: k in KeysAt(heights, n) <==> k in KeysAt(s.heights, n)
    ensures InStep(Store(items, heights, None, s.disk), heightOf)
  {
    SameContents(s.disk, items, s.items, heightOf);
    forall n, k ensures k in KeysAt(heights, n) <==> k in KeysAt(s.heights, n) {
      assert k in KeysAt(heights, n) <==> k in items && n == heightOf(k.hash);
      assert k in KeysAt(s.heights, n) <==> k in items && n == heightOf(k.hash);
    }
  }

  // ---- The blocks of a height --------------------------------------------------------------------------

  lemma {:induction false} BlocksAmongExactly(keys: seq<Key>)
    requires NoDuplicates(keys)
    ensures NoDuplicates(BlocksAmong(keys))
    ensures forall h :: h in BlocksAmong(keys) <==> Key(h, OfBlock) in keys
    decreases |keys|
  {
    if keys != [] {
      var (n, rest) := (|keys| - 1, keys[..|keys| - 1]);
      assert keys == rest + [keys[n]];
      BlocksAmongExactly(rest);
    }
  }

  /** Asking for the blocks of a height gives every block stored there, once, and nothing else that is kept for a block. */
  lemma BlocksOfHeight<S>(s: Store<S>, height: int, heightOf: Hash -> int)
    requires Consistent(s.items, s.heights, heightOf)
    ensures NoDuplicates(BlocksAmong(KeysAt(s.heights, height)))
    ensures forall h :: h in BlocksAmong(KeysAt(s.heights, height)) <==> Key(h, OfBlock) in s.items && heightOf(h) == height
  {
    assert NoDuplicates(KeysAt(s.heights, height));
    BlocksAmongExactly(KeysAt(s.heights, height));
    forall h ensures Key(h, OfBlock) in KeysAt(s.heights, height) <==> Key(h, OfBlock) in s.items && heightOf(h) == height {}
  }

  // ---- Runs of batches, failures and restarts ----------------------------------------------------------

  /** A batch, how it ends, and whether the store is restarted from its database afterwards. */
  datatype Batch<S> = Batch(ops: seq<Op<S>>, fate: Fate, restarted: bool)

  ghost function AfterOne<S>(c: Contents<S>, b: Batch<S>, heightOf: Hash -> int): Contents<S> {
    var d := AfterBatch(c, b.ops, b.fate, heightOf);
    if b.restarted then Contents(d.stored, d.stored) else d
  }

  ghost function AfterAll<S>(c: Contents<S>, batches: seq<Batch<S>>, heightOf: Hash -> int): Contents<S>
    decreases |batches|
  {
    if batches == [] then c else AfterAll(AfterOne(c, batches[0], heightOf), batches[1..], heightOf)
  }

  ghost predicate Next<S>(s: Store<S>, b: Batch<S>, t: Store<S>, heightOf: Hash -> int) {
    var after := WithBatch(s, b.ops, b.fate).0;
    if b.restarted then t.disk == after.disk && t.batch.None? && InStep(t, heightOf) else t == after
  }

  /** `stores` are the states between the batches. The processor goes on after a failing batch, without a restart. */
  ghost predicate IsRun<S>(stores: seq<Store<S>>, batches: seq<Batch<S>>, heightOf: Hash -> int) {
    && |stores| == |batches| + 1
    && (forall i :: 0 <= i < |batches| ==> AllFit(batches[i].ops, heightOf))
    && (forall i :: 0 <= i < |batches| ==> Next(stores[i], batches[i], stores[i + 1], heightOf))
  }

  lemma OneBatch<S>(s: Store<S>, c: Contents<S>, b: Batch<S>, t: Store<S>, heightOf: Hash -> int)
    requires Has(s, c, heightOf) && AllFit(b.ops, heightOf) && Next(s, b, t, heightOf)
    ensures Has(t, AfterOne(c, b, heightOf), heightOf)
  {
    BatchMeans(s, c, b.ops, b.fate, heightOf);
    hide WithBatch, AfterBatch;
    if b.restarted {
      assert WrittenAll(t.disk, []) == t.disk;
      SameContents(t.disk, t.items, AfterBatch(c, b.ops, b.fate, heightOf).stored, heightOf);
    }
  }

  /** In every run of batches that complete or fail, with restarts or without, memory and database hold what they should. */
  lemma {:induction false} RunMeans<S>(stores: seq<Store<S>>, c: Contents<S>, batches: seq<Batch<S>>, heightOf: Hash -> int)
    requires IsRun(stores, batches, heightOf) && Has(stores[0], c, heightOf)
    ensures Has(stores[|batches|], AfterAll(c, batches, heightOf), heightOf)
    decreases |batches|
  {
    if batches != [] {
      hide Has, WithBatch, AfterOne, Next, AllFit;
      assert Next(stores[0], batches[0], stores[1], heightOf) && AllFit(batches[0].ops, heightOf);
      OneBatch(stores[0], c, batches[0], stores[1], heightOf);
      forall i | 0 <= i < |batches[1..]| ensures Next(stores[1..][i], batches[1..][i], stores[1..][i + 1], heightOf) {
        assert Next(stores[i + 1], batches[i + 1], stores[i + 2], heightOf);
      }
      forall i | 0 <= i < |batches[1..]| ensures AllFit(batches[1..][i].ops, heightOf) {
        assert AllFit(batches[i + 1].ops, heightOf);
      }
      RunMeans(stores[1..], AfterOne(c, batches[0], heightOf), batches[1..], heightOf);
    }
  }

  /** The items when the batches that fail had never been begun. */
  ghost function Surviving<S>(items: map<Key, Item<S>>, batches: seq<Batch<S>>, heightOf: Hash -> int): map<Key, Item<S>>
    decreases |batches|
  {
    if batches == [] then items
    else
      var b := batches[0];
      Surviving(if b.fate == Completes then ItemsAfterAll(items, b.ops, heightOf) else items, batches[1..], heightOf)
  }

  /** A failing batch does no harm when the store is restarted after it, or when it changed nothing. */
  ghost predicate FailuresHarmless<S>(items: map<Key, Item<S>>, batches: seq<Batch<S>>, heightOf: Hash -> int)
    decreases |batches|
  {
    batches == [] ||
      (var (b, after) := (batches[0], ItemsAfterAll(items, batches[0].ops, heightOf));
       && (b.fate == Fails ==> b.restarted || after == items)
       && FailuresHarmless(if b.fate == Completes then after else items, batches[1..], heightOf))
  }

  lemma {:induction false} HarmlessMeans<S>(items: map<Key, Item<S>>, batches: seq<Batch<S>>, heightOf: Hash -> int)
    requires FailuresHarmless(items, batches, heightOf)
    ensures var survivors := Surviving(items, batches, heightOf);
      AfterAll(Contents(items, items), batches, heightOf) == Contents(survivors, survivors)
    decreases |batches|
  {
    hide ItemsAfterAll, StoredAfterAll;
    if batches != [] {
      var b := batches[0];
      StoredLikeMemory(items, b.ops, heightOf);
      var next := if b.fate == Completes then ItemsAfterAll(items, b.ops, heightOf) else items;
      assert AfterOne(Contents(items, items), b, heightOf) == Contents(next, next);
      HarmlessMeans(next, batches[1..], heightOf);
    }
  }

  /**
   * As long as each failing batch is followed by a restart, or changed nothing, memory and database hold the same items:
   * those of the completed batches, as if the failing ones had never been begun.
   */
  lemma FailuresLeaveNoTrace<S>(stores: seq<Store<S>>, batches: seq<Batch<S>>, heightOf: Hash -> int)
    requires IsRun(stores, batches, heightOf) && stores[0].batch.None? && InStep(stores[0], heightOf)
    requires FailuresHarmless(stores[0].items, batches, heightOf)
    ensures var last := stores[|batches|];
      InStep(last, heightOf) && last.batch.None? && last.items == Surviving(stores[0].items, batches, heightOf)
  {
    var c := Contents(stores[0].items, stores[0].items);
    assert WrittenAll(stores[0].disk, []) == stores[0].disk;
    assert Has(stores[0], c, heightOf);
    hide IsRun, Surviving, FailuresHarmless, WrittenAll, AfterAll, InStep;
    RunMeans(stores, c, batches, heightOf);
    HarmlessMeans(stores[0].items, batches, heightOf);
    InStepIff(stores[|batches|], AfterAll(c, batches, heightOf), heightOf);
  }

  /** The first failing batch that changes something and is not followed by a restart leaves the memory ahead. */
  lemma FirstHarm<S>(stores: seq<Store<S>>, batches: seq<Batch<S>>, b: Batch<S>, t: Store<S>, heightOf: Hash -> int)
    requires IsRun(stores, batches, heightOf) && stores[0].batch.None? && InStep(stores[0], heightOf)
    requires FailuresHarmless(stores[0].items, batches, heightOf)
    requires AllFit(b.ops, heightOf) && b.fate == Fails && !b.restarted && Next(stores[|batches|], b, t, heightOf)
    ensures var items := stores[|batches|].items;
      InStep(t, heightOf) <==> ItemsAfterAll(items, b.ops, heightOf) == items
  {
    assert |stores| == |batches| + 1;
    hide IsRun, Surviving, FailuresHarmless, InStep, ItemsAfterAll;
    FailuresLeaveNoTrace(stores, batches, heightOf);
    BatchIsAtomic(stores[|batches|], b.ops, b.fate, heightOf);
  }

  // ---- The store as an object --------------------------------------------------------------------------

  class ItemStore<S> {
    var items: map<Key, Item<S>>
    var heights: map<int, seq<Key>>
    var batch: Option<seq<Write<S>>>
    var disk: Disk<S>

    function State(): Store<S>
      reads this
    {
      Store(items, heights, batch, disk)
    }

    constructor (disk: Disk<S>)
      ensures State() == Store(map[], map[], None, disk)
    {
      items, heights, batch, this.disk := map[], map[], None, disk;
    }

    /** Reads the records of the database one by one, in any order. */
    method StartInternal(ghost heightOf: Hash -> int)
      requires items == map[] && heights == map[] && batch == None
      requires FitsDisk(disk, heightOf)
      modifies this`items, this`heights
      ensures Consistent(items, heights, heightOf) && Mirrors(disk, items, heightOf)
    {
      hide Consistent, Mirrors, FitsDisk;
      var records := disk.Keys;
      NothingLoaded(disk, heightOf);
      while records != {}
        invariant records <= disk.Keys
        invariant Consistent(items, heights, heightOf) && Mirrors(disk - records, items, heightOf)
        decreases |records|
      {
        var record :| record in records;
        var (height, memKey) := record;
        LoadStep(items, heights, disk, records, height, memKey, heightOf);
        records := records - {record};
        if memKey !in KeysAt(heights, height) {
          heights := heights[height := KeysAt(heights, height) + [memKey]];
        }
        items := items[memKey := disk[record]];
      }
      assert disk - records == disk;
    }

    method PutBlockItem(height: int, key: Key, item: Item<S>) returns (ok: bool)
      modifies this
      ensures (State(), ok) == Applied(old(State()), PutItem(height, key, item))
    {
      if key !in KeysAt(heights, height) {
        heights := heights[height := KeysAt(heights, height) + [key]];
      }
      items := items[key := item];
      if batch.None? { return false; }
      batch := Some(batch.value + [Put(height, key, item)]);
      return true;
    }

    /** Deletes each item of a height from memory and adds its deletion to the batch. */
    method DeleteItemsAtHeight(height: int) returns (ok: bool)
      modifies this
      ensures (State(), ok) == Applied(old(State()), DeleteAt(height))
    {
      if height !in heights { return true; }
      var keys := heights[height];
      heights := heights - {height};
      ghost var was := items;
      ghost var writes := if batch.Some? then batch.value else [];
      assert writes + Deletions<S>(height, keys[..0]) == writes;
      for i := 0 to |keys|
        invariant items == was - Elements(keys[..i]) && disk == old(disk) && heights == old(heights) - {height}
        invariant i > 0 ==> old(batch).Some?
        invariant if old(batch).None? then batch == None else batch == Some(writes + Deletions(height, keys[..i]))
      {
        if batch.None? { return false; }
        OneMoreDeletion(was, writes, height, keys, i);
        batch := Some(batch.value + [Del(height, keys[i])]);
        items := items - {keys[i]};
      }
      assert keys[..|keys|] == keys;
      return true;
    }

    function GetItem(hash: Hash, kind: Kind): Option<Item<S>>
      reads this
    {
      if Key(hash, kind) in items then Some(items[Key(hash, kind)]) else None
    }

    /** The blocks of a height in the order of the index, each with its flag, if it has one. */
    method GetBlocksAtHeight(height: int) returns (blocks: seq<(Hash, Option<Item<S>>)>)
      ensures blocks == seq(|BlocksAmong(KeysAt(heights, height))|,
        i requires 0 <= i < |BlocksAmong(KeysAt(heights, height))| reads this =>
          var hash := BlocksAmong(KeysAt(heights, height))[i]; (hash, GetItem(hash, OfAttached)))
    {
      var keys := KeysAt(heights, height);
      blocks := [];
      for i := 0 to |keys|
        invariant |blocks| == |BlocksAmong(keys[..i])|
        invariant forall j :: 0 <= j < |blocks| ==>
          blocks[j] == (BlocksAmong(keys[..i])[j], GetItem(BlocksAmong(keys[..i])[j], OfAttached))
      {
        assert keys[..i + 1][..i] == keys[..i];
        if keys[i].kind == OfBlock {
          blocks := blocks + [(keys[i].hash, GetItem(keys[i].hash, OfAttached))];
        }
      }
      assert keys[..|keys|] == keys;
    }

    /** Opens a batch, unless one is open already. */
    method OpenBatch() returns (ok: bool)
      modifies this`batch
      ensures ok == old(batch).None? && batch == if ok then Some([]) else old(batch)
    {
      ok := batch.None?;
      if ok { batch := Some([]); }
    }

    /** Writes the batch at once, or drops it. */
    method CloseBatch(succeeds: bool) returns (ok: bool)
      requires batch.Some?
      modifies this`batch, this`disk
      ensures batch == None && ok == succeeds
      ensures disk == if ok then WrittenAll(old(disk), old(batch).value) else old(disk)
    {
      if succeeds { disk := WrittenAll(disk, batch.value); }
      batch := None;
      ok := succeeds;
    }

    method Perform(op: Op<S>) returns (ok: bool)
      modifies this
      ensures (State(), ok) == Applied(old(State()), op)
    {
      match op
      case PutItem(height, key, item) => ok := PutBlockItem(height, key, item);
      case DeleteAt(height) => ok := DeleteItemsAtHeight(height);
    }

    method WithBatchOf(ops: seq<Op<S>>, fate: Fate) returns (ok: bool)
      modifies this
      ensures (State(), ok) == WithBatch(old(State()), ops, fate)
    {
      var open := OpenBatch();
      if !open { return false; }
      ghost var start := State();
      var going := true;
      var i := 0;
      while i < |ops| && going
        invariant 0 <= i <= |ops|
        invariant going ==> AppliedAll(start, ops) == AppliedAll(State(), ops[i..])
        invariant !going ==> AppliedAll(start, ops) == (State(), false)
        invariant disk == old(disk) && batch.Some?
      {
        assert ops[i..][0] == ops[i] && ops[i..][1..] == ops[i + 1..];
        going := Perform(ops[i]);
        i := i + 1;
      }
      ok := CloseBatch(going && fate == Completes);
    }
  }

  lemma OneMoreDeletion<S>(items: map<Key, Item<S>>, writes: seq<Write<S>>, height: int, keys: seq<Key>, i: nat)
    requires i < |keys|
    ensures writes + Deletions(height, keys[..i + 1]) == (writes + Deletions(height, keys[..i])) + [Del(height, keys[i])]
    ensures items - Elements(keys[..i + 1]) == (items - Elements(keys[..i])) - {keys[i]}
  {
    assert keys[..i + 1] == keys[..i] + [keys[i]];
    assert keys[..i + 1][..i] == keys[..i];
    assert Elements(keys[..i + 1]) == Elements(keys[..i]) + {keys[i]};
  }

  ghost predicate FitsDisk<S>(disk: Disk<S>, heightOf: Hash -> int) {
    forall n, k :: (n, k) in disk ==> n == heightOf(k.hash)
  }

  lemma NothingLoaded<S>(disk: Disk<S>, heightOf: Hash -> int)
    ensures Consistent<S>(map[], map[], heightOf) && Mirrors(disk - disk.Keys, map[], heightOf)
  {
    assert disk - disk.Keys == map[];
  }

  lemma LoadStep<S>(items: map<Key, Item<S>>, heights: map<int, seq<Key>>, disk: Disk<S>, records: set<(int, Key)>, n: int,
                    k: Key, heightOf: Hash -> int)
    requires FitsDisk(disk, heightOf) && Consistent(items, heights, heightOf) && Mirrors(disk - records, items, heightOf)
    requires (n, k) in records && (n, k) in disk
    ensures n == heightOf(k.hash)
    ensures Mirrors(disk - (records - {(n, k)}), items[k := disk[(n, k)]], heightOf)
    ensures var item := disk[(n, k)];
      if k in KeysAt(heights, n) then Consistent(items[k := item], heights, heightOf)
      else Consistent(items[k := item], heights[n := KeysAt(heights, n) + [k]], heightOf)
  {
    assert n == heightOf(k.hash);
    PutKeepsConsistent(items, heights, k, disk[(n, k)], heightOf);
    hide Consistent;
    assert disk - (records - {(n, k)}) == (disk - records)[(n, k) := disk[(n, k)]];
  }
}
