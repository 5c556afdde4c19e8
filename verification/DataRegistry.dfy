/**
 * The on-chain data registry (sol/contracts/DataRegistry.sol): two shards of records that are killed and created anew
 * when they are accessed at an age of two intervals or more.
 */
module DataRegistry {

  const WORD: nat := 0x1_0000000000000000_0000000000000000_0000000000000000_0000000000000000
  const INTERVAL: nat := 500
  const TOTAL_SHARDS: nat := 2

  /** A 256-bit unsigned integer. */
  type Word = x: nat | x < WORD witness 0

  function Plus(a: Word, b: Word): Word {
    (a + b) % WORD
  }

  function Minus(a: Word, b: Word): Word {
    (a - b) % WORD
  }

  type Address = nat

  /** `records` holds the list of each pair of a contract and an identifier; a missing list is an empty one. */
  datatype Shard<Key(==), Data> = Shard(creationBlock: Word, records: map<(Address, Key), seq<Data>>)

  type Shards<Key(==), Data> = map<nat, Shard<Key, Data>>

  function ShardIndex(block: Word): (i: nat)
    ensures i < TOTAL_SHARDS
  {
    (block / INTERVAL) % TOTAL_SHARDS
  }

  function RecordsOf<Key(==), Data>(s: Shard<Key, Data>, sc: Address, key: Key): seq<Data> {
    if (sc, key) in s.records then s.records[(sc, key)] else []
  }

  /** Deploying at `block` creates the shard of this interval and, dated ahead, the one of the next. */
  function Deployed<Key(==), Data>(block: Word): Shards<Key, Data> {
    map[ShardIndex(block) := Shard(block, map[]),
        ShardIndex(Plus(block, INTERVAL)) := Shard(Plus(block, INTERVAL), map[])]
  }

  predicate Expired(now: Word, creationBlock: Word) {
    Minus(now, creationBlock) >= INTERVAL * 2
  }

  function Reset<Key(==), Data>(shards: Shards<Key, Data>, now: Word, i: nat): Shards<Key, Data>
    requires i in shards
  {
    if Expired(now, shards[i].creationBlock) then shards[i := Shard(now, map[])] else shards
  }

  /** Reading resets the shard as well. */
  function Fetched<Key(==), Data>(shards: Shards<Key, Data>, now: Word, i: nat, sc: Address, key: Key)
    : (Shards<Key, Data>, seq<Data>)
  {
    if i in shards then
      var after := Reset(shards, now, i);
      (after, RecordsOf(after[i], sc, key))
    else (shards, [])
  }

  function Recorded<Key(==), Data>(shards: Shards<Key, Data>, now: Word, sender: Address, key: Key, data: Data)
    : Shards<Key, Data>
    requires ShardIndex(now) in shards
  {
    var i := ShardIndex(now);
    var after := Reset(shards, now, i);
    after[i := after[i].(records := after[i].records[(sender, key) := RecordsOf(after[i], sender, key) + [data]])]
  }

  // ---- Runs --------------------------------------------------------------------------------------------

  /** An access by anyone, at a block. */
  datatype Access<Key(==), Data> =
    | Set(block: Word, sender: Address, key: Key, data: Data)
    | Fetch(block: Word, shard: nat, sc: Address, key: Key)

  function AfterAccess<Key(==), Data>(shards: Shards<Key, Data>, a: Access<Key, Data>): Shards<Key, Data>
    requires forall i :: 0 <= i < TOTAL_SHARDS ==> i in shards
    ensures forall i :: 0 <= i < TOTAL_SHARDS ==> i in AfterAccess(shards, a)
  {
    match a
    case Set(now, sender, key, data) => Recorded(shards, now, sender, key, data)
    case Fetch(now, i, sc, key) => Fetched(shards, now, i, sc, key).0
  }

  ghost predicate Complete<Key, Data>(shards: Shards<Key, Data>) {
    forall i :: 0 <= i < TOTAL_SHARDS ==> i in shards
  }

  function AfterAll<Key(==), Data>(shards: Shards<Key, Data>, run: seq<Access<Key, Data>>): Shards<Key, Data>
    requires Complete(shards)
    ensures Complete(AfterAll(shards, run))
    decreases |run|
  {
    if run == [] then shards else AfterAll(AfterAccess(shards, run[0]), run[1..])
  }

  /** Whichever block a registry is deployed at, it starts with both shards. */
  lemma DeployedHasBothShards<Key, Data>(block: Word)
    requires block + INTERVAL < WORD
    ensures Complete(Deployed<Key, Data>(block))
    ensures ShardIndex(block) != ShardIndex(Plus(block, INTERVAL))
  {
    assert (block + INTERVAL) / INTERVAL == block / INTERVAL + 1;
  }

  /** A shard expires from two intervals after its creation on, and at any block before its creation. */
  lemma ExpiresIff(now: Word, creationBlock: Word)
    requires now < WORD - INTERVAL * 2 && creationBlock < WORD - INTERVAL * 2
    ensures Expired(now, creationBlock) <==> now < creationBlock || now >= creationBlock + INTERVAL * 2
  {
    if now < creationBlock {
      assert (now - creationBlock) % WORD == now - creationBlock + WORD;
    }
  }

  /** The shard dated ahead by the constructor is replaced by the first access before its date. */
  lemma DatedAheadIsReplaced<Key, Data>(block: Word, now: Word, sc: Address, key: Key)
    requires block < WORD / 2 && block <= now < block + INTERVAL
    ensures Complete(Deployed<Key, Data>(block))
    ensures var i := ShardIndex(Plus(block, INTERVAL));
      Fetched(Deployed<Key, Data>(block), now, i, sc, key).0[i].creationBlock == now
  {
    DeployedHasBothShards<Key, Data>(block);
    ExpiresIff(now, block + INTERVAL);
  }

  // ---- How long a record lives -------------------------------------------------------------------------

  /** Shard `i`, created at `c`, holds this record. */
  ghost predicate Holds<Key, Data>(shards: Shards<Key, Data>, i: nat, c: Word, sc: Address, key: Key, data: Data) {
    i in shards && shards[i].creationBlock == c && data in RecordsOf(shards[i], sc, key)
  }

  /** All shards were created long before the block numbers run out. */
  ghost predicate Sane<Key, Data>(shards: Shards<Key, Data>) {
    Complete(shards) && forall i :: i in shards ==> shards[i].creationBlock < WORD / 2
  }

  /** Shards that hold records were created by `block`: only empty ones are dated ahead. */
  ghost predicate Dated<Key, Data>(shards: Shards<Key, Data>, block: Word) {
    forall i :: i in shards && shards[i].records != map[] ==> shards[i].creationBlock <= block
  }

  lemma DeployedIsDated<Key, Data>(block: Word)
    requires block + INTERVAL < WORD / 2
    ensures Sane(Deployed<Key, Data>(block)) && Dated(Deployed<Key, Data>(block), block)
  {
    DeployedHasBothShards<Key, Data>(block);
  }

  lemma AccessKeepsDated<Key, Data>(shards: Shards<Key, Data>, a: Access<Key, Data>, block: Word)
    requires Sane(shards) && Dated(shards, block) && block <= a.block < WORD / 2
    ensures Sane(AfterAccess(shards, a)) && Dated(AfterAccess(shards, a), a.block)
  {
    var i := if a.Set? then ShardIndex(a.block) else a.shard;
    if i in shards {
      ExpiresIff(a.block, shards[i].creationBlock);
    }
  }

  /** A record just set is the last one of its list, in a shard that has not expired. */
  lemma RecordedIsHeld<Key, Data>(shards: Shards<Key, Data>, now: Word, sender: Address, key: Key, data: Data)
    requires Sane(shards) && now < WORD / 2
    ensures var after := Recorded(shards, now, sender, key, data);
      && Sane(after)
      && var i := ShardIndex(now);
      && var c := after[i].creationBlock;
      && c <= now < c + INTERVAL * 2
      && Holds(after, i, c, sender, key, data)
      && var list := RecordsOf(after[i], sender, key);
      && list[|list| - 1] == data
      && (shards[i].creationBlock == c ==> list == RecordsOf(shards[i], sender, key) + [data])
      && (shards[i].creationBlock != c ==> c == now && list == [data])
      && (forall sc: Address, k: Key :: (sc, k) != (sender, key) && shards[i].creationBlock == c ==>
            RecordsOf(after[i], sc, k) == RecordsOf(shards[i], sc, k))
  {
    var i := ShardIndex(now);
    ExpiresIff(now, shards[i].creationBlock);
    var list := RecordsOf(Recorded(shards, now, sender, key, data)[i], sender, key);
    assert list[|list| - 1] == data;
  }

  /** No access before the shard is two intervals old removes one of its records. */
  lemma AccessKeepsRecord<Key, Data>(shards: Shards<Key, Data>, a: Access<Key, Data>, i: nat, c: Word, sc: Address,
                                     key: Key, data: Data)
    requires Sane(shards) && a.block < WORD / 2
    requires Holds(shards, i, c, sc, key, data) && c <= a.block < c + INTERVAL * 2
    ensures Holds(AfterAccess(shards, a), i, c, sc, key, data) && Sane(AfterAccess(shards, a))
    ensures RecordsOf(shards[i], sc, key) <= RecordsOf(AfterAccess(shards, a)[i], sc, key)
  {
    ExpiresIff(a.block, c);
  }

  lemma {:induction false} RunKeepsRecord<Key, Data>(shards: Shards<Key, Data>, run: seq<Access<Key, Data>>, i: nat,
                                                     c: Word, sc: Address, key: Key, data: Data)
    requires Sane(shards) && Holds(shards, i, c, sc, key, data)
    requires forall j :: 0 <= j < |run| ==> run[j].block < WORD / 2 && c <= run[j].block < c + INTERVAL * 2
    ensures Holds(AfterAll(shards, run), i, c, sc, key, data)
    ensures RecordsOf(shards[i], sc, key) <= RecordsOf(AfterAll(shards, run)[i], sc, key)
    decreases |run|
  {
    if run != [] {
      AccessKeepsRecord(shards, run[0], i, c, sc, key, data);
      RunKeepsRecord(AfterAccess(shards, run[0]), run[1..], i, c, sc, key, data);
    }
  }

  /**
   * A record that was set at block `b` of a time window that starts at `start` can be read for a whole interval after
   * `start`, whenever that is done, if and only if the shard was created at most one interval before `start`.
   */
  lemma ReadableThroughoutIff<Key, Data>(shards: Shards<Key, Data>, i: nat, c: Word, sc: Address, key: Key, data: Data,
                                         b: Word, start: Word)
    requires Sane(shards) && Holds(shards, i, c, sc, key, data)
    requires start <= b < WORD / 4 && c <= b < c + INTERVAL * 2
    ensures (forall t: Word :: b <= t < start + INTERVAL ==> data in Fetched(shards, t, i, sc, key).1)
      <==> start <= c + INTERVAL
  {
    if start <= c + INTERVAL {
      forall t: Word | b <= t < start + INTERVAL ensures data in Fetched(shards, t, i, sc, key).1 {
        ExpiresIff(t, c);
      }
    } else {
      var t: Word := c + INTERVAL * 2;
      ExpiresIff(t, c);
      assert data !in Fetched(shards, t, i, sc, key).1;
    }
  }

  // ---- The contract ------------------------------------------------------------------------------------

  class Contract<Key(==), Data> {
    var shards: Shards<Key, Data>

    constructor (block: Word)
      requires block + INTERVAL < WORD
      ensures shards == Deployed(block)
    {
      var blockno, created := block, map[];
      for i := 0 to TOTAL_SHARDS
        invariant blockno == block + i * INTERVAL || (i == TOTAL_SHARDS && blockno == Plus(Plus(block, INTERVAL), INTERVAL))
        invariant created == if i == 0 then map[]
                             else if i == 1 then map[ShardIndex(block) := Shard(block, map[])]
                             else Deployed(block)
      {
        created := created[ShardIndex(blockno) := Shard(blockno, map[])];
        blockno := Plus(blockno, INTERVAL);
      }
      shards := created;
    }

    method ResetDataShard(now: Word, i: nat)
      requires i in shards
      modifies this
      ensures shards == Reset(old(shards), now, i)
    {
      if Minus(now, shards[i].creationBlock) >= INTERVAL * 2 {
        shards := shards - {i};
        shards := shards[i := Shard(now, map[])];
      }
    }

    method FetchRecords(now: Word, i: nat, sc: Address, key: Key) returns (list: seq<Data>)
      modifies this
      ensures (shards, list) == Fetched(old(shards), now, i, sc, key)
    {
      if i in shards {
        ResetDataShard(now, i);
        return RecordsOf(shards[i], sc, key);
      }
      return [];
    }

    /** Returns the shard and the position of the new record in its list. */
    method SetRecord(now: Word, sender: Address, key: Key, data: Data) returns (datashard: nat, index: nat)
      requires ShardIndex(now) in shards
      modifies this
      ensures shards == Recorded(old(shards), now, sender, key, data) && datashard == ShardIndex(now)
      ensures var list := RecordsOf(shards[datashard], sender, key); index == |list| - 1 && list[index] == data
    {
      datashard := ShardIndex(now);
      ResetDataShard(now, datashard);
      var list := RecordsOf(shards[datashard], sender, key);
      index := |list|;
      shards := shards[datashard := shards[datashard].(records := shards[datashard].records[(sender, key) := list + [data]])];
    }
  }
}
