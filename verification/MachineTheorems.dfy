/**
 * What the states of the machine mean: the anchor state of a block is its component's reducer folded along the lineage
 * of the block, and the carried state is that of the nearest emitted block of the lineage, even once that is pruned.
 *
 * A component may have no state for a cached block: it was added over an existing database, or a batch failed half-way.
 */
module MachineTheorems {
  import opened Wrappers
  import opened BlockCache
  import opened Reducers
  import opened BlockchainMachine

  /** What happens to the machine: a block is attached, with its cached ancestry; a head is emitted; blocks are pruned. */
  datatype Event = Attached(chain: seq<Block>) | Emitted(hash: Hash) | Gone(hashes: set<Hash>)

  /** A block and those below it: the state of `blocks[folded..]` is found by a scan, the blocks before are folded in. */
  datatype Line = Line(blocks: seq<Block>, folded: nat)

  ghost predicate Proper(l: Line) {
    l.folded < |l.blocks|
  }

  function Below(l: Line): Line
    requires l.folded > 0 && l.blocks != []
  {
    Line(l.blocks[1..], l.folded - 1)
  }

  /**
   * What has happened, as one component sees it: the lineage of every block attached so far, the blocks that were cached
   * before it had any states, which blocks are gone, and which were emitted as heads.
   */
  datatype History = History(lineage: map<Hash, Line>, bare: set<Hash>, gone: set<Hash>, heads: set<Hash>)

  /**
   * The lineage of a new block goes on from that of its cached parent; if the parent has no state, the parent's cached
   * ancestry is scanned; without a cached parent the block is scanned by itself.
   */
  function Lineage(h: History, chain: seq<Block>): Line
    requires chain != []
  {
    if |chain| > 1 && chain[1].hash in h.lineage then
      var l := h.lineage[chain[1].hash]; Line([chain[0]] + l.blocks, l.folded + 1)
    else if |chain| > 1 then Line(chain, 1)
    else Line(chain, 0)
  }

  function Later(h: History, e: Event): History {
    match e
    case Attached(chain) => if chain == [] then h else h.(lineage := h.lineage[chain[0].hash := Lineage(h, chain)])
    case Emitted(hash) => h.(heads := h.heads + {hash})
    case Gone(hashes) => h.(gone := h.gone + hashes)
  }

  /** What the cache guarantees: a block is attached once, a cached parent was attached before and is not gone. */
  ghost predicate Possible(h: History, e: Event) {
    match e
    case Attached(chain) =>
      && chain != [] && chain[0].hash !in h.lineage.Keys + h.bare && chain[0].hash !in h.gone
      && (|chain| > 1 ==> chain[1].hash in h.lineage.Keys + h.bare && chain[1].hash !in h.gone)
    case Emitted(hash) => hash in h.lineage.Keys + h.bare && hash !in h.gone
    case Gone(hashes) => hashes <= h.lineage.Keys + h.bare
  }

  function ItemsAfterEvent<S>(cs: seq<Component<S>>, items: Items<S>, e: Event): Items<S> {
    match e
    case Attached(chain) => if chain == [] then items else NewBlockItems(cs, items, chain)
    case Emitted(hash) => NewHeadItems(cs, items, hash)
    case Gone(hashes) => map k | k in items && k.hash !in hashes :: items[k]
  }

  // ---- What the states should be -----------------------------------------------------------------------

  function FoldOf<S>(r: Reducer<S>, l: Line): S
    requires Proper(l)
  {
    Folded(r, l.blocks, l.folded)
  }

  /** The state of the nearest block of the lineage, itself included, that was emitted as a head. */
  function NearestEmitted<S>(r: Reducer<S>, l: Line, heads: set<Hash>): Option<S>
    requires Proper(l)
    decreases l.folded
  {
    if l.blocks[0].hash in heads then Some(FoldOf(r, l))
    else if l.folded == 0 then None
    else NearestEmitted(r, Below(l), heads)
  }

  /** The block is in the lineage, and none before it was emitted. */
  predicate Uncovered(l: Line, heads: set<Hash>, hash: Hash)
    requires Proper(l)
    decreases l.folded
  {
    l.blocks[0].hash == hash || (l.blocks[0].hash !in heads && l.folded > 0 && Uncovered(Below(l), heads, hash))
  }

  /** The lineage from a block of it on. */
  function From(l: Line, heads: set<Hash>, hash: Hash): (m: Line)
    requires Proper(l) && Uncovered(l, heads, hash)
    ensures Proper(m)
    decreases l.folded
  {
    if l.blocks[0].hash == hash then l else From(Below(l), heads, hash)
  }

  /**
   * What a head finds when it is emitted late: every other block from which nothing nearer than the head was emitted
   * carries, as it happens, the state of the head already. There is no such block when a head is emitted in time.
   */
  ghost predicate Harmless<S>(c: Component<S>, h: History, hash: Hash)
    requires Sound(h)
  {
    forall d :: d in h.lineage && d !in h.gone && d != hash && Uncovered(h.lineage[d], h.heads, hash) ==>
      NearestEmitted(c.reducer, h.lineage[d], h.heads) == Some(FoldOf(c.reducer, From(h.lineage[d], h.heads, hash)))
  }

  /** A head is emitted for the first time before any block is attached above it. */
  ghost predicate Timely(h: History, hash: Hash)
    requires Sound(h)
  {
    hash in h.heads || forall d :: d in h.lineage && d != hash ==> !Uncovered(h.lineage[d], {}, hash)
  }

  ghost predicate Sound(h: History) {
    && h.heads <= h.lineage.Keys && h.lineage.Keys !! h.bare
    && (forall b :: b in h.lineage ==> Proper(h.lineage[b]) && h.lineage[b].blocks[0].hash == b)
  }

  /** The states of one component are what they should be. */
  ghost predicate Tracks<S>(items: Items<S>, c: Component<S>, h: History) {
    && (forall b :: b in h.lineage && b !in h.gone ==> TracksBlock(items, c, h.lineage[b], h.heads, b))
    && (forall b :: b !in h.lineage ==> AnchorOf(items, c.name, b) == None && EmittedOf(items, c.name, b) == None)
  }

  ghost predicate TracksBlock<S>(items: Items<S>, c: Component<S>, lineage: Line, heads: set<Hash>, b: Hash)
  {
    && Proper(lineage)
    && AnchorOf(items, c.name, b) == Some(FoldOf(c.reducer, lineage))
    && EmittedOf(items, c.name, b) == NearestEmitted(c.reducer, lineage, heads)
  }

  /** One more head is the nearest one exactly for the lineages in which nothing before it was emitted. */
  lemma {:induction false} OneMoreHead<S>(r: Reducer<S>, l: Line, heads: set<Hash>, hash: Hash)
    requires Proper(l)
    ensures NearestEmitted(r, l, heads + {hash})
      == if Uncovered(l, heads, hash) then Some(FoldOf(r, From(l, heads, hash))) else NearestEmitted(r, l, heads)
    decreases l.folded
  {
    if l.folded > 0 && l.blocks[0].hash != hash {
      OneMoreHead(r, Below(l), heads, hash);
    }
  }

  lemma {:induction false} CoveredByItself<S>(r: Reducer<S>, l: Line, heads: set<Hash>, hash: Hash)
    requires Proper(l) && hash in heads && Uncovered(l, heads, hash)
    ensures NearestEmitted(r, l, heads) == Some(FoldOf(r, From(l, heads, hash)))
    decreases l.folded
  {
    if l.blocks[0].hash != hash {
      CoveredByItself(r, Below(l), heads, hash);
    }
  }

  lemma {:induction false} UncoveredWithoutHeads(l: Line, heads: set<Hash>, hash: Hash)
    requires Proper(l) && Uncovered(l, heads, hash)
    ensures Uncovered(l, {}, hash)
    decreases l.folded
  {
    if l.blocks[0].hash != hash {
      UncoveredWithoutHeads(Below(l), heads, hash);
    }
  }

  /** A head that is emitted in time, or again, is harmless whatever the states are. */
  lemma TimelyIsHarmless<S>(c: Component<S>, h: History, hash: Hash)
    requires Sound(h) && Timely(h, hash)
    ensures Harmless(c, h, hash)
  {
    forall d | d in h.lineage && d != hash && Uncovered(h.lineage[d], h.heads, hash)
      ensures NearestEmitted(c.reducer, h.lineage[d], h.heads) == Some(FoldOf(c.reducer, From(h.lineage[d], h.heads, hash)))
    {
      UncoveredWithoutHeads(h.lineage[d], h.heads, hash);
      if hash in h.heads {
        CoveredByItself(c.reducer, h.lineage[d], h.heads, hash);
      }
    }
  }

  // ---- Every event keeps it ----------------------------------------------------------------------------

  lemma ViewTracks<S>(items: Items<S>, other: Items<S>, c: Component<S>, h: History)
    requires Sound(h) && Tracks(items, c, h) && SameView(items, other, c.name)
    ensures Tracks(other, c, h)
  {
    hide FoldOf, NearestEmitted, AnchorOf, EmittedOf;
    forall b | b in h.lineage && b !in h.gone ensures TracksBlock(other, c, h.lineage[b], h.heads, b) {
      assert TracksBlock(items, c, h.lineage[b], h.heads, b);
    }
  }

  lemma FoldOfLonger<S>(r: Reducer<S>, b: Block, l: Line, heads: set<Hash>)
    requires Proper(l)
    ensures var longer := Line([b] + l.blocks, l.folded + 1);
      && FoldOf(r, longer) == r.reduce(FoldOf(r, l), b)
      && (b.hash !in heads ==> NearestEmitted(r, longer, heads) == NearestEmitted(r, l, heads))
  {
    assert ([b] + l.blocks)[1..] == l.blocks;
  }

  lemma FoldOfFirst<S>(r: Reducer<S>, chain: seq<Block>, heads: set<Hash>)
    requires chain != [] && chain[0].hash !in heads
    ensures FoldOf(r, Line(chain, 0)) == r.initial(chain)
    ensures NearestEmitted(r, Line(chain, 0), heads) == None
    ensures |chain| > 1 ==> FoldOf(r, Line(chain, 1)) == r.reduce(r.initial(chain[1..]), chain[0])
    ensures |chain| > 1 && chain[1].hash !in heads ==> NearestEmitted(r, Line(chain, 1), heads) == None
  {
    if |chain| > 1 {
      assert Below(Line(chain, 1)) == Line(chain[1..], 0);
    }
  }

  /** The new block's own states: the fold along its lineage, and what its parent carried. */
  lemma AttachedStates<S>(items: Items<S>, c: Component<S>, h: History, chain: seq<Block>)
    requires Sound(h) && Tracks(items, c, h) && Possible(h, Attached(chain))
    ensures TracksBlock(NewBlockFor(c, items, chain), c, Lineage(h, chain), h.heads, chain[0].hash)
  {
    var b := chain[0];
    if |chain| > 1 && chain[1].hash in h.lineage {
      assert TracksBlock(items, c, h.lineage[chain[1].hash], h.heads, chain[1].hash);
      FoldOfLonger(c.reducer, b, h.lineage[chain[1].hash], h.heads);
    } else {
      FoldOfFirst(c.reducer, chain, h.heads);
    }
    hide FoldOf, NearestEmitted, Tracks;
    assert |chain| > 1 && chain[1].hash !in h.lineage ==>
      AnchorOf(items, c.name, chain[1].hash) == None && EmittedOf(items, c.name, chain[1].hash) == None by {
      NothingOutside(items, c, h);
    }
    NothingOutside(items, c, h);
  }

  lemma NothingOutside<S>(items: Items<S>, c: Component<S>, h: History)
    requires Tracks(items, c, h)
    ensures forall b :: b !in h.lineage ==> AnchorOf(items, c.name, b) == None && EmittedOf(items, c.name, b) == None
  {
  }

  /** A new block gets the fold along its lineage, and carries what its parent carried. */
  lemma AttachedTracks<S>(items: Items<S>, c: Component<S>, h: History, chain: seq<Block>)
    requires Sound(h) && Tracks(items, c, h) && Possible(h, Attached(chain))
    ensures Tracks(NewBlockFor(c, items, chain), c, Later(h, Attached(chain)))
  {
    var more, later := NewBlockFor(c, items, chain), Later(h, Attached(chain));
    var b := chain[0];
    AttachedStates(items, c, h, chain);
    hide FoldOf, NearestEmitted, Lineage;
    forall d | d in later.lineage && d !in later.gone ensures TracksBlock(more, c, later.lineage[d], later.heads, d) {
      if d != b.hash {
        assert TracksBlock(items, c, h.lineage[d], h.heads, d);
      }
    }
  }

  lemma EmittedStates<S>(items: Items<S>, c: Component<S>, h: History, hash: Hash)
    requires Sound(h) && Tracks(items, c, h) && Possible(h, Emitted(hash)) && hash in h.lineage
    ensures AnchorOf(items, c.name, hash) == Some(FoldOf(c.reducer, h.lineage[hash]))
    ensures EmittedOf(items, c.name, hash) == NearestEmitted(c.reducer, h.lineage[hash], h.heads)
  {
    assert TracksBlock(items, c, h.lineage[hash], h.heads, hash);
  }

  /** What is carried stays right for one block if and only if the head is harmless to it. */
  lemma EmittedTracksBlock<S>(items: Items<S>, c: Component<S>, lineage: Line, heads: set<Hash>, d: Hash, hash: Hash,
                              state: S)
    requires TracksBlock(items, c, lineage, heads, d) && d != hash
    ensures TracksBlock(NewHeadFor(c, items, hash, state), c, lineage, heads + {hash}, d) <==>
      (Uncovered(lineage, heads, hash) ==>
         NearestEmitted(c.reducer, lineage, heads) == Some(FoldOf(c.reducer, From(lineage, heads, hash))))
  {
    OneMoreHead(c.reducer, lineage, heads, hash);
    hide NearestEmitted, FoldOf, Uncovered, From;
    var more := NewHeadFor(c, items, hash, state);
    assert AnchorOf(more, c.name, d) == AnchorOf(items, c.name, d);
    assert EmittedOf(more, c.name, d) == EmittedOf(items, c.name, d);
  }

  /** After a head is emitted, tracking goes on if and only if the head was harmless. */
  lemma EmittedTracksIff<S>(items: Items<S>, c: Component<S>, h: History, hash: Hash)
    requires Sound(h) && Tracks(items, c, h) && Possible(h, Emitted(hash)) && hash in h.lineage
    ensures Tracks(NewHeadFor(c, items, hash, FoldOf(c.reducer, h.lineage[hash])), c, Later(h, Emitted(hash)))
      <==> Harmless(c, h, hash)
  {
    var state := FoldOf(c.reducer, h.lineage[hash]);
    var more, later := NewHeadFor(c, items, hash, state), Later(h, Emitted(hash));
    assert TracksBlock(items, c, h.lineage[hash], h.heads, hash);
    assert TracksBlock(more, c, later.lineage[hash], later.heads, hash) by {
      hide FoldOf;
    }
    hide TracksBlock, FoldOf, NearestEmitted, Uncovered, From;
    forall d | d in h.lineage && d !in h.gone && d != hash
      ensures TracksBlock(more, c, h.lineage[d], later.heads, d) <==>
        (Uncovered(h.lineage[d], h.heads, hash) ==>
           NearestEmitted(c.reducer, h.lineage[d], h.heads) == Some(FoldOf(c.reducer, From(h.lineage[d], h.heads, hash))))
    {
      assert TracksBlock(items, c, h.lineage[d], h.heads, d);
      EmittedTracksBlock(items, c, h.lineage[d], h.heads, d, hash, state);
    }
  }

  lemma GoneTracks<S>(items: Items<S>, c: Component<S>, h: History, hashes: set<Hash>)
    requires Sound(h) && Tracks(items, c, h) && Possible(h, Gone(hashes))
    ensures Tracks(map k | k in items && k.hash !in hashes :: items[k], c, Later(h, Gone(hashes)))
  {
    var less, later := map k | k in items && k.hash !in hashes :: items[k], Later(h, Gone(hashes));
    hide FoldOf, NearestEmitted;
    forall d | d in later.lineage && d !in later.gone ensures TracksBlock(less, c, later.lineage[d], later.heads, d) {
      assert TracksBlock(items, c, h.lineage[d], h.heads, d);
    }
  }

  lemma LaterIsSound(h: History, e: Event)
    requires Sound(h) && Possible(h, e) && (e.Emitted? ==> e.hash in h.lineage)
    ensures Sound(Later(h, e))
  {
  }

  // ---- All components ----------------------------------------------------------------------------------

  /** A head reaches a component if that and all before it have a state for the head; otherwise it is left early. */
  ghost predicate Reaches(hs: seq<History>, hash: Hash, i: nat)
    requires i < |hs|
  {
    forall j :: 0 <= j <= i ==> hash in hs[j].lineage
  }

  /** Each component sees every event, apart from heads that do not reach it. */
  ghost function LaterFor(hs: seq<History>, e: Event, i: nat): History
    requires i < |hs|
  {
    if e.Emitted? && !Reaches(hs, e.hash, i) then hs[i] else Later(hs[i], e)
  }

  ghost function LaterAll(hs: seq<History>, e: Event): (r: seq<History>)
    ensures |r| == |hs|
  {
    seq(|hs|, i requires 0 <= i < |hs| => LaterFor(hs, e, i))
  }

  ghost predicate AllSound(hs: seq<History>) {
    forall i :: 0 <= i < |hs| ==> Sound(hs[i])
  }

  ghost predicate PossibleForAll(hs: seq<History>, e: Event) {
    forall i :: 0 <= i < |hs| ==> Possible(hs[i], e)
  }

  ghost predicate AllTrack<S>(cs: seq<Component<S>>, items: Items<S>, hs: seq<History>) {
    |hs| == |cs| && forall i :: 0 <= i < |cs| ==> Tracks(items, cs[i], hs[i])
  }

  ghost predicate AllHarmless<S>(cs: seq<Component<S>>, hs: seq<History>, e: Event)
    requires AllSound(hs)
  {
    |hs| == |cs| && (e.Emitted? ==> forall i :: 0 <= i < |cs| && Reaches(hs, e.hash, i) ==> Harmless(cs[i], hs[i], e.hash))
  }

  lemma AllLaterAreSound(hs: seq<History>, e: Event)
    requires AllSound(hs) && PossibleForAll(hs, e)
    ensures AllSound(LaterAll(hs, e))
  {
    hide Sound, Possible, Later;
    forall i | 0 <= i < |hs| ensures Sound(LaterAll(hs, e)[i]) {
      assert LaterAll(hs, e)[i] == LaterFor(hs, e, i);
      if !(e.Emitted? && !Reaches(hs, e.hash, i)) {
        LaterIsSound(hs[i], e);
      }
    }
  }

  lemma AttachedKeepsAll<S>(cs: seq<Component<S>>, items: Items<S>, hs: seq<History>, chain: seq<Block>)
    requires DistinctNames(cs) && AllSound(hs) && AllTrack(cs, items, hs) && PossibleForAll(hs, Attached(chain)) && chain != []
    ensures AllTrack(cs, NewBlockItems(cs, items, chain), LaterAll(hs, Attached(chain)))
  {
    hide Tracks, NewBlockFor, NewBlockItems, NearestEmitted, FoldOf, AnchorOf, EmittedOf, Later, Sound, Possible;
    var e := Attached(chain);
    forall i | 0 <= i < |cs| ensures Tracks(NewBlockItems(cs, items, chain), cs[i], LaterAll(hs, e)[i]) {
      assert LaterAll(hs, e)[i] == LaterFor(hs, e, i) == Later(hs[i], e);
      LaterIsSound(hs[i], e);
      AttachedTracks(items, cs[i], hs[i], chain);
      NewBlockIsPerComponent(cs, items, chain, i);
      ViewBack(NewBlockItems(cs, items, chain), NewBlockFor(cs[i], items, chain), cs[i].name);
      ViewTracks(NewBlockFor(cs[i], items, chain), NewBlockItems(cs, items, chain), cs[i], Later(hs[i], e));
    }
  }

  lemma StatesReach<S>(cs: seq<Component<S>>, items: Items<S>, hs: seq<History>, hash: Hash, i: nat)
    requires AllSound(hs) && AllTrack(cs, items, hs) && PossibleForAll(hs, Emitted(hash)) && i < |cs|
    ensures Reaches(hs, hash, i) <==> forall j :: 0 <= j <= i ==> AnchorOf(items, cs[j].name, hash).Some?
    ensures Reaches(hs, hash, i) ==>
      && hash in hs[i].lineage
      && AnchorOf(items, cs[i].name, hash) == Some(FoldOf(cs[i].reducer, hs[i].lineage[hash]))
      && EmittedOf(items, cs[i].name, hash) == NearestEmitted(cs[i].reducer, hs[i].lineage[hash], hs[i].heads)
  {
    hide FoldOf, NearestEmitted, AnchorOf, EmittedOf, Sound, Tracks;
    forall j | 0 <= j <= i ensures hash in hs[j].lineage <==> AnchorOf(items, cs[j].name, hash).Some? {
      assert Possible(hs[j], Emitted(hash)) && Tracks(items, cs[j], hs[j]);
      if hash in hs[j].lineage {
        EmittedStates(items, cs[j], hs[j], hash);
      } else {
        NothingOutside(items, cs[j], hs[j]);
      }
    }
    if Reaches(hs, hash, i) {
      assert Possible(hs[i], Emitted(hash)) && Tracks(items, cs[i], hs[i]);
      assert hash in hs[i].lineage;
      EmittedStates(items, cs[i], hs[i], hash);
    }
  }

  /** One component after a new head: untouched if the head does not reach it, else right if and only if it does no harm. */
  lemma HeadTracksIff<S>(cs: seq<Component<S>>, items: Items<S>, hs: seq<History>, hash: Hash, i: nat)
    requires DistinctNames(cs) && AllSound(hs) && AllTrack(cs, items, hs) && PossibleForAll(hs, Emitted(hash)) && i < |cs|
    ensures Tracks(NewHeadItems(cs, items, hash), cs[i], LaterAll(hs, Emitted(hash))[i])
      <==> (Reaches(hs, hash, i) ==> Harmless(cs[i], hs[i], hash))
  {
    var (e, all) := (Emitted(hash), NewHeadItems(cs, items, hash));
    assert LaterAll(hs, e)[i] == LaterFor(hs, e, i);
    StatesReach(cs, items, hs, hash, i);
    HeadReaches(cs, items, hash, i);
    assert Possible(hs[i], e) && Sound(hs[i]);
    hide Tracks, Harmless, NewHeadItems, NewHeadFor, NearestEmitted, FoldOf, AnchorOf, EmittedOf, Sound, Possible, Later;
    if Reaches(hs, hash, i) {
      var alone := NewHeadFor(cs[i], items, hash, FoldOf(cs[i].reducer, hs[i].lineage[hash]));
      LaterIsSound(hs[i], e);
      EmittedTracksIff(items, cs[i], hs[i], hash);
      ViewBack(all, alone, cs[i].name);
      if Tracks(alone, cs[i], Later(hs[i], e)) {
        ViewTracks(alone, all, cs[i], Later(hs[i], e));
      }
      if Tracks(all, cs[i], Later(hs[i], e)) {
        ViewTracks(all, alone, cs[i], Later(hs[i], e));
      }
    } else {
      ViewTracks(items, all, cs[i], hs[i]);
    }
  }

  /** The actions of a head that reaches a component compare the nearest emitted state of its lineage with its own. */
  lemma ActionsCompareWithNearest<S>(cs: seq<Component<S>>, items: Items<S>, hs: seq<History>, hash: Hash, i: nat)
    requires DistinctNames(cs) && AllSound(hs) && AllTrack(cs, items, hs) && PossibleForAll(hs, Emitted(hash))
    requires i < |cs| && Reaches(hs, hash, i)
    ensures |NewHeadActions(cs, items, hash)| > i
    ensures NewHeadActions(cs, items, hash)[i]
      == match NearestEmitted(cs[i].reducer, hs[i].lineage[hash], hs[i].heads)
         case None => []
         case Some(previous) => cs[i].detect(previous, FoldOf(cs[i].reducer, hs[i].lineage[hash]))
  {
    StatesReach(cs, items, hs, hash, i);
    hide Tracks, FoldOf, NearestEmitted, AnchorOf, EmittedOf, NewHeadActions;
    HeadReaches(cs, items, hash, i);
  }

  /** One event keeps all components tracked if and only if it is harmless; only a late head is not. */
  lemma EventKeepsTrackingIff<S>(cs: seq<Component<S>>, items: Items<S>, hs: seq<History>, e: Event)
    requires DistinctNames(cs) && AllSound(hs) && AllTrack(cs, items, hs) && PossibleForAll(hs, e)
    ensures AllSound(LaterAll(hs, e))
    ensures AllTrack(cs, ItemsAfterEvent(cs, items, e), LaterAll(hs, e)) <==> AllHarmless(cs, hs, e)
  {
    AllLaterAreSound(hs, e);
    hide Tracks, Sound, Harmless, Later, Possible, LaterAll;
    match e
    case Attached(chain) => {
      if chain == [] {
        EmptyChainIsNothing(cs, items, hs);
      } else {
        AttachedKeepsAll(cs, items, hs, chain);
      }
    }
    case Emitted(hash) => {
      forall i | 0 <= i < |cs|
        ensures Tracks(NewHeadItems(cs, items, hash), cs[i], LaterAll(hs, e)[i])
          <==> (Reaches(hs, hash, i) ==> Harmless(cs[i], hs[i], hash))
      {
        HeadTracksIff(cs, items, hs, hash, i);
      }
    }
    case Gone(hashes) => {
      forall i | 0 <= i < |cs| ensures Tracks(ItemsAfterEvent(cs, items, e), cs[i], LaterAll(hs, e)[i]) {
        LaterOther(hs, e, i);
        assert Possible(hs[i], e);
        GoneTracks(items, cs[i], hs[i], hashes);
      }
    }
  }

  lemma LaterOther(hs: seq<History>, e: Event, i: nat)
    requires i < |hs| && !e.Emitted?
    ensures LaterAll(hs, e)[i] == Later(hs[i], e)
  {
  }

  lemma EmptyChainIsNothing<S>(cs: seq<Component<S>>, items: Items<S>, hs: seq<History>)
    requires AllTrack(cs, items, hs)
    ensures AllTrack(cs, ItemsAfterEvent(cs, items, Attached([])), LaterAll(hs, Attached([])))
  {
    hide Tracks;
    forall i | 0 <= i < |cs| ensures Tracks(items, cs[i], LaterAll(hs, Attached([]))[i]) {
      LaterOther(hs, Attached([]), i);
    }
  }

  // ---- Whole runs --------------------------------------------------------------------------------------

  ghost function HistoriesOf(hs: seq<History>, events: seq<Event>): (r: seq<History>)
    ensures |r| == |hs|
    decreases |events|
  {
    if events == [] then hs else HistoriesOf(LaterAll(hs, events[0]), events[1..])
  }

  function ItemsOf<S>(cs: seq<Component<S>>, items: Items<S>, events: seq<Event>): Items<S>
    decreases |events|
  {
    if events == [] then items else ItemsOf(cs, ItemsAfterEvent(cs, items, events[0]), events[1..])
  }

  ghost predicate AllPossible(hs: seq<History>, events: seq<Event>)
    decreases |events|
  {
    events == [] || (PossibleForAll(hs, events[0]) && AllPossible(LaterAll(hs, events[0]), events[1..]))
  }

  /** No head of the run does harm when it is emitted. */
  ghost predicate NeverHarmful<S>(cs: seq<Component<S>>, hs: seq<History>, events: seq<Event>)
    requires AllSound(hs) && AllPossible(hs, events)
    decreases |events|
  {
    events == [] ||
      (AllHarmless(cs, hs, events[0])
       && (AllLaterAreSound(hs, events[0]); NeverHarmful(cs, LaterAll(hs, events[0]), events[1..])))
  }

  /**
   * From any states that are tracked, over every run in which no head does harm: the anchor state of every block that is
   * not gone is the fold along its lineage, and what it carries is the state of its nearest emitted ancestor or itself,
   * gone or not.
   */
  lemma {:induction false} TracksAlong<S>(cs: seq<Component<S>>, items: Items<S>, hs: seq<History>, events: seq<Event>)
    requires DistinctNames(cs) && AllSound(hs) && AllTrack(cs, items, hs)
    requires AllPossible(hs, events) && NeverHarmful(cs, hs, events)
    ensures AllTrack(cs, ItemsOf(cs, items, events), HistoriesOf(hs, events)) && AllSound(HistoriesOf(hs, events))
    decreases |events|
  {
    hide AllTrack, ItemsAfterEvent, LaterAll, PossibleForAll, AllHarmless, AllSound;
    if events != [] {
      EventKeepsTrackingIff(cs, items, hs, events[0]);
      TracksAlong(cs, ItemsAfterEvent(cs, items, events[0]), LaterAll(hs, events[0]), events[1..]);
    }
  }

  ghost predicate WithoutHarm<S>(cs: seq<Component<S>>, hs: seq<History>, events: seq<Event>) {
    AllSound(hs) && AllPossible(hs, events) && NeverHarmful(cs, hs, events)
  }

  const NO_HISTORY := History(map[], {}, {}, {})

  /** A component has no states yet, whatever is cached. */
  ghost predicate WithoutStates(h: History) {
    h.lineage == map[] && h.heads == {}
  }

  /**
   * A machine may start with no states at all, and with any blocks cached; or with components added, without states, to
   * others that are tracked.
   */
  lemma RunTracks<S>(cs: seq<Component<S>>, items: Items<S>, hs: seq<History>, events: seq<Event>)
    requires DistinctNames(cs) && |hs| == |cs| && WithoutHarm(cs, hs, events)
    requires forall i :: 0 <= i < |cs| ==> Tracks(items, cs[i], hs[i]) || (WithoutStates(hs[i]) && HasNoStates(items, cs[i]))
    ensures AllTrack(cs, ItemsOf(cs, items, events), HistoriesOf(hs, events))
  {
    assert forall i :: 0 <= i < |cs| ==> Tracks(items, cs[i], hs[i]);
    assert AllSound(hs) && AllPossible(hs, events) && NeverHarmful(cs, hs, events);
    hide *;
    assert AllTrack(cs, items, hs) by { AllTrackIf(cs, items, hs); }
    TracksAlong(cs, items, hs, events);
  }

  lemma AllTrackIf<S>(cs: seq<Component<S>>, items: Items<S>, hs: seq<History>)
    requires |hs| == |cs| && forall i :: 0 <= i < |cs| ==> Tracks(items, cs[i], hs[i])
    ensures AllTrack(cs, items, hs)
  {
  }

  ghost predicate HasNoStates<S>(items: Items<S>, c: Component<S>) {
    forall h :: AnchorOf(items, c.name, h) == None && EmittedOf(items, c.name, h) == None
  }

  /** And a run goes wrong with the first head that does harm. */
  lemma FirstHarmIsDone<S>(cs: seq<Component<S>>, items: Items<S>, hs: seq<History>, events: seq<Event>, e: Event)
    requires DistinctNames(cs) && AllSound(hs) && AllTrack(cs, items, hs)
    requires AllPossible(hs, events) && NeverHarmful(cs, hs, events)
    requires PossibleForAll(HistoriesOf(hs, events), e)
    ensures AllSound(HistoriesOf(hs, events))
    ensures var (now, past) := (ItemsOf(cs, items, events), HistoriesOf(hs, events));
      AllTrack(cs, ItemsAfterEvent(cs, now, e), LaterAll(past, e)) <==> AllHarmless(cs, past, e)
  {
    hide *;
    TracksAlong(cs, items, hs, events);
    EventKeepsTrackingIff(cs, ItemsOf(cs, items, events), HistoriesOf(hs, events), e);
  }

  // ---- A late head -------------------------------------------------------------------------------------

  /** A component whose state counts the blocks of the lineage. */
  function Counter(): Component<int> {
    Component("counter", Reducer((chain: seq<Block>) => 1, (n: int, b: Block) => n + 1), (m: int, n: int) => [])
  }

  /** A first block that is emitted, two more above it, and then, late, the first of these. */
  function LateRun(g: Block, a: Block, b: Block): seq<Event> {
    [Attached([g]), Emitted(g.hash), Attached([a, g]), Attached([b, a, g]), Emitted(a.hash)]
  }

  lemma {:induction false} OneMoreEvent<S>(cs: seq<Component<S>>, items: Items<S>, hs: seq<History>, events: seq<Event>, e: Event)
    requires AllSound(hs) && AllPossible(hs, events) && NeverHarmful(cs, hs, events)
    requires PossibleForAll(HistoriesOf(hs, events), e)
    ensures HistoriesOf(hs, events + [e]) == LaterAll(HistoriesOf(hs, events), e)
    ensures ItemsOf(cs, items, events + [e]) == ItemsAfterEvent(cs, ItemsOf(cs, items, events), e)
    ensures AllPossible(hs, events + [e]) && AllSound(HistoriesOf(hs, events))
    ensures NeverHarmful(cs, hs, events + [e]) <==> AllHarmless(cs, HistoriesOf(hs, events), e)
    decreases |events|
  {
    hide LaterAll, ItemsAfterEvent, PossibleForAll, AllHarmless, AllSound;
    if events == [] {
      assert ([] + [e])[1..] == [];
    } else {
      AllLaterAreSound(hs, events[0]);
      OneMoreEvent(cs, ItemsAfterEvent(cs, items, events[0]), LaterAll(hs, events[0]), events[1..], e);
      assert (events + [e])[0] == events[0] && (events + [e])[1..] == events[1..] + [e];
    }
  }

  /** What one component alone sees is just the events. */
  lemma AloneLater(h: History, e: Event)
    requires e.Emitted? ==> e.hash in h.lineage
    ensures LaterAll([h], e) == [Later(h, e)]
  {
    assert LaterAll([h], e)[0] == LaterFor([h], e, 0);
    assert e.Emitted? ==> Reaches([h], e.hash, 0);
  }

  lemma AloneGoesOn<S>(c: Component<S>, items: Items<S>, events: seq<Event>, h: History, e: Event, next: History)
    requires AllSound([NO_HISTORY]) && AllPossible([NO_HISTORY], events) && NeverHarmful([c], [NO_HISTORY], events)
    requires HistoriesOf([NO_HISTORY], events) == [h] && Sound(h) && Possible(h, e) && next == Later(h, e)
    requires e.Emitted? ==> e.hash in h.lineage && Harmless(c, h, e.hash)
    ensures AllPossible([NO_HISTORY], events + [e]) && NeverHarmful([c], [NO_HISTORY], events + [e])
    ensures HistoriesOf([NO_HISTORY], events + [e]) == [next] && Sound(next)
  {
    AloneLater(h, e);
    LaterIsSound(h, e);
    assert PossibleForAll([h], e) && AllHarmless([c], [h], e);
    hide Possible, Later, Sound, Harmless, AllPossible, NeverHarmful, HistoriesOf, LaterAll, AllHarmless, PossibleForAll, AllSound;
    OneMoreEvent([c], items, [NO_HISTORY], events, e);
  }

  function LateHistory(g: Block, a: Block, b: Block): History {
    History(map[g.hash := Line([g], 0), a.hash := Line([a, g], 1), b.hash := Line([b, a, g], 2)], {}, {}, {g.hash})
  }

  /** The history before the late head; up to there the run is possible and harmless. */
  lemma BeforeLateHead(g: Block, a: Block, b: Block)
    requires g.hash != a.hash && a.hash != b.hash && g.hash != b.hash
    ensures AllSound([NO_HISTORY])
    ensures var (run, cs) := (LateRun(g, a, b), [Counter()]);
      && AllPossible([NO_HISTORY], run[..4]) && NeverHarmful(cs, [NO_HISTORY], run[..4])
      && HistoriesOf([NO_HISTORY], run[..4]) == [LateHistory(g, a, b)] && Sound(LateHistory(g, a, b))
  {
    var (run, c) := (LateRun(g, a, b), Counter());
    var h1 := History(map[g.hash := Line([g], 0)], {}, {}, {});
    var h2 := h1.(heads := {g.hash});
    var h3 := h2.(lineage := map[g.hash := Line([g], 0), a.hash := Line([a, g], 1)]);
    var h4 := LateHistory(g, a, b);
    assert [a] + [g] == [a, g] && [b] + [a, g] == [b, a, g];
    assert Later(NO_HISTORY, run[0]) == h1 && Later(h1, run[1]) == h2 && Later(h2, run[2]) == h3 && Later(h3, run[3]) == h4;
    assert Possible(NO_HISTORY, run[0]) && Possible(h1, run[1]) && Possible(h2, run[2]) && Possible(h3, run[3]);
    assert Sound(NO_HISTORY) && Sound(h1);
    TimelyIsHarmless(c, h1, g.hash);
    assert AllPossible([NO_HISTORY], []) && NeverHarmful([c], [NO_HISTORY], []);
    assert HistoriesOf([NO_HISTORY], []) == [NO_HISTORY];
    assert run[..1] == [] + [run[0]] && run[..2] == run[..1] + [run[1]];
    assert run[..3] == run[..2] + [run[2]] && run[..4] == run[..3] + [run[3]];
    hide Possible, Later, Sound, Harmless, AllPossible, NeverHarmful, HistoriesOf;
    AloneGoesOn(c, map[], [], NO_HISTORY, run[0], h1);
    AloneGoesOn(c, map[], run[..1], h1, run[1], h2);
    AloneGoesOn(c, map[], run[..2], h2, run[2], h3);
    AloneGoesOn(c, map[], run[..3], h3, run[3], h4);
  }

  lemma NothingTracked<S>(cs: seq<Component<S>>, hs: seq<History>)
    requires |hs| == |cs| && forall i :: 0 <= i < |hs| ==> hs[i] == NO_HISTORY
    ensures AllTrack(cs, map[], hs) && AllSound(hs)
  {
  }

  /** The late head is missed: the block above goes on carrying the state of the block below. */
  lemma LateHeadIsMissed(g: Block, a: Block, b: Block)
    requires g.hash != a.hash && a.hash != b.hash && g.hash != b.hash
    ensures var (run, cs) := (LateRun(g, a, b), [Counter()]);
      AllPossible([NO_HISTORY], run) && !AllTrack(cs, ItemsOf(cs, map[], run), HistoriesOf([NO_HISTORY], run))
  {
    var (run, cs, h) := (LateRun(g, a, b), [Counter()], LateHistory(g, a, b));
    BeforeLateHead(g, a, b);
    LateHeadHarms(g, a, b);
    NothingTracked(cs, [NO_HISTORY]);
    assert run == run[..4] + [run[4]];
    assert PossibleForAll([h], run[4]) && Reaches([h], a.hash, 0);
    hide AllPossible, NeverHarmful, HistoriesOf, PossibleForAll, LaterAll, AllTrack, Harmless, AllSound, ItemsOf, ItemsAfterEvent;
    OneMoreEvent(cs, map[], [NO_HISTORY], run[..4], run[4]);
    FirstHarmIsDone(cs, map[], [NO_HISTORY], run[..4], run[4]);
  }

  lemma LateHeadHarms(g: Block, a: Block, b: Block)
    requires g.hash != a.hash && a.hash != b.hash && g.hash != b.hash
    ensures Sound(LateHistory(g, a, b)) && !Harmless(Counter(), LateHistory(g, a, b), a.hash)
  {
    var (h, r) := (LateHistory(g, a, b), Counter().reducer);
    var (lb, la, lg) := (Line([b, a, g], 2), Line([a, g], 1), Line([g], 0));
    assert Below(lb) == la && Below(la) == lg;
    assert Uncovered(la, h.heads, a.hash) && Uncovered(lb, h.heads, a.hash);
    assert From(lb, h.heads, a.hash) == From(la, h.heads, a.hash) == la;
    assert NearestEmitted(r, lg, h.heads) == Some(FoldOf(r, lg));
    assert NearestEmitted(r, la, h.heads) == NearestEmitted(r, lg, h.heads);
    assert NearestEmitted(r, lb, h.heads) == NearestEmitted(r, la, h.heads);
    assert FoldOf(r, lg) == 1 && FoldOf(r, la) == FoldOf(r, lg) + 1;
  }
}
