/**
 * The steps of the crash model are those of the blockchain machine: the states that it keeps by component and block hash
 * are those that the machine reads from the item store, step by step, and so are the actions.
 */
module CrashMachine {
  import opened BlockCache
  import opened BlockchainMachine
  import Crash = CrashSafety

  function BlocksOf(world: Hash -> Block, hashes: seq<Hash>): seq<Block> {
    seq(|hashes|, i requires 0 <= i < |hashes| => world(hashes[i]))
  }

  function HashesOf(chain: seq<Block>): seq<Hash> {
    seq(|chain|, i requires 0 <= i < |chain| => chain[i].hash)
  }

  function At<S>(cs: seq<Component<S>>, i: nat): Component<S>
    requires cs != []
  {
    cs[if i < |cs| then i else 0]
  }

  /** The machine of the crash model that has these components. */
  function MachineOf<S>(cs: seq<Component<S>>, world: Hash -> Block): Crash.Machine<S>
    requires cs != []
  {
    Crash.Machine(|cs|, (i: nat, hashes: seq<Hash>) => At(cs, i).reducer.initial(BlocksOf(world, hashes)),
                  (i: nat, s: S, h: Hash) => At(cs, i).reducer.reduce(s, world(h)),
                  (i: nat, p: S, s: S) => At(cs, i).detect(p, s))
  }

  lemma MachineIs<S>(cs: seq<Component<S>>, world: Hash -> Block, i: nat, hashes: seq<Hash>, p: S, q: S, h: Hash)
    requires i < |cs|
    ensures MachineOf(cs, world).initial(i, hashes) == cs[i].reducer.initial(BlocksOf(world, hashes))
    ensures MachineOf(cs, world).reduce(i, p, h) == cs[i].reducer.reduce(p, world(h))
    ensures MachineOf(cs, world).detect(i, p, q) == cs[i].detect(p, q)
  {
    assert At(cs, i) == cs[i];
  }

  /** Both have the same states for each component and block. */
  ghost predicate Agrees<S>(anchors: Crash.States<S>, emitted: Crash.States<S>, cs: seq<Component<S>>, items: Items<S>) {
    forall i, h :: 0 <= i < |cs| ==> AgreesAt(anchors, emitted, cs[i], i, items, h)
  }

  ghost predicate AgreesAt<S>(anchors: Crash.States<S>, emitted: Crash.States<S>, c: Component<S>, i: nat, items: Items<S>,
                              h: Hash)
  {
    && Crash.Lookup(anchors, i, h) == AnchorOf(items, c.name, h)
    && Crash.Lookup(emitted, i, h) == EmittedOf(items, c.name, h)
  }

  lemma ChainOfHashes(world: Hash -> Block, chain: seq<Block>)
    requires forall j :: 0 <= j < |chain| ==> chain[j] == world(chain[j].hash)
    ensures BlocksOf(world, HashesOf(chain)) == chain
    ensures chain != [] ==> BlocksOf(world, HashesOf(chain)[1..]) == chain[1..]
  {
  }

  lemma SameNewState<S>(cs: seq<Component<S>>, world: Hash -> Block, anchors: Crash.States<S>, emitted: Crash.States<S>,
                        items: Items<S>, chain: seq<Block>, i: nat)
    requires cs != [] && chain != [] && i < |cs| && Agrees(anchors, emitted, cs, items)
    requires forall j :: 0 <= j < |chain| ==> chain[j] == world(chain[j].hash)
    ensures HashesOf(chain) != []
    ensures Crash.NewState(MachineOf(cs, world), anchors, i, HashesOf(chain)) == NewState(cs[i], items, chain)
  {
    ChainOfHashes(world, chain);
    var (m, hashes) := (MachineOf(cs, world), HashesOf(chain));
    var s := NewState(cs[i], items, chain);
    if |chain| > 1 {
      assert AgreesAt(anchors, emitted, cs[i], i, items, chain[1].hash);
      MachineIs(cs, world, i, hashes[1..], s, s, hashes[0]);
      var previous := match Crash.Lookup(anchors, i, hashes[1]) case Some(p) => p case None => m.initial(i, hashes[1..]);
      MachineIs(cs, world, i, hashes, previous, s, hashes[0]);
    } else {
      MachineIs(cs, world, i, hashes, s, s, hashes[0]);
    }
  }

  /** Attaching a block does the same in both. */
  lemma AttachAgrees<S>(cs: seq<Component<S>>, world: Hash -> Block, s: Crash.State<S>, items: Items<S>, chain: seq<Block>,
                        written: bool)
    requires cs != [] && chain != [] && DistinctNames(cs) && Agrees(s.anchors, s.emitted, cs, items)
    requires forall j :: 0 <= j < |chain| ==> chain[j] == world(chain[j].hash)
    requires Crash.Enabled(MachineOf(cs, world), s, Crash.Attach(HashesOf(chain), written))
    ensures var t := Crash.After(MachineOf(cs, world), s, Crash.Attach(HashesOf(chain), written));
      Agrees(t.anchors, t.emitted, cs, NewBlockItems(cs, items, chain))
  {
    var (m, hashes) := (MachineOf(cs, world), HashesOf(chain));
    var t := Crash.After(m, s, Crash.Attach(hashes, written));
    forall i, h | 0 <= i < |cs| ensures AgreesAt(t.anchors, t.emitted, cs[i], i, NewBlockItems(cs, items, chain), h) {
      SameNewState(cs, world, s.anchors, s.emitted, items, chain, i);
      NewBlockIsPerComponent(cs, items, chain, i);
      AttachAgreesAt(cs, world, s, items, chain, i, h);
    }
  }

  lemma AttachAgreesAt<S>(cs: seq<Component<S>>, world: Hash -> Block, s: Crash.State<S>, items: Items<S>, chain: seq<Block>,
                          i: nat, h: Hash)
    requires cs != [] && chain != [] && i < |cs| && Agrees(s.anchors, s.emitted, cs, items)
    requires HashesOf(chain) != []
    requires Crash.NewState(MachineOf(cs, world), s.anchors, i, HashesOf(chain)) == NewState(cs[i], items, chain)
    requires SameView(NewBlockItems(cs, items, chain), NewBlockFor(cs[i], items, chain), cs[i].name)
    ensures var (m, hashes) := (MachineOf(cs, world), HashesOf(chain));
      AgreesAt(s.anchors + Crash.Anchored(m, s.anchors, hashes), s.emitted + Crash.Carried(m, s.emitted, hashes),
               cs[i], i, NewBlockItems(cs, items, chain), h)
  {
    hide NewState, Crash.NewState, NewBlockItems;
    var (m, hashes) := (MachineOf(cs, world), HashesOf(chain));
    assert AgreesAt(s.anchors, s.emitted, cs[i], i, items, h);
    if |chain| > 1 {
      assert AgreesAt(s.anchors, s.emitted, cs[i], i, items, chain[1].hash);
    }
    assert AnchorOf(NewBlockItems(cs, items, chain), cs[i].name, h) == AnchorOf(NewBlockFor(cs[i], items, chain), cs[i].name, h);
  }

  /** A component that processes the head records the same state in both. */
  lemma ProcessingAgrees<S>(cs: seq<Component<S>>, world: Hash -> Block, s: Crash.State<S>, items: Items<S>, ids: seq<string>)
    requires cs != [] && DistinctNames(cs) && Agrees(s.anchors, s.emitted, cs, items)
    requires Crash.Enabled(MachineOf(cs, world), s, Crash.ProcessComponent(ids))
    ensures var (t, p) := (Crash.After(MachineOf(cs, world), s, Crash.ProcessComponent(ids)), s.pending.value);
      && AnchorOf(items, cs[p.next].name, p.head).Some?
      && Agrees(t.anchors, t.emitted, cs,
                NewHeadFor(cs[p.next], items, p.head, AnchorOf(items, cs[p.next].name, p.head).value))
  {
    var (t, p) := (Crash.After(MachineOf(cs, world), s, Crash.ProcessComponent(ids)), s.pending.value);
    hide Crash.Called, Crash.NewIds, Crash.Stored;
    assert AgreesAt(s.anchors, s.emitted, cs[p.next], p.next, items, p.head);
    var more := NewHeadFor(cs[p.next], items, p.head, AnchorOf(items, cs[p.next].name, p.head).value);
    forall i, h | 0 <= i < |cs| ensures AgreesAt(t.anchors, t.emitted, cs[i], i, more, h) {
      assert AgreesAt(s.anchors, s.emitted, cs[i], i, items, h);
      assert i != p.next ==> cs[i].name != cs[p.next].name;
    }
  }

  /** And it calls for the same actions. */
  lemma SameActions<S>(cs: seq<Component<S>>, world: Hash -> Block, anchors: Crash.States<S>, emitted: Crash.States<S>,
                       items: Items<S>, i: nat, head: Hash, state: S)
    requires i < |cs| && Agrees(anchors, emitted, cs, items)
    ensures Crash.Called(MachineOf(cs, world), i, Crash.Lookup(emitted, i, head), state)
      == ActionsFor(cs[i], items, head, state)
  {
    assert AgreesAt(anchors, emitted, cs[i], i, items, head);
    if EmittedOf(items, cs[i].name, head).Some? {
      MachineIs(cs, world, i, [], EmittedOf(items, cs[i].name, head).value, state, head);
    }
  }

  /** Pruning takes the same states away. */
  lemma PruningAgrees<S>(anchors: Crash.States<S>, emitted: Crash.States<S>, cs: seq<Component<S>>, items: Items<S>,
                         hashes: set<Hash>)
    requires Agrees(anchors, emitted, cs, items)
    ensures Agrees(Crash.Without(anchors, hashes), Crash.Without(emitted, hashes), cs,
                   map k | k in items && k.hash !in hashes :: items[k])
  {
    var less := map k | k in items && k.hash !in hashes :: items[k];
    forall i, h | 0 <= i < |cs|
      ensures AgreesAt(Crash.Without(anchors, hashes), Crash.Without(emitted, hashes), cs[i], i, less, h)
    {
      assert AgreesAt(anchors, emitted, cs[i], i, items, h);
    }
  }
}
