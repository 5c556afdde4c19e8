/**
 * The blockchain state machine (src/blockMonitor/blockchainMachine.ts): every new block gets an anchor state for every
 * component, and carries along the state of the nearest ancestor that was emitted as a head.
 */
module BlockchainMachine {
  import opened Wrappers
  import opened BlockCache
  import opened BlockItemStore
  import opened Reducers
  import ActionStore

  datatype Component<!S> = Component(name: string, reducer: Reducer<S>, detect: (S, S) -> seq<ActionStore.Action>)

  type Items<S> = map<Key, Item<S>>

  function StateAt<S>(items: Items<S>, key: Key): Option<S> {
    if key in items && items[key].TheState? then Some(items[key].state) else None
  }

  function AnchorOf<S>(items: Items<S>, name: string, hash: Hash): Option<S> {
    StateAt(items, Key(hash, OfState(name)))
  }

  function EmittedOf<S>(items: Items<S>, name: string, hash: Hash): Option<S> {
    StateAt(items, Key(hash, OfEmittedState(name)))
  }

  // ---- A new block -------------------------------------------------------------------------------------

  /** `chain` is the cached ancestry of the new block, itself first. */
  function NewState<S>(c: Component<S>, items: Items<S>, chain: seq<Block>): S
    requires chain != []
  {
    if |chain| > 1 then
      var previous := match AnchorOf(items, c.name, chain[1].hash)
        case Some(s) => s
        case None => c.reducer.initial(chain[1..]);
      c.reducer.reduce(previous, chain[0])
    else c.reducer.initial(chain)
  }

  /** The anchor state of the block, and a copy of what its cached parent carries of emitted heads. */
  function NewBlockFor<S>(c: Component<S>, items: Items<S>, chain: seq<Block>): Items<S>
    requires chain != []
  {
    var hash := chain[0].hash;
    var carried := if |chain| > 1 then EmittedOf(items, c.name, chain[1].hash) else None;
    var more := items[Key(hash, OfState(c.name)) := TheState(NewState(c, items, chain))];
    if carried.Some? then more[Key(hash, OfEmittedState(c.name)) := TheState(carried.value)] else more
  }

  function NewBlockItems<S>(cs: seq<Component<S>>, items: Items<S>, chain: seq<Block>): Items<S>
    requires chain != []
    decreases |cs|
  {
    if cs == [] then items else NewBlockItems(cs[1..], NewBlockFor(cs[0], items, chain), chain)
  }

  // ---- A new head --------------------------------------------------------------------------------------

  /** The head becomes the nearest emitted block of itself. */
  function NewHeadFor<S>(c: Component<S>, items: Items<S>, hash: Hash, state: S): Items<S> {
    items[Key(hash, OfEmittedState(c.name)) := TheState(state)]
  }

  function ActionsFor<S>(c: Component<S>, items: Items<S>, hash: Hash, state: S): seq<ActionStore.Action> {
    match EmittedOf(items, c.name, hash)
    case Some(previous) => c.detect(previous, state)
    case None => []
  }

  /** Goes through the components, and stops at the first one that has no state for the head. */
  function NewHeadItems<S>(cs: seq<Component<S>>, items: Items<S>, hash: Hash): Items<S>
    decreases |cs|
  {
    if cs == [] then items
    else
      match AnchorOf(items, cs[0].name, hash)
      case None => items
      case Some(state) => NewHeadItems(cs[1..], NewHeadFor(cs[0], items, hash, state), hash)
  }

  /** The actions that a new head makes each component store, in the order of the components. */
  function NewHeadActions<S>(cs: seq<Component<S>>, items: Items<S>, hash: Hash): seq<seq<ActionStore.Action>>
    decreases |cs|
  {
    if cs == [] then []
    else
      match AnchorOf(items, cs[0].name, hash)
      case None => []
      case Some(state) =>
        [ActionsFor(cs[0], items, hash, state)] + NewHeadActions(cs[1..], NewHeadFor(cs[0], items, hash, state), hash)
  }

  // ---- Components do not disturb each other ------------------------------------------------------------

  ghost predicate SameView<S>(items: Items<S>, other: Items<S>, name: string) {
    forall h :: AnchorOf(items, name, h) == AnchorOf(other, name, h) && EmittedOf(items, name, h) == EmittedOf(other, name, h)
  }

  ghost predicate DistinctNames<S>(cs: seq<Component<S>>) {
    forall i, j :: 0 <= i < j < |cs| ==> cs[i].name != cs[j].name
  }

  lemma {:induction false} OthersUntouched<S>(cs: seq<Component<S>>, items: Items<S>, chain: seq<Block>, name: string)
    requires chain != [] && forall i :: 0 <= i < |cs| ==> cs[i].name != name
    ensures SameView(items, NewBlockItems(cs, items, chain), name)
    decreases |cs|
  {
    if cs != [] {
      OthersUntouched(cs[1..], NewBlockFor(cs[0], items, chain), chain, name);
    }
  }

  lemma SameViewSameBlock<S>(c: Component<S>, items: Items<S>, other: Items<S>, chain: seq<Block>)
    requires chain != [] && SameView(items, other, c.name)
    ensures SameView(NewBlockFor(c, items, chain), NewBlockFor(c, other, chain), c.name)
  {
    if |chain| > 1 {
      var parent := chain[1].hash;
      assert AnchorOf(items, c.name, parent) == AnchorOf(other, c.name, parent);
      assert EmittedOf(items, c.name, parent) == EmittedOf(other, c.name, parent);
    }
    var (a, b) := (NewBlockFor(c, items, chain), NewBlockFor(c, other, chain));
    forall h ensures AnchorOf(a, c.name, h) == AnchorOf(b, c.name, h) && EmittedOf(a, c.name, h) == EmittedOf(b, c.name, h) {
      assert AnchorOf(items, c.name, h) == AnchorOf(other, c.name, h);
      assert EmittedOf(items, c.name, h) == EmittedOf(other, c.name, h);
    }
  }

  /** What a new block does to the states of a component is what that component alone would do. */
  lemma {:induction false} NewBlockIsPerComponent<S>(cs: seq<Component<S>>, items: Items<S>, chain: seq<Block>, i: nat)
    requires chain != [] && DistinctNames(cs) && i < |cs|
    ensures SameView(NewBlockItems(cs, items, chain), NewBlockFor(cs[i], items, chain), cs[i].name)
    decreases |cs|
  {
    var next := NewBlockFor(cs[0], items, chain);
    if i == 0 {
      OthersUntouched(cs[1..], next, chain, cs[0].name);
    } else {
      NewBlockIsPerComponent(cs[1..], next, chain, i - 1);
      assert cs[0].name != cs[i].name;
      SameViewSameBlock(cs[i], next, items, chain);
    }
  }

  /**
   * The anchor state of a new block, for each of the components: its parent's state reduced by the block; if the parent
   * is cached without a state, the scan of the parent's cached ancestry reduced by the block; and without a cached
   * parent the scan of the block alone.
   */
  lemma NewStateOf<S>(cs: seq<Component<S>>, items: Items<S>, chain: seq<Block>, i: nat)
    requires chain != [] && DistinctNames(cs) && i < |cs|
    ensures var (r, parent) := (cs[i].reducer, if |chain| > 1 then AnchorOf(items, cs[i].name, chain[1].hash) else None);
      AnchorOf(NewBlockItems(cs, items, chain), cs[i].name, chain[0].hash)
      == Some(if parent.Some? then r.reduce(parent.value, chain[0])
              else if |chain| > 1 then Folded(r, chain, 1)
              else Folded(r, chain, 0))
  {
    NewBlockIsPerComponent(cs, items, chain, i);
    var (all, alone) := (NewBlockItems(cs, items, chain), NewBlockFor(cs[i], items, chain));
    assert AnchorOf(all, cs[i].name, chain[0].hash) == AnchorOf(alone, cs[i].name, chain[0].hash);
  }

  lemma {:induction false} OthersUntouchedByHead<S>(cs: seq<Component<S>>, items: Items<S>, hash: Hash, name: string)
    requires forall i :: 0 <= i < |cs| ==> cs[i].name != name
    ensures SameView(items, NewHeadItems(cs, items, hash), name)
    decreases |cs|
  {
    if cs != [] && AnchorOf(items, cs[0].name, hash).Some? {
      OthersUntouchedByHead(cs[1..], NewHeadFor(cs[0], items, hash, AnchorOf(items, cs[0].name, hash).value), hash, name);
    }
  }

  /** The same for a new head of which every component has a state. */
  lemma {:induction false} NewHeadIsPerComponent<S>(cs: seq<Component<S>>, items: Items<S>, hash: Hash, i: nat)
    requires DistinctNames(cs) && i < |cs|
    requires forall j :: 0 <= j < |cs| ==> AnchorOf(items, cs[j].name, hash).Some?
    ensures var state := AnchorOf(items, cs[i].name, hash).value;
      && SameView(NewHeadItems(cs, items, hash), NewHeadFor(cs[i], items, hash, state), cs[i].name)
      && |NewHeadActions(cs, items, hash)| == |cs|
      && NewHeadActions(cs, items, hash)[i] == ActionsFor(cs[i], items, hash, state)
    decreases |cs|
  {
    var next := NewHeadFor(cs[0], items, hash, AnchorOf(items, cs[0].name, hash).value);
    forall j | 1 <= j < |cs| ensures AnchorOf(next, cs[j].name, hash) == AnchorOf(items, cs[j].name, hash) {}
    if i == 0 {
      OthersUntouchedByHead(cs[1..], next, hash, cs[0].name);
      if |cs| > 1 {
        NewHeadIsPerComponent(cs[1..], next, hash, 0);
      }
    } else {
      NewHeadIsPerComponent(cs[1..], next, hash, i - 1);
      assert cs[0].name != cs[i].name;
    }
  }

  /** Which components a head reaches: those that, with all before them, have a state for it. */
  lemma {:induction false} HeadReaches<S>(cs: seq<Component<S>>, items: Items<S>, hash: Hash, i: nat)
    requires DistinctNames(cs) && i < |cs|
    ensures if forall j :: 0 <= j <= i ==> AnchorOf(items, cs[j].name, hash).Some?
      then
        var state := AnchorOf(items, cs[i].name, hash).value;
        && SameView(NewHeadItems(cs, items, hash), NewHeadFor(cs[i], items, hash, state), cs[i].name)
        && |NewHeadActions(cs, items, hash)| > i
        && NewHeadActions(cs, items, hash)[i] == ActionsFor(cs[i], items, hash, state)
      else SameView(items, NewHeadItems(cs, items, hash), cs[i].name)
    decreases |cs|
  {
    hide AnchorOf, EmittedOf, NewHeadFor, ActionsFor, SameView;
    if AnchorOf(items, cs[0].name, hash).Some? {
      var next := NewHeadFor(cs[0], items, hash, AnchorOf(items, cs[0].name, hash).value);
      if i == 0 {
        OthersUntouchedByHead(cs[1..], next, hash, cs[0].name);
        ViewBack(next, NewHeadItems(cs[1..], next, hash), cs[0].name);
      } else {
        forall j | 1 <= j < |cs| ensures AnchorOf(next, cs[j].name, hash) == AnchorOf(items, cs[j].name, hash) {
          HeadStepView(cs[0], cs[j], items, hash, next);
        }
        assert forall j :: 0 <= j < |cs[1..]| ==> cs[1..][j] == cs[j + 1];
        assert cs[1..][i - 1] == cs[i];
        HeadReaches(cs[1..], next, hash, i - 1);
        HeadStepView(cs[0], cs[i], items, hash, next);
        var (all, c) := (NewHeadItems(cs[1..], next, hash), cs[i]);
        if AnchorOf(items, c.name, hash).Some? {
          var state := AnchorOf(items, c.name, hash).value;
          ViewTransitive(all, NewHeadFor(c, next, hash, state), NewHeadFor(c, items, hash, state), c.name);
        }
        ViewTransitive(items, next, all, c.name);
      }
    } else {
      SameAsItself(items, cs[i].name);
    }
  }

  lemma SameAsItself<S>(items: Items<S>, name: string)
    ensures SameView(items, items, name)
  {
  }

  lemma ViewBack<S>(a: Items<S>, b: Items<S>, name: string)
    requires SameView(a, b, name)
    ensures SameView(b, a, name)
  {
  }

  lemma ViewTransitive<S>(a: Items<S>, b: Items<S>, c: Items<S>, name: string)
    ensures SameView(a, b, name) && SameView(b, c, name) ==> SameView(a, c, name)
  {
  }

  lemma HeadStepView<S>(first: Component<S>, c: Component<S>, items: Items<S>, hash: Hash, next: Items<S>)
    requires first.name != c.name && AnchorOf(items, first.name, hash).Some?
    requires next == NewHeadFor(first, items, hash, AnchorOf(items, first.name, hash).value)
    ensures SameView(items, next, c.name) && AnchorOf(next, c.name, hash) == AnchorOf(items, c.name, hash)
    ensures forall state :: SameView(NewHeadFor(c, next, hash, state), NewHeadFor(c, items, hash, state), c.name)
    ensures forall state :: ActionsFor(c, next, hash, state) == ActionsFor(c, items, hash, state)
  {
  }

  // ---- Storing the actions of a head -------------------------------------------------------------------

  /** The components before `i` have been gone through; component `i` comes next. */
  lemma {:induction false} OneMoreComponent<S>(cs: seq<Component<S>>, items: Items<S>, hash: Hash, i: nat)
    requires i < |cs| && |NewHeadActions(cs[..i], items, hash)| == i
    ensures var now := NewHeadItems(cs[..i], items, hash);
      match AnchorOf(now, cs[i].name, hash)
      case None => true
      case Some(state) =>
        && NewHeadItems(cs[..i + 1], items, hash) == NewHeadFor(cs[i], now, hash, state)
        && NewHeadActions(cs[..i + 1], items, hash)
           == NewHeadActions(cs[..i], items, hash) + [ActionsFor(cs[i], now, hash, state)]
    decreases i
  {
    hide AnchorOf, NewHeadFor, ActionsFor;
    assert cs[..i + 1][0] == cs[0] && cs[..i + 1][1..] == cs[1..][..i];
    if i > 0 {
      assert cs[..i][0] == cs[0] && cs[..i][1..] == cs[1..][..i - 1];
      OneMoreComponent(cs[1..], NewHeadFor(cs[0], items, hash, AnchorOf(items, cs[0].name, hash).value), hash, i - 1);
    } else {
      assert cs[..1][1..] == [];
    }
  }

  /** Each action is wrapped with an identifier of its own. */
  function Wrapped(actions: seq<ActionStore.Action>, ids: (nat, nat) -> string, i: nat): (entries: seq<ActionStore.Entry>)
    ensures |entries| == |actions|
  {
    seq(|actions|, k requires 0 <= k < |actions| => ActionStore.Entry(ids(i, k), actions[k]))
  }

  /** The identifiers for components from `i` on are all different, and none of their keys is in the database. */
  ghost predicate Unused(disk: ActionStore.Disk, ids: (nat, nat) -> string, i: nat) {
    && (forall j: nat, k: nat, j': nat, k': nat :: ids(j, k) == ids(j', k') ==> j == j' && k == k')
    && (forall c, j: nat, k: nat :: j >= i && ':' !in c ==> ActionStore.KeyOf(c, ids(j, k)) !in disk)
  }

  lemma StillUnused(disk: ActionStore.Disk, component: string, actions: seq<ActionStore.Action>, ids: (nat, nat) -> string,
                    i: nat)
    requires Unused(disk, ids, i) && ':' !in component
    ensures Unused(ActionStore.PutAll(disk, component, Wrapped(actions, ids, i)), ids, i + 1)
  {
    var entries := Wrapped(actions, ids, i);
    var more := ActionStore.PutAll(disk, component, entries);
    ActionStore.PutAllKeys(disk, component, entries);
    forall c, j: nat, k: nat | j >= i + 1 && ':' !in c ensures ActionStore.KeyOf(c, ids(j, k)) !in more {
      var key := ActionStore.KeyOf(c, ids(j, k));
      if ActionStore.PutsKey(component, entries, key) {
        var l :| 0 <= l < |entries| && key == ActionStore.KeyOf(component, entries[l].id);
        ActionStore.KeysDetermine(c, ids(j, k), component, entries[l].id);
      }
    }
  }

  /** The components that `runs` belongs to have their states recorded, and their actions are in `runs`. */
  ghost predicate RecordedFor<S>(cs: seq<Component<S>>, before: Items<S>, now: Items<S>, hash: Hash,
                                 runs: seq<seq<ActionStore.Entry>>, ids: (nat, nat) -> string)
  {
    && |runs| <= |cs|
    && now == NewHeadItems(cs[..|runs|], before, hash)
    && var actions := NewHeadActions(cs[..|runs|], before, hash);
       |actions| == |runs| && forall i :: 0 <= i < |runs| ==> runs[i] == Wrapped(actions[i], ids, i)
  }

  /** Their actions, and no others, have been added to what the components had stored. */
  ghost predicate StoredFor<S>(cs: seq<Component<S>>, before: ActionStore.Memory, now: ActionStore.Memory,
                               runs: seq<seq<ActionStore.Entry>>)
  {
    forall i :: 0 <= i < |cs| ==>
      ActionStore.At(now, cs[i].name)
      == ActionStore.At(before, cs[i].name) + if i < |runs| then ActionStore.Members(runs[i]) else {}
  }

  ghost predicate EndsAt<S>(cs: seq<Component<S>>, items: Items<S>, hash: Hash, n: nat, failing: Option<nat>) {
    n < |cs| ==>
      match AnchorOf(items, cs[n].name, hash)
      case None => true
      case Some(state) => failing == Some(n) && ActionsFor(cs[n], items, hash, state) != []
  }

  ghost predicate NoneFailed(runs: seq<seq<ActionStore.Entry>>, failing: Option<nat>) {
    failing.Some? && failing.value < |runs| ==> runs[failing.value] == []
  }

  lemma NothingYet<S>(cs: seq<Component<S>>, items: Items<S>, memory: ActionStore.Memory, hash: Hash,
                      ids: (nat, nat) -> string)
    ensures RecordedFor(cs, items, items, hash, [], ids) && StoredFor(cs, memory, memory, [])
  {
    assert cs[..0] == [];
  }

  lemma RecordedFurther<S>(cs: seq<Component<S>>, before: Items<S>, now: Items<S>, hash: Hash,
                           runs: seq<seq<ActionStore.Entry>>, ids: (nat, nat) -> string)
    requires RecordedFor(cs, before, now, hash, runs, ids) && |runs| < |cs|
    requires AnchorOf(now, cs[|runs|].name, hash).Some?
    ensures var (i, c) := (|runs|, cs[|runs|]);
      var state := AnchorOf(now, c.name, hash).value;
      RecordedFor(cs, before, NewHeadFor(c, now, hash, state), hash,
                  runs + [Wrapped(ActionsFor(c, now, hash, state), ids, i)], ids)
  {
    hide NewHeadItems, NewHeadActions, ActionsFor, AnchorOf, NewHeadFor, Wrapped;
    OneMoreComponent(cs, before, hash, |runs|);
  }

  /** One component has these entries more, and the others what they had. */
  ghost predicate GrownBy(had: ActionStore.Memory, now: ActionStore.Memory, component: string,
                          entries: seq<ActionStore.Entry>)
  {
    forall c ::
      ActionStore.At(now, c) == ActionStore.At(had, c) + (if c == component then ActionStore.Members(entries) else {})
  }

  lemma StoredFurther<S>(cs: seq<Component<S>>, before: ActionStore.Memory, had: ActionStore.Memory,
                         now: ActionStore.Memory, runs: seq<seq<ActionStore.Entry>>, entries: seq<ActionStore.Entry>)
    requires StoredFor(cs, before, had, runs) && |runs| < |cs| && DistinctNames(cs)
    requires GrownBy(had, now, cs[|runs|].name, entries)
    ensures StoredFor(cs, before, now, runs + [entries])
  {
    hide ActionStore.At, ActionStore.Members;
  }

  // ---- The machine as an object ------------------------------------------------------------------------

  class Machine<!S> {
    const components: seq<Component<S>>
    const store: ItemStore<S>
    const actionStore: ActionStore.Store

    constructor (components: seq<Component<S>>, store: ItemStore<S>, actionStore: ActionStore.Store)
      ensures this.components == components && this.store == store && this.actionStore == actionStore
    {
      this.components, this.store, this.actionStore := components, store, actionStore;
    }

    /** Names are different, as adding components ensures, and can be read back from the keys of actions. */
    ghost predicate Named() {
      DistinctNames(components) && forall i :: 0 <= i < |components| ==> ':' !in components[i].name
    }

    method ProcessNewBlock(chain: seq<Block>)
      requires chain != [] && store.batch.Some?
      modifies store
      ensures store.items == NewBlockItems(components, old(store.items), chain) && store.batch.Some?
    {
      var block := chain[0];
      for i := 0 to |components|
        invariant NewBlockItems(components[i..], store.items, chain) == NewBlockItems(components, old(store.items), chain)
        invariant store.batch.Some?
      {
        var c := components[i];
        assert components[i..][0] == c && components[i..][1..] == components[i + 1..];
        ghost var before := store.items;
        var newState := NewState(c, store.items, chain);
        var prevHeadAnchorState := if |chain| > 1 then EmittedOf(store.items, c.name, chain[1].hash) else None;
        var ok := store.PutBlockItem(block.number, Key(block.hash, OfState(c.name)), TheState(newState));
        if prevHeadAnchorState.Some? {
          ok := store.PutBlockItem(block.number, Key(block.hash, OfEmittedState(c.name)), TheState(prevHeadAnchorState.value));
        }
        assert store.items == NewBlockFor(c, before, chain);
      }
    }

    /** Writes the new actions of component `i`, if there are any. */
    method StoreNewActions(i: nat, newActions: seq<ActionStore.Action>, ids: (nat, nat) -> string)
      returns (entries: seq<ActionStore.Entry>)
      requires Named() && i < |components|
      requires ActionStore.Agrees(actionStore.actions, actionStore.disk) && Unused(actionStore.disk, ids, i)
      modifies actionStore
      ensures entries == Wrapped(newActions, ids, i)
      ensures ActionStore.Agrees(actionStore.actions, actionStore.disk) && Unused(actionStore.disk, ids, i + 1)
      ensures GrownBy(old(actionStore.actions), actionStore.actions, components[i].name, entries)
    {
      var c := components[i];
      StillUnused(actionStore.disk, c.name, newActions, ids, i);
      IdsAreNew(actionStore.disk, c.name, newActions, ids, i);
      hide ActionStore.Agrees, Unused;
      entries := [];
      if |newActions| > 0 {
        entries := actionStore.StoreActions(c.name, newActions, seq(|newActions|, k requires 0 <= k < |newActions| => ids(i, k)));
      }
      assert entries == Wrapped(newActions, ids, i);
      forall name
        ensures ActionStore.At(actionStore.actions, name)
          == ActionStore.At(old(actionStore.actions), name) + (if name == c.name then ActionStore.Members(entries) else {})
      {
        assert actionStore.GetActions(name) == ActionStore.At(actionStore.actions, name);
      }
    }

    /**
     * Stores the actions of each component before its new state is recorded, and returns what is run. It ends early at
     * a component without a state for the head, or when its actions cannot be written: the database fails at `failing`.
     */
    method ProcessNewHead(head: Block, ids: (nat, nat) -> string, failing: Option<nat>)
      returns (runs: seq<seq<ActionStore.Entry>>)
      requires Named() && store.batch.Some?
      requires ActionStore.Agrees(actionStore.actions, actionStore.disk) && Unused(actionStore.disk, ids, 0)
      modifies store, actionStore
      ensures store.batch.Some? && ActionStore.Agrees(actionStore.actions, actionStore.disk)
      ensures RecordedFor(components, old(store.items), store.items, head.hash, runs, ids)
      ensures StoredFor(components, old(actionStore.actions), actionStore.actions, runs)
      ensures EndsAt(components, store.items, head.hash, |runs|, failing) && NoneFailed(runs, failing)
    {
      runs := [];
      NothingYet(components, store.items, actionStore.actions, head.hash, ids);
      for i := 0 to |components|
        invariant |runs| == i && store.batch.Some?
        invariant ActionStore.Agrees(actionStore.actions, actionStore.disk) && Unused(actionStore.disk, ids, i)
        invariant RecordedFor(components, old(store.items), store.items, head.hash, runs, ids)
        invariant StoredFor(components, old(actionStore.actions), actionStore.actions, runs)
        invariant NoneFailed(runs, failing)
      {
        hide ActionStore.Agrees, RecordedFor, StoredFor, Unused, AnchorOf, ActionsFor, ActionStore.PutAll;
        var c := components[i];
        ghost var had := actionStore.actions;
        ghost var items := store.items;
        var state := AnchorOf(store.items, c.name, head.hash);
        if state.None? { return; }
        var newActions := ActionsFor(c, store.items, head.hash, state.value);
        if |newActions| > 0 && failing == Some(i) { return; }
        var entries := StoreNewActions(i, newActions, ids);
        StoredFurther(components, old(actionStore.actions), had, actionStore.actions, runs, entries);
        RecordedFurther(components, old(store.items), items, head.hash, runs, ids);
        runs := runs + [entries];
        var ok := store.PutBlockItem(head.number, Key(head.hash, OfEmittedState(c.name)), TheState(state.value));
      }
    }
  }

  lemma IdsAreNew(disk: ActionStore.Disk, component: string, actions: seq<ActionStore.Action>, ids: (nat, nat) -> string,
                  i: nat)
    requires Unused(disk, ids, i) && ':' !in component
    ensures forall k :: 0 <= k < |actions| ==> ActionStore.KeyOf(component, ids(i, k)) !in disk
    ensures forall k, l :: 0 <= k < l < |actions| ==> ids(i, k) != ids(i, l)
  {
  }
}
