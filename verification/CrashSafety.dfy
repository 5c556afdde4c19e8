/**
 * Crashes between durable writes. A head is processed component by component: the actions it calls for are written to
 * the database of actions at once, the emitted states only at the end, in one batch. Actions run in the background; an
 * action that completed is removed from the database later, and a restart runs whatever is still there. A block that is
 * attached carries on the emitted states of its parent, so these reach the disk with blocks as well as with heads.
 *
 * Sources: src/blockMonitor/blockchainMachine.ts, actionStore.ts and blockProcessor.ts.
 */
module CrashSafety {
  import opened Wrappers
  import opened BlockCache
  import opened ActionStore

  type Id = string

  /**
   * How many components there are, how each finds the state of a block, from its cached ancestry or from the state of
   * its parent, and what it calls for when its state changes.
   */
  datatype Machine<!S> = Machine(count: nat, initial: (nat, seq<Hash>) -> S, reduce: (nat, S, Hash) -> S,
                                 detect: (nat, S, S) -> seq<Action>)

  /** What processing a head did for one component: the states it compared, the actions and their identifiers. */
  datatype Record<S> = Record(component: nat, head: Hash, previous: Option<S>, state: S, actions: seq<Action>, ids: seq<Id>)

  /** A head that is being processed, and the next component to process it. */
  datatype Pending = Pending(head: Hash, next: nat)

  type States<S> = map<(nat, Hash), S>

  /**
   * `anchors` and `emitted` are the states in memory and `diskAnchors` and `diskEmitted` those on disk, by component and
   * block; `database` holds the stored actions, `memory` lists them, and `running` those that are being applied.
   *
   * `completed`, `log`, `heads` and `ancestors` record the past: actions that took effect, records, the heads whose
   * emission is on disk (a block that is attached anew, because its first attachment was lost, no longer counts), and for
   * each block the blocks it was found to descend from, itself included.
   */
  datatype State<S> = State(
    up: bool, anchors: States<S>, emitted: States<S>, diskAnchors: States<S>, diskEmitted: States<S>,
    database: map<Id, (nat, Action)>, memory: set<Id>, running: set<Id>, pending: Option<Pending>,
    completed: set<Id>, log: seq<Record<S>>, heads: set<Hash>, ancestors: map<Hash, set<Hash>>)

  function StartState<S>(): State<S> {
    State(true, map[], map[], map[], map[], map[], {}, {}, None, {}, [], {}, map[])
  }

  datatype Step =
    /** A new block, with its cached ancestry, itself first; the batch may fail to be written. */
    | Attach(chain: seq<Hash>, written: bool)
    /** Blocks are pruned, in a batch that may fail to be written. */
    | Prune(hashes: set<Hash>, written: bool)
    | BeginHead(head: Hash)
    /** The next component stores its actions, under new identifiers, and then sets its emitted state in memory. */
    | ProcessComponent(ids: seq<Id>)
    | WriteHead
    | FailHead
    | CompleteAction(id: Id)
    | FailAction(id: Id)
    | RemoveAction(id: Id)
    | Crash
    | Restart

  function Called<S>(m: Machine<S>, component: nat, previous: Option<S>, state: S): seq<Action> {
    match previous
    case None => []
    case Some(p) => m.detect(component, p, state)
  }

  function Lookup<S>(states: States<S>, component: nat, hash: Hash): Option<S> {
    if (component, hash) in states then Some(states[(component, hash)]) else None
  }

  /** The states of one head, of all components, as they are in memory. */
  function OfHead<S>(states: States<S>, head: Hash): States<S> {
    map k | k in states && k.1 == head :: states[k]
  }

  function Without<S>(states: States<S>, hashes: set<Hash>): States<S> {
    map k | k in states && k.1 !in hashes :: states[k]
  }

  function NewState<S>(m: Machine<S>, anchors: States<S>, component: nat, chain: seq<Hash>): S
    requires chain != []
  {
    if |chain| > 1 then
      var previous := match Lookup(anchors, component, chain[1])
        case Some(s) => s
        case None => m.initial(component, chain[1..]);
      m.reduce(component, previous, chain[0])
    else m.initial(component, chain)
  }

  /** The states of a new block, one for each component. */
  function Anchored<S>(m: Machine<S>, anchors: States<S>, chain: seq<Hash>): States<S>
    requires chain != []
  {
    map i: nat | i < m.count :: (i, chain[0]) := NewState(m, anchors, i, chain)
  }

  /** What a new block carries: the emitted states of its cached parent. */
  function Carried<S>(m: Machine<S>, emitted: States<S>, chain: seq<Hash>): States<S>
    requires chain != []
  {
    map i: nat | i < m.count && |chain| > 1 && (i, chain[1]) in emitted :: (i, chain[0]) := emitted[(i, chain[1])]
  }

  function AncestorsOf(ancestors: map<Hash, set<Hash>>, hash: Hash): set<Hash> {
    if hash in ancestors then ancestors[hash] else {hash}
  }

  function WithAncestors(ancestors: map<Hash, set<Hash>>, chain: seq<Hash>): map<Hash, set<Hash>>
    requires chain != []
  {
    var own := AncestorsOf(ancestors, chain[0]) + {chain[0]};
    ancestors[chain[0] := if |chain| > 1 then own + AncestorsOf(ancestors, chain[1]) else own]
  }

  function Stored(component: nat, actions: seq<Action>, ids: seq<Id>): map<Id, (nat, Action)>
    requires |ids| == |actions|
    decreases |ids|
  {
    if ids == [] then map[]
    else Stored(component, actions[..|ids| - 1], ids[..|ids| - 1])[ids[|ids| - 1] := (component, actions[|ids| - 1])]
  }

  ghost predicate NewIds<S>(s: State<S>, ids: seq<Id>) {
    && (forall i :: 0 <= i < |ids| ==> ids[i] !in s.database && ids[i] !in s.completed)
    && (forall r, i :: 0 <= r < |s.log| && 0 <= i < |ids| ==> ids[i] !in s.log[r].ids)
    && (forall i, j :: 0 <= i < j < |ids| ==> ids[i] != ids[j])
  }

  /** Which step can be taken when. A block is attached once for as long as it is in memory. */
  ghost predicate Enabled<S>(m: Machine<S>, s: State<S>, step: Step) {
    match step
    case Attach(chain, written) =>
      s.up && s.pending.None? && chain != [] && forall i: nat :: i < m.count ==> (i, chain[0]) !in s.anchors
    case Prune(hashes, written) => s.up && s.pending.None?
    case BeginHead(head) => s.up && s.pending.None? && forall i: nat :: i < m.count ==> (i, head) in s.anchors
    case ProcessComponent(ids) =>
      && s.up && s.pending.Some? && s.pending.value.next < m.count
      && var (i, head) := (s.pending.value.next, s.pending.value.head);
      && (i, head) in s.anchors
      && |ids| == |Called(m, i, Lookup(s.emitted, i, head), s.anchors[(i, head)])| && NewIds(s, ids)
    case WriteHead => s.up && s.pending.Some? && s.pending.value.next == m.count
    case FailHead => s.up && s.pending.Some?
    case CompleteAction(id) => s.up && id in s.running
    case FailAction(id) => s.up && id in s.running
    case RemoveAction(id) => s.up && id in s.completed && id in s.memory
    case Crash => s.up
    case Restart => !s.up
  }

  function After<S>(m: Machine<S>, s: State<S>, step: Step): State<S>
    requires Enabled(m, s, step)
  {
    match step
    case Attach(chain, written) =>
      var (a, e) := (Anchored(m, s.anchors, chain), Carried(m, s.emitted, chain));
      s.(anchors := s.anchors + a, emitted := s.emitted + e,
         diskAnchors := if written then s.diskAnchors + a else s.diskAnchors,
         diskEmitted := if written then s.diskEmitted + e else s.diskEmitted,
         heads := if written then s.heads - {chain[0]} else s.heads,
         ancestors := WithAncestors(s.ancestors, chain))
    case Prune(hashes, written) =>
      s.(anchors := Without(s.anchors, hashes), emitted := Without(s.emitted, hashes),
         diskAnchors := if written then Without(s.diskAnchors, hashes) else s.diskAnchors,
         diskEmitted := if written then Without(s.diskEmitted, hashes) else s.diskEmitted,
         heads := if written then s.heads - hashes else s.heads)
    case BeginHead(head) => s.(pending := Some(Pending(head, 0)))
    case ProcessComponent(ids) =>
      var Pending(head, i) := s.pending.value;
      var (previous, state) := (Lookup(s.emitted, i, head), s.anchors[(i, head)]);
      var actions := Called(m, i, previous, state);
      s.(database := s.database + Stored(i, actions, ids), memory := s.memory + (set id | id in ids),
         running := s.running + (set id | id in ids), emitted := s.emitted[(i, head) := state],
         pending := Some(Pending(head, i + 1)), log := s.log + [Record(i, head, previous, state, actions, ids)])
    case WriteHead =>
      var head := s.pending.value.head;
      s.(diskEmitted := s.diskEmitted + OfHead(s.emitted, head), pending := None, heads := s.heads + {head})
    case FailHead => s.(pending := None)
    case CompleteAction(id) => s.(completed := s.completed + {id}, running := s.running - {id})
    case FailAction(id) => s.(running := s.running - {id})
    case RemoveAction(id) => s.(database := s.database - {id}, memory := s.memory - {id})
    case Crash => s.(up := false, anchors := map[], emitted := map[], memory := {}, running := {}, pending := None)
    case Restart =>
      s.(up := true, anchors := s.diskAnchors, emitted := s.diskEmitted, memory := s.database.Keys,
         running := set id | id in s.database && s.database[id].0 < m.count)
  }

  // ---- The invariant -----------------------------------------------------------------------------------

  /** An action of a record is in the database under its identifier, or took effect. */
  ghost predicate SafeAction<S>(s: State<S>, r: Record<S>, k: nat)
    requires k < |r.ids| == |r.actions|
  {
    r.ids[k] in s.completed || (r.ids[k] in s.database && s.database[r.ids[k]] == (r.component, r.actions[k]))
  }

  /** A record holds all that its component calls for, and all of it is safe. */
  ghost predicate Safe<S>(m: Machine<S>, s: State<S>, r: Record<S>) {
    && r.actions == Called(m, r.component, r.previous, r.state) && |r.ids| == |r.actions|
    && (forall k :: 0 <= k < |r.ids| ==> SafeAction(s, r, k))
  }

  ghost predicate AllSafe<S>(m: Machine<S>, s: State<S>) {
    forall r :: 0 <= r < |s.log| ==> Safe(m, s, s.log[r])
  }

  /** The component processed one of these heads and recorded this state. */
  ghost predicate Processed<S>(log: seq<Record<S>>, component: nat, heads: set<Hash>, state: S) {
    exists r :: 0 <= r < |log| && log[r].component == component && log[r].head in heads && log[r].state == state
  }

  /** Every emitted state is that of a processed head from which the block descends, the block itself included. */
  ghost predicate Grounded<S>(log: seq<Record<S>>, ancestors: map<Hash, set<Hash>>, states: States<S>) {
    forall i, h :: (i, h) in states ==> Processed(log, i, AncestorsOf(ancestors, h), states[(i, h)])
  }

  /** The emission of these heads is recorded by every component. */
  ghost predicate Recorded<S>(m: Machine<S>, log: seq<Record<S>>, heads: set<Hash>, states: States<S>) {
    forall head, i: nat :: head in heads && i < m.count ==>
      (i, head) in states && Processed(log, i, {head}, states[(i, head)])
  }

  /** The components before the next one processed the pending head. */
  ghost predicate Underway<S>(m: Machine<S>, log: seq<Record<S>>, pending: Option<Pending>, emitted: States<S>) {
    pending.Some? ==>
      && pending.value.next <= m.count
      && forall i: nat :: i < pending.value.next ==>
           (i, pending.value.head) in emitted && Processed(log, i, {pending.value.head}, emitted[(i, pending.value.head)])
  }

  /** A block descends from itself. */
  ghost predicate Reflexive(ancestors: map<Hash, set<Hash>>) {
    forall h :: h in AncestorsOf(ancestors, h)
  }

  ghost predicate Invariant<S>(m: Machine<S>, s: State<S>) {
    && AllSafe(m, s) && Reflexive(s.ancestors)
    && Grounded(s.log, s.ancestors, s.emitted) && Grounded(s.log, s.ancestors, s.diskEmitted)
    && Recorded(m, s.log, s.heads, s.diskEmitted)
    && Underway(m, s.log, s.pending, s.emitted) && (s.pending.Some? ==> s.up)
    && (s.up ==> s.memory == s.database.Keys)
    && (forall id :: id in s.database ==> s.database[id].0 < m.count)
  }

  lemma {:induction false} StoredMeans(component: nat, actions: seq<Action>, ids: seq<Id>)
    requires |ids| == |actions| && forall i, j :: 0 <= i < j < |ids| ==> ids[i] != ids[j]
    ensures forall id :: id in Stored(component, actions, ids) <==> id in ids
    ensures forall k :: 0 <= k < |ids| ==> Stored(component, actions, ids)[ids[k]] == (component, actions[k])
    ensures forall id :: id in ids ==> Stored(component, actions, ids)[id].0 == component
    decreases |ids|
  {
    if ids != [] {
      var n := |ids| - 1;
      StoredMeans(component, actions[..n], ids[..n]);
      forall k | 0 <= k < n ensures ids[k] == ids[..n][k] && actions[k] == actions[..n][k] {}
      forall id ensures id in ids <==> id in ids[..n] || id == ids[n] {}
    }
  }

  lemma ProcessedStays<S>(log: seq<Record<S>>, more: seq<Record<S>>, i: nat, heads: set<Hash>, others: set<Hash>, state: S)
    requires Processed(log, i, heads, state) && log <= more && heads <= others
    ensures Processed(more, i, others, state)
  {
    var k :| 0 <= k < |log| && log[k].component == i && log[k].head in heads && log[k].state == state;
    assert more[k] == log[k];
  }

  /** Records stay safe when actions are added under new identifiers, and when completed ones are removed. */
  lemma SafeStays<S>(m: Machine<S>, s: State<S>, t: State<S>, r: Record<S>)
    requires Safe(m, s, r) && s.completed <= t.completed
    requires forall id :: id in s.database && id !in t.completed ==> id in t.database && t.database[id] == s.database[id]
    ensures Safe(m, t, r)
  {
    forall k | 0 <= k < |r.ids| ensures SafeAction(t, r, k) {
      assert SafeAction(s, r, k);
    }
  }

  lemma AllStaySafe<S>(m: Machine<S>, s: State<S>, t: State<S>)
    requires AllSafe(m, s) && t.log == s.log && s.completed <= t.completed
    requires forall id :: id in s.database && id !in t.completed ==> id in t.database && t.database[id] == s.database[id]
    ensures AllSafe(m, t)
  {
    forall r | 0 <= r < |t.log| ensures Safe(m, t, t.log[r]) {
      SafeStays(m, s, t, s.log[r]);
    }
  }

  lemma GroundedStays<S>(log: seq<Record<S>>, more: seq<Record<S>>, a: map<Hash, set<Hash>>, b: map<Hash, set<Hash>>,
                         states: States<S>)
    requires Grounded(log, a, states) && log <= more && forall h :: AncestorsOf(a, h) <= AncestorsOf(b, h)
    ensures Grounded(more, b, states)
  {
    forall i, h | (i, h) in states ensures Processed(more, i, AncestorsOf(b, h), states[(i, h)]) {
      ProcessedStays(log, more, i, AncestorsOf(a, h), AncestorsOf(b, h), states[(i, h)]);
    }
  }

  lemma RecordedStays<S>(m: Machine<S>, log: seq<Record<S>>, more: seq<Record<S>>, heads: set<Hash>, states: States<S>)
    requires Recorded(m, log, heads, states) && log <= more
    ensures Recorded(m, more, heads, states)
  {
    forall head, i: nat | head in heads && i < m.count ensures Processed(more, i, {head}, states[(i, head)]) {
      ProcessedStays(log, more, i, {head}, {head}, states[(i, head)]);
    }
  }

  /** Merging grounded states keeps them grounded. */
  lemma GroundedTogether<S>(log: seq<Record<S>>, ancestors: map<Hash, set<Hash>>, states: States<S>, others: States<S>)
    requires Grounded(log, ancestors, states) && Grounded(log, ancestors, others)
    ensures Grounded(log, ancestors, states + others)
  {
    var all := states + others;
    forall i, h | (i, h) in all ensures Processed(log, i, AncestorsOf(ancestors, h), all[(i, h)]) {
      if (i, h) in others {
        assert all[(i, h)] == others[(i, h)];
      } else {
        assert all[(i, h)] == states[(i, h)];
      }
    }
  }

  /** What a block carries is grounded: it comes from its parent, and the parent's ancestors are its own. */
  lemma CarriedIsGrounded<S>(m: Machine<S>, log: seq<Record<S>>, ancestors: map<Hash, set<Hash>>, emitted: States<S>,
                             chain: seq<Hash>)
    requires Grounded(log, ancestors, emitted) && chain != []
    ensures Grounded(log, WithAncestors(ancestors, chain), Carried(m, emitted, chain))
  {
    var (e, b) := (Carried(m, emitted, chain), WithAncestors(ancestors, chain));
    forall i, h | (i, h) in e ensures Processed(log, i, AncestorsOf(b, h), e[(i, h)]) {
      assert h == chain[0] && (i, chain[1]) in emitted && e[(i, h)] == emitted[(i, chain[1])];
      ProcessedStays(log, log, i, AncestorsOf(ancestors, chain[1]), AncestorsOf(b, h), e[(i, h)]);
    }
  }

  lemma ProcessingIsSafe<S>(m: Machine<S>, s: State<S>, ids: seq<Id>)
    requires AllSafe(m, s) && Enabled(m, s, ProcessComponent(ids))
    ensures AllSafe(m, After(m, s, ProcessComponent(ids)))
  {
    var t := After(m, s, ProcessComponent(ids));
    var r := t.log[|s.log|];
    StoredMeans(r.component, r.actions, ids);
    forall k | 0 <= k < |r.ids| ensures SafeAction(t, r, k) {}
    forall k | 0 <= k < |t.log| ensures Safe(m, t, t.log[k]) {
      if k < |s.log| {
        SafeStays(m, s, t, s.log[k]);
      }
    }
  }

  lemma ProcessingKeeps<S>(m: Machine<S>, s: State<S>, ids: seq<Id>)
    requires Invariant(m, s) && Enabled(m, s, ProcessComponent(ids))
    ensures Invariant(m, After(m, s, ProcessComponent(ids)))
  {
    var t := After(m, s, ProcessComponent(ids));
    var Pending(head, i) := s.pending.value;
    var r := t.log[|s.log|];
    ProcessingIsSafe(m, s, ids);
    StoredMeans(i, r.actions, ids);
    assert t.memory == t.database.Keys;
    hide AllSafe, Stored, Grounded, Recorded, Underway, NewIds, Called;
    GroundedStays(s.log, t.log, s.ancestors, t.ancestors, s.emitted);
    GroundedStays(s.log, t.log, s.ancestors, t.ancestors, s.diskEmitted);
    RecordedStays(m, s.log, t.log, s.heads, s.diskEmitted);
    EmittedNow(s.log, r, s.ancestors, s.emitted);
    UnderwayFurther(m, s.log, r, s.pending.value, s.emitted);
  }

  lemma EmittedNow<S>(log: seq<Record<S>>, r: Record<S>, ancestors: map<Hash, set<Hash>>, emitted: States<S>)
    requires Grounded(log + [r], ancestors, emitted) && r.head in AncestorsOf(ancestors, r.head)
    ensures Grounded(log + [r], ancestors, emitted[(r.component, r.head) := r.state])
  {
    var (more, now) := (log + [r], emitted[(r.component, r.head) := r.state]);
    assert more[|log|] == r;
    forall i, h | (i, h) in now ensures Processed(more, i, AncestorsOf(ancestors, h), now[(i, h)]) {
      if (i, h) != (r.component, r.head) {
        assert now[(i, h)] == emitted[(i, h)];
      }
    }
  }

  lemma UnderwayFurther<S>(m: Machine<S>, log: seq<Record<S>>, r: Record<S>, p: Pending, emitted: States<S>)
    requires Underway(m, log, Some(p), emitted) && r.component == p.next < m.count && r.head == p.head
    ensures Underway(m, log + [r], Some(Pending(p.head, p.next + 1)), emitted[(p.next, p.head) := r.state])
  {
    var (more, now) := (log + [r], emitted[(p.next, p.head) := r.state]);
    assert more[|log|] == r;
    forall i: nat | i < p.next + 1 ensures (i, p.head) in now && Processed(more, i, {p.head}, now[(i, p.head)]) {
      if i < p.next {
        ProcessedStays(log, more, i, {p.head}, {p.head}, emitted[(i, p.head)]);
      }
    }
  }

  lemma WritingKeeps<S>(m: Machine<S>, s: State<S>)
    requires Invariant(m, s) && Enabled(m, s, WriteHead)
    ensures Invariant(m, After(m, s, WriteHead))
  {
    var t := After(m, s, WriteHead);
    var head := s.pending.value.head;
    AllStaySafe(m, s, t);
    hide AllSafe;
    assert Grounded(s.log, s.ancestors, OfHead(s.emitted, head));
    GroundedTogether(s.log, s.ancestors, s.diskEmitted, OfHead(s.emitted, head));
    forall h, i: nat | h in t.heads && i < m.count
      ensures (i, h) in t.diskEmitted && Processed(t.log, i, {h}, t.diskEmitted[(i, h)])
    {
      if h == head {
        assert (i, h) in OfHead(s.emitted, head);
      } else {
        assert (i, h) !in OfHead(s.emitted, head);
      }
    }
  }

  lemma RecordedBesides<S>(m: Machine<S>, log: seq<Record<S>>, heads: set<Hash>, states: States<S>, others: States<S>,
                           fewer: set<Hash>)
    requires Recorded(m, log, heads, states) && fewer <= heads
    requires forall i, h :: (i, h) in others ==> h !in fewer
    ensures Recorded(m, log, fewer, states + others)
  {
    forall h, i: nat | h in fewer && i < m.count
      ensures (i, h) in states + others && Processed(log, i, {h}, (states + others)[(i, h)])
    {
      assert (i, h) !in others;
      assert (states + others)[(i, h)] == states[(i, h)];
    }
  }

  lemma AncestorsGrow(ancestors: map<Hash, set<Hash>>, chain: seq<Hash>)
    requires chain != [] && Reflexive(ancestors)
    ensures Reflexive(WithAncestors(ancestors, chain))
    ensures forall h :: AncestorsOf(ancestors, h) <= AncestorsOf(WithAncestors(ancestors, chain), h)
  {
    forall h ensures h in AncestorsOf(WithAncestors(ancestors, chain), h) {
      assert h in AncestorsOf(ancestors, h);
    }
  }

  /** A block that is attached takes over states that are grounded already. */
  lemma AttachingKeeps<S>(m: Machine<S>, s: State<S>, step: Step)
    requires Invariant(m, s) && Enabled(m, s, step) && step.Attach?
    ensures Invariant(m, After(m, s, step))
  {
    var (t, chain) := (After(m, s, step), step.chain);
    var e := Carried(m, s.emitted, chain);
    assert forall i, h :: (i, h) in e ==> h == chain[0];
    AllStaySafe(m, s, t);
    AncestorsGrow(s.ancestors, chain);
    hide AllSafe, WithAncestors, Reflexive, Anchored, Grounded, Recorded, Carried;
    GroundedStays(s.log, s.log, s.ancestors, t.ancestors, s.emitted);
    GroundedStays(s.log, s.log, s.ancestors, t.ancestors, s.diskEmitted);
    CarriedIsGrounded(m, s.log, s.ancestors, s.emitted, chain);
    GroundedTogether(s.log, t.ancestors, s.emitted, e);
    GroundedTogether(s.log, t.ancestors, s.diskEmitted, e);
    if step.written {
      RecordedBesides(m, s.log, s.heads, s.diskEmitted, e, t.heads);
    }
  }

  lemma PruningKeeps<S>(m: Machine<S>, s: State<S>, step: Step)
    requires Invariant(m, s) && Enabled(m, s, step) && step.Prune?
    ensures Invariant(m, After(m, s, step))
  {
    AllStaySafe(m, s, After(m, s, step));
    hide AllSafe, Processed;
  }

  lemma ActionsKeep<S>(m: Machine<S>, s: State<S>, step: Step)
    requires Invariant(m, s) && Enabled(m, s, step)
    requires !step.Attach? && !step.Prune? && !step.ProcessComponent? && !step.WriteHead?
    ensures Invariant(m, After(m, s, step))
  {
    AllStaySafe(m, s, After(m, s, step));
    hide AllSafe, Processed;
  }

  /** Every step keeps the invariant, crashes and failing writes included. */
  lemma StepKeepsInvariant<S>(m: Machine<S>, s: State<S>, step: Step)
    requires Invariant(m, s) && Enabled(m, s, step)
    ensures Invariant(m, After(m, s, step))
  {
    hide Invariant;
    match step
    case Attach(chain, written) => AttachingKeeps(m, s, step);
    case Prune(hashes, written) => PruningKeeps(m, s, step);
    case ProcessComponent(ids) => ProcessingKeeps(m, s, ids);
    case WriteHead => WritingKeeps(m, s);
    case _ => ActionsKeep(m, s, step);
  }

  // ---- Runs --------------------------------------------------------------------------------------------

  ghost predicate CanRun<S>(m: Machine<S>, s: State<S>, steps: seq<Step>)
    decreases |steps|
  {
    steps == [] || (Enabled(m, s, steps[0]) && CanRun(m, After(m, s, steps[0]), steps[1..]))
  }

  function Run<S>(m: Machine<S>, s: State<S>, steps: seq<Step>): State<S>
    requires CanRun(m, s, steps)
    decreases |steps|
  {
    if steps == [] then s else Run(m, After(m, s, steps[0]), steps[1..])
  }

  lemma {:induction false} RunKeepsInvariant<S>(m: Machine<S>, s: State<S>, steps: seq<Step>)
    requires Invariant(m, s) && CanRun(m, s, steps)
    ensures Invariant(m, Run(m, s, steps))
    decreases |steps|
  {
    hide Invariant, After, Enabled;
    if steps != [] {
      StepKeepsInvariant(m, s, steps[0]);
      RunKeepsInvariant(m, After(m, s, steps[0]), steps[1..]);
    }
  }

  /** The states that some run of steps leads to. */
  ghost predicate Reachable<S>(m: Machine<S>, s: State<S>) {
    exists steps :: CanRun(m, StartState(), steps) && Run(m, StartState(), steps) == s
  }

  lemma ReachableInvariant<S>(m: Machine<S>, s: State<S>)
    requires Reachable(m, s)
    ensures Invariant(m, s)
  {
    var steps :| CanRun(m, StartState(), steps) && Run(m, StartState(), steps) == s;
    RunKeepsInvariant(m, StartState(), steps);
  }

  /**
   * Crash safety: in every run with crashes and failing writes anywhere, every emitted state, in memory or on disk, of a
   * head or carried by a block, was recorded when a component processed a head from which the block descends, and all
   * the actions it called for then are in the database or took effect.
   */
  lemma EmittedStatesHaveTheirActions<S>(m: Machine<S>, s: State<S>, h: Hash, i: nat, state: S)
    requires Reachable(m, s)
    requires Lookup(s.emitted, i, h) == Some(state) || Lookup(s.diskEmitted, i, h) == Some(state)
    ensures exists r ::
      r in s.log && r.component == i && r.head in AncestorsOf(s.ancestors, h) && r.state == state && Safe(m, s, r)
  {
    ReachableInvariant(m, s);
    hide Safe, Reachable;
    assert Processed(s.log, i, AncestorsOf(s.ancestors, h), state);
    var k :| 0 <= k < |s.log| && s.log[k].component == i && s.log[k].head in AncestorsOf(s.ancestors, h)
      && s.log[k].state == state;
    assert Safe(m, s, s.log[k]);
  }

  /** For a head whose emission is on disk, the record is of that very head, and there is one for every component. */
  lemma HeadOnDiskHasItsActions<S>(m: Machine<S>, s: State<S>, head: Hash, i: nat)
    requires Reachable(m, s) && head in s.heads && i < m.count
    ensures (i, head) in s.diskEmitted
    ensures exists r ::
      r in s.log && r.component == i && r.head == head && r.state == s.diskEmitted[(i, head)] && Safe(m, s, r)
  {
    ReachableInvariant(m, s);
    hide Safe, Reachable;
    assert Processed(s.log, i, {head}, s.diskEmitted[(i, head)]);
    var k :| 0 <= k < |s.log| && s.log[k].component == i && s.log[k].head in {head}
      && s.log[k].state == s.diskEmitted[(i, head)];
    assert Safe(m, s, s.log[k]);
  }

  /** After a restart every action that was called for and has not taken effect is running again. */
  lemma RestartRunsTheRest<S>(m: Machine<S>, s: State<S>, r: Record<S>, k: nat)
    requires Reachable(m, s) && !s.up
    requires r in s.log && k < |r.ids| && r.ids[k] !in s.completed
    ensures r.ids[k] in After(m, s, Restart).running && r.ids[k] in After(m, s, Restart).memory
  {
    hide Reachable, Grounded, Recorded, Underway, Reflexive, Called;
    ReachableInvariant(m, s);
    var n :| 0 <= n < |s.log| && s.log[n] == r;
    assert Safe(m, s, s.log[n]);
    assert SafeAction(s, r, k);
  }

  // ---- Chains of comparisons ---------------------------------------------------------------------------

  /** What a record compares with was recorded before, by its component, for a head from which its own head descends. */
  ghost predicate LinkedAt<S>(log: seq<Record<S>>, ancestors: map<Hash, set<Hash>>, k: nat)
    requires k < |log|
  {
    log[k].previous.Some? ==>
      exists j :: 0 <= j < k && log[j].component == log[k].component
        && log[j].head in AncestorsOf(ancestors, log[k].head) && log[k].previous == Some(log[j].state)
  }

  ghost predicate Linked<S>(log: seq<Record<S>>, ancestors: map<Hash, set<Hash>>) {
    forall k :: 0 <= k < |log| ==> LinkedAt(log, ancestors, k)
  }

  lemma LinkedStays<S>(log: seq<Record<S>>, more: seq<Record<S>>, a: map<Hash, set<Hash>>, b: map<Hash, set<Hash>>, k: nat)
    requires log <= more && k < |log| && LinkedAt(log, a, k)
    requires forall h :: AncestorsOf(a, h) <= AncestorsOf(b, h)
    ensures LinkedAt(more, b, k)
  {
    assert more[k] == log[k];
    if log[k].previous.Some? {
      var j :| 0 <= j < k && log[j].component == log[k].component
        && log[j].head in AncestorsOf(a, log[k].head) && log[k].previous == Some(log[j].state);
      assert more[j] == log[j];
    }
  }

  lemma ComparedIsLinked<S>(log: seq<Record<S>>, ancestors: map<Hash, set<Hash>>, emitted: States<S>, r: Record<S>)
    requires Grounded(log, ancestors, emitted) && r.previous == Lookup(emitted, r.component, r.head)
    ensures LinkedAt(log + [r], ancestors, |log|)
  {
    if r.previous.Some? {
      assert Processed(log, r.component, AncestorsOf(ancestors, r.head), r.previous.value);
      var j :| 0 <= j < |log| && log[j].component == r.component && log[j].head in AncestorsOf(ancestors, r.head)
        && log[j].state == r.previous.value;
      assert (log + [r])[j] == log[j];
    }
  }

  lemma StepKeepsLinked<S>(m: Machine<S>, s: State<S>, step: Step)
    requires Invariant(m, s) && Linked(s.log, s.ancestors) && Enabled(m, s, step)
    ensures Linked(After(m, s, step).log, After(m, s, step).ancestors)
  {
    var t := After(m, s, step);
    if step.Attach? {
      AncestorsGrow(s.ancestors, step.chain);
    }
    if step.ProcessComponent? {
      ComparedIsLinked(s.log, s.ancestors, s.emitted, t.log[|s.log|]);
    }
    hide Invariant, WithAncestors, LinkedAt, Called, NewIds, Stored, Anchored, Carried;
    forall k | 0 <= k < |t.log| ensures LinkedAt(t.log, t.ancestors, k) {
      if k < |s.log| {
        LinkedStays(s.log, t.log, s.ancestors, t.ancestors, k);
      }
    }
  }

  lemma {:induction false} RunKeepsLinked<S>(m: Machine<S>, s: State<S>, steps: seq<Step>)
    requires Invariant(m, s) && Linked(s.log, s.ancestors) && CanRun(m, s, steps)
    ensures Linked(Run(m, s, steps).log, Run(m, s, steps).ancestors)
    decreases |steps|
  {
    hide Invariant, After, Enabled, Linked;
    if steps != [] {
      StepKeepsInvariant(m, s, steps[0]);
      StepKeepsLinked(m, s, steps[0]);
      RunKeepsLinked(m, After(m, s, steps[0]), steps[1..]);
    }
  }

  lemma ReachableLinked<S>(m: Machine<S>, s: State<S>)
    requires Reachable(m, s)
    ensures Linked(s.log, s.ancestors)
  {
    var steps :| CanRun(m, StartState(), steps) && Run(m, StartState(), steps) == s;
    RunKeepsLinked(m, StartState(), steps);
  }

  /**
   * Records of one component, each of which compared the state that the one before it recorded, up along one chain of
   * blocks; the first had nothing to compare with. All the actions that they called for are safe.
   */
  ghost predicate Comparisons<S>(m: Machine<S>, s: State<S>, rs: seq<Record<S>>) {
    && rs != [] && rs[0].previous == None
    && (forall k :: 0 <= k < |rs| ==> rs[k] in s.log && rs[k].component == rs[0].component && Safe(m, s, rs[k]))
    && (forall k {:trigger rs[k].state} :: 0 <= k < |rs| - 1 ==>
          && rs[k + 1].previous == Some(rs[k].state)
          && rs[k].head in AncestorsOf(s.ancestors, rs[k + 1].head))
  }

  lemma {:induction false} ComparisonsLeadTo<S>(m: Machine<S>, s: State<S>, k: nat) returns (rs: seq<Record<S>>)
    requires k < |s.log| && AllSafe(m, s) && Linked(s.log, s.ancestors)
    ensures Comparisons(m, s, rs) && rs[|rs| - 1] == s.log[k]
    decreases k
  {
    hide Safe;
    var r := s.log[k];
    assert Safe(m, s, s.log[k]) && LinkedAt(s.log, s.ancestors, k);
    if r.previous.None? {
      rs := [r];
    } else {
      var j :| 0 <= j < k && s.log[j].component == r.component
        && s.log[j].head in AncestorsOf(s.ancestors, r.head) && r.previous == Some(s.log[j].state);
      var before := ComparisonsLeadTo(m, s, j);
      rs := before + [r];
    }
  }

  /**
   * Nothing is skipped: in every run with crashes and failing writes anywhere, a chain of comparisons without a gap leads
   * from nothing to every emitted state, in memory or on disk, and all the actions along it are in the database or took
   * effect. So whatever head is processed next, what it compares with has been accounted for.
   */
  lemma NothingIsSkipped<S>(m: Machine<S>, s: State<S>, h: Hash, i: nat, state: S)
    requires Reachable(m, s)
    requires Lookup(s.emitted, i, h) == Some(state) || Lookup(s.diskEmitted, i, h) == Some(state)
    ensures exists rs: seq<Record<S>> ::
      && Comparisons(m, s, rs) && rs[|rs| - 1].component == i && rs[|rs| - 1].state == state
      && rs[|rs| - 1].head in AncestorsOf(s.ancestors, h)
  {
    EmittedStatesHaveTheirActions(m, s, h, i, state);
    ReachableInvariant(m, s);
    ReachableLinked(m, s);
    hide Reachable, Comparisons, Safe, Grounded, Recorded, Underway, Linked;
    var r :| r in s.log && r.component == i && r.head in AncestorsOf(s.ancestors, h) && r.state == state && Safe(m, s, r);
    var k :| 0 <= k < |s.log| && s.log[k] == r;
    var rs := ComparisonsLeadTo(m, s, k);
  }

  // ---- Heads that were interrupted ---------------------------------------------------------------------

  /** The step writes no other states of this block to disk. */
  ghost predicate Spares<S>(s: State<S>, step: Step, head: Hash) {
    match step
    case Attach(chain, written) => chain != [] ==> chain[0] != head
    case Prune(hashes, written) => written ==> head !in hashes
    case WriteHead => s.pending.Some? ==> s.pending.value.head != head
    case _ => true
  }

  ghost predicate AllSpare<S>(m: Machine<S>, s: State<S>, steps: seq<Step>, head: Hash)
    requires CanRun(m, s, steps)
    decreases |steps|
  {
    steps == [] || (Spares(s, steps[0], head) && AllSpare(m, After(m, s, steps[0]), steps[1..], head))
  }

  ghost predicate SameOnDisk<S>(s: State<S>, t: State<S>, head: Hash) {
    forall i: nat :: Lookup(t.diskEmitted, i, head) == Lookup(s.diskEmitted, i, head)
      && Lookup(t.diskAnchors, i, head) == Lookup(s.diskAnchors, i, head)
  }

  lemma SparedStep<S>(m: Machine<S>, s: State<S>, step: Step, head: Hash)
    requires Enabled(m, s, step) && Spares(s, step, head)
    ensures SameOnDisk(s, After(m, s, step), head)
  {
    hide NewState, Carried, Anchored, OfHead, Called, NewIds, Stored;
    match step
    case Attach(chain, written) => {
      OtherBlocksOnly(m, s.anchors, s.emitted, chain, head);
    }
    case WriteHead => OtherHeadsOnly(s.emitted, s.pending.value.head, head);
    case _ =>
  }

  lemma OtherBlocksOnly<S>(m: Machine<S>, anchors: States<S>, emitted: States<S>, chain: seq<Hash>, head: Hash)
    requires chain != [] && chain[0] != head
    ensures forall i: nat :: (i, head) !in Anchored(m, anchors, chain) && (i, head) !in Carried(m, emitted, chain)
  {
  }

  lemma OtherHeadsOnly<S>(emitted: States<S>, other: Hash, head: Hash)
    requires other != head
    ensures forall i: nat :: (i, head) !in OfHead(emitted, other)
  {
  }

  lemma {:induction false} SparedOnDisk<S>(m: Machine<S>, s: State<S>, steps: seq<Step>, head: Hash)
    requires CanRun(m, s, steps) && AllSpare(m, s, steps, head)
    ensures SameOnDisk(s, Run(m, s, steps), head)
    decreases |steps|
  {
    hide After, Enabled, Spares;
    if steps != [] {
      var next := After(m, s, steps[0]);
      SparedStep(m, s, steps[0], head);
      SparedOnDisk(m, next, steps[1..], head);
    }
  }

  /** After a restart the states of a head that was not written are those that were on disk all the while. */
  lemma UnwrittenHeadIsAsBefore<S>(m: Machine<S>, s: State<S>, steps: seq<Step>, head: Hash, i: nat)
    requires CanRun(m, s, steps) && AllSpare(m, s, steps, head) && steps != [] && steps[|steps| - 1] == Restart
    ensures var t := Run(m, s, steps);
      && Lookup(t.emitted, i, head) == Lookup(s.diskEmitted, i, head)
      && Lookup(t.anchors, i, head) == Lookup(s.diskAnchors, i, head)
  {
    SparedOnDisk(m, s, steps, head);
    EndsRestarted(m, s, steps);
    hide Run, CanRun, AllSpare;
  }

  ghost predicate OnlyProcessing(steps: seq<Step>) {
    forall j :: 0 <= j < |steps| ==> steps[j].ProcessComponent?
  }

  /** Component `r.component` processed this head, and compared these states. */
  ghost predicate Compared<S>(r: Record<S>, head: Hash, i: nat, emitted: States<S>, anchors: States<S>) {
    r.component == i && r.head == head && r.previous == Lookup(emitted, i, head) && Some(r.state) == Lookup(anchors, i, head)
  }

  ghost predicate AllCompared<S>(rs: seq<Record<S>>, head: Hash, first: nat, emitted: States<S>, anchors: States<S>) {
    forall i :: 0 <= i < |rs| ==> Compared(rs[i], head, first + i, emitted, anchors)
  }

  lemma OneMoreCompared<S>(r: Record<S>, rs: seq<Record<S>>, head: Hash, first: nat, emitted: States<S>, now: States<S>,
                           anchors: States<S>)
    requires Compared(r, head, first, emitted, anchors) && AllCompared(rs, head, first + 1, now, anchors)
    requires now == emitted[(first, head) := r.state]
    ensures AllCompared([r] + rs, head, first, emitted, anchors)
  {
    forall i | 0 <= i < |[r] + rs| ensures Compared(([r] + rs)[i], head, first + i, emitted, anchors) {
      assert i > 0 ==> Compared(rs[i - 1], head, first + 1 + (i - 1), now, anchors);
    }
  }

  lemma OneRecord<S>(m: Machine<S>, s: State<S>, step: Step)
    requires step.ProcessComponent? && Enabled(m, s, step)
    ensures var (t, p) := (After(m, s, step), s.pending.value);
      && |t.log| == |s.log| + 1 && s.log <= t.log && t.anchors == s.anchors
      && t.pending == Some(Pending(p.head, p.next + 1))
      && t.emitted == s.emitted[(p.next, p.head) := t.log[|s.log|].state]
      && Compared(t.log[|s.log|], p.head, p.next, s.emitted, s.anchors)
  {
    hide NewIds, Called, Stored;
  }

  /** Each component in turn compares what there was when the head was begun. */
  lemma {:induction false} ProcessingRecords<S>(m: Machine<S>, s: State<S>, steps: seq<Step>)
    requires CanRun(m, s, steps) && OnlyProcessing(steps) && s.pending.Some?
    ensures var (t, p) := (Run(m, s, steps), s.pending.value);
      && |t.log| == |s.log| + |steps| && s.log <= t.log
      && AllCompared(t.log[|s.log|..], p.head, p.next, s.emitted, s.anchors)
    decreases |steps|
  {
    hide After, Enabled, Compared;
    if steps != [] {
      var (next, p) := (After(m, s, steps[0]), s.pending.value);
      OneRecord(m, s, steps[0]);
      ProcessingRecords(m, next, steps[1..]);
      hide AllCompared;
      var (r, t) := (next.log[|s.log|], Run(m, next, steps[1..]));
      assert t.log[|s.log|..] == [r] + t.log[|next.log|..];
      OneMoreCompared(r, t.log[|next.log|..], p.head, p.next, s.emitted, next.emitted, s.anchors);
    }
  }

  /**
   * If a head that was interrupted is begun again after the restart, every component compares the two states that were on
   * disk all the while. Other blocks and heads may have been written since, and the memory may have been ahead.
   */
  lemma InterruptedHeadIsRetried<S>(m: Machine<S>, s: State<S>, steps: seq<Step>, head: Hash, again: seq<Step>)
    requires CanRun(m, s, steps) && AllSpare(m, s, steps, head) && steps != [] && steps[|steps| - 1] == Restart
    requires CanRun(m, Run(m, s, steps), [BeginHead(head)] + again) && OnlyProcessing(again)
    ensures var t := Run(m, s, steps);
      var u := Run(m, t, [BeginHead(head)] + again);
      |u.log| == |t.log| + |again| && AllCompared(u.log[|t.log|..], head, 0, s.diskEmitted, s.diskAnchors)
  {
    var (t, all) := (Run(m, s, steps), [BeginHead(head)] + again);
    assert all[0] == BeginHead(head) && all[1..] == again;
    var begun := After(m, t, BeginHead(head));
    ProcessingRecords(m, begun, again);
    var rs := Run(m, begun, again).log[|t.log|..];
    assert AllCompared(rs, head, 0, t.emitted, t.anchors);
    hide Run, CanRun, AllSpare;
    forall i | 0 <= i < |rs| ensures Compared(rs[i], head, 0 + i, s.diskEmitted, s.diskAnchors) {
      UnwrittenHeadIsAsBefore(m, s, steps, head, i);
      assert Compared(rs[i], head, 0 + i, t.emitted, t.anchors);
    }
  }

  lemma {:induction false} EndsRestarted<S>(m: Machine<S>, s: State<S>, steps: seq<Step>)
    requires CanRun(m, s, steps) && steps != [] && steps[|steps| - 1] == Restart
    ensures var t := Run(m, s, steps); t.anchors == t.diskAnchors && t.emitted == t.diskEmitted
    decreases |steps|
  {
    if |steps| > 1 {
      hide After, Enabled;
      assert steps[1..][|steps| - 2] == Restart;
      EndsRestarted(m, After(m, s, steps[0]), steps[1..]);
    } else {
      assert steps[1..] == [];
    }
  }
}
