/**
 * What the steps between crashes come to: memory and disk are the same as long as no write fails, a crash leaves what is on
 * disk, a head can be processed to its end, and an action runs until it is done and then goes.
 */
module CrashSteps {
  import opened Wrappers
  import opened BlockCache
  import opened CrashSafety

  // ---- Memory and disk ---------------------------------------------------------------------------------

  /** Nothing that the step writes fails to be written. */
  predicate Writes(step: Step) {
    match step
    case Attach(_, written) => written
    case Prune(_, written) => written
    case FailHead => false
    case _ => true
  }

  /** The disk has what the memory has, but for the states of a head that is being processed. */
  ghost predicate Mirrored<S>(s: State<S>) {
    s.up ==>
      && s.diskAnchors == s.anchors
      && match s.pending
         case None => s.diskEmitted == s.emitted
         case Some(p) =>
           && s.diskEmitted.Keys <= s.emitted.Keys
           && Without(s.diskEmitted, {p.head}) == Without(s.emitted, {p.head})
  }

  lemma StepKeepsMirrored<S>(m: Machine<S>, s: State<S>, step: Step)
    requires Mirrored(s) && Enabled(m, s, step) && Writes(step)
    ensures Mirrored(After(m, s, step))
  {
    hide Anchored, Carried, Called, NewIds, CrashSafety.Stored, WithAncestors;
    var t := After(m, s, step);
    match step
    case ProcessComponent(ids) => {
      var head := s.pending.value.head;
      assert Without(t.emitted, {head}) == Without(s.emitted, {head});
    }
    case WriteHead => {
      var head := s.pending.value.head;
      forall k ensures k in t.diskEmitted <==> k in s.emitted {
        assert k.1 != head ==> (k in Without(s.diskEmitted, {head}) <==> k in Without(s.emitted, {head}));
      }
      forall k | k in s.emitted ensures t.diskEmitted[k] == s.emitted[k] {
        assert k.1 != head ==> k in Without(s.diskEmitted, {head}) && Without(s.diskEmitted, {head})[k] == s.emitted[k];
      }
      assert t.diskEmitted == s.emitted;
    }
    case _ =>
  }

  /** In every run in which no write fails, crashes or not, the disk is the memory whenever no head is being processed. */
  lemma {:induction false} RunKeepsMirrored<S>(m: Machine<S>, s: State<S>, steps: seq<Step>)
    requires Mirrored(s) && CanRun(m, s, steps) && forall i :: 0 <= i < |steps| ==> Writes(steps[i])
    ensures Mirrored(Run(m, s, steps))
    decreases |steps|
  {
    hide After, Enabled, Mirrored;
    if steps != [] {
      StepKeepsMirrored(m, s, steps[0]);
      RunKeepsMirrored(m, After(m, s, steps[0]), steps[1..]);
    }
  }

  lemma MirroredFromTheStart<S>(m: Machine<S>, steps: seq<Step>)
    requires CanRun(m, StartState(), steps) && forall i :: 0 <= i < |steps| ==> Writes(steps[i])
    ensures Mirrored(Run(m, StartState(), steps))
  {
    RunKeepsMirrored(m, StartState(), steps);
  }

  // ---- Crashes -----------------------------------------------------------------------------------------

  /** There are states of components only; and while the application is down nothing is in memory. */
  ghost predicate Tidy<S>(m: Machine<S>, s: State<S>) {
    && (forall k :: k in s.anchors || k in s.emitted || k in s.diskAnchors || k in s.diskEmitted ==> k.0 < m.count)
    && (!s.up ==> s.anchors == map[] && s.emitted == map[] && s.memory == {} && s.running == {} && s.pending == None)
    && (s.pending.Some? ==> s.pending.value.next <= m.count)
  }

  lemma {:induction false} RunKeepsTidy<S>(m: Machine<S>, s: State<S>, steps: seq<Step>)
    requires Tidy(m, s) && CanRun(m, s, steps)
    ensures Tidy(m, Run(m, s, steps))
    decreases |steps|
  {
    hide After, Enabled, Tidy;
    if steps != [] {
      StepKeepsTidy(m, s, steps[0]);
      RunKeepsTidy(m, After(m, s, steps[0]), steps[1..]);
    }
  }

  lemma StepKeepsTidy<S>(m: Machine<S>, s: State<S>, step: Step)
    requires Tidy(m, s) && Enabled(m, s, step)
    ensures Tidy(m, After(m, s, step))
  {
    hide NewState, Called, NewIds, CrashSafety.Stored, WithAncestors, Anchored, Carried, Without, OfHead;
    match step
    case Attach(chain, written) => AttachedForComponents(m, s.anchors, s.emitted, chain);
    case Prune(hashes, written) => {
      FewerStates(s.anchors, hashes);
      FewerStates(s.emitted, hashes);
      FewerStates(s.diskAnchors, hashes);
      FewerStates(s.diskEmitted, hashes);
    }
    case WriteHead => HeadStates(s.emitted, s.pending.value.head);
    case _ =>
  }

  lemma AttachedForComponents<S>(m: Machine<S>, anchors: States<S>, emitted: States<S>, chain: seq<Hash>)
    requires chain != []
    ensures forall k :: k in Anchored(m, anchors, chain) || k in Carried(m, emitted, chain) ==> k.0 < m.count
  {
  }

  lemma FewerStates<S>(states: States<S>, hashes: set<Hash>)
    ensures Without(states, hashes).Keys <= states.Keys
  {
  }

  lemma HeadStates<S>(states: States<S>, head: Hash)
    ensures OfHead(states, head).Keys <= states.Keys
  {
  }

  lemma StoredForComponents<S>(m: Machine<S>, s: State<S>)
    requires Reachable(m, s)
    ensures forall id :: id in s.database ==> s.database[id].0 < m.count
  {
    ReachableInvariant(m, s);
    hide AllSafe, Grounded, Recorded, Underway, Reflexive, Reachable;
  }

  /** A crash and a restart leave the disk and the past as they are, and the memory is read from the disk. */
  lemma CrashThenRestart<S>(m: Machine<S>, s: State<S>)
    requires Reachable(m, s) && s.up
    ensures Enabled(m, s, Crash) && Enabled(m, After(m, s, Crash), Restart)
    ensures After(m, After(m, s, Crash), Restart)
      == s.(anchors := s.diskAnchors, emitted := s.diskEmitted, memory := s.database.Keys, running := s.database.Keys,
            pending := None)
  {
    StoredForComponents(m, s);
    hide Reachable;
    var t := After(m, After(m, s, Crash), Restart);
    assert t.running == s.database.Keys;
  }

  // ---- A head to its end -------------------------------------------------------------------------------

  /** Every component in turn stores its actions, and then the head is written. */
  ghost predicate Complete<S>(m: Machine<S>, steps: seq<Step>, head: Hash) {
    && |steps| == m.count + 2 && steps[0] == BeginHead(head) && steps[m.count + 1] == WriteHead
    && OnlyProcessing(steps[1..m.count + 1])
  }

  lemma {:induction false} ProcessingMoves<S>(m: Machine<S>, s: State<S>, steps: seq<Step>)
    requires CanRun(m, s, steps) && OnlyProcessing(steps) && s.pending.Some?
    ensures var (t, p) := (Run(m, s, steps), s.pending.value);
      && t.pending == Some(Pending(p.head, p.next + |steps|)) && t.anchors == s.anchors && t.heads == s.heads
      && t.diskEmitted == s.diskEmitted
      && forall i: nat :: p.next <= i < p.next + |steps| ==>
           (i, p.head) in s.anchors && Lookup(t.emitted, i, p.head) == Some(s.anchors[(i, p.head)])
    ensures forall i: nat :: i < s.pending.value.next ==>
      Lookup(Run(m, s, steps).emitted, i, s.pending.value.head) == Lookup(s.emitted, i, s.pending.value.head)
    decreases |steps|
  {
    hide Called, NewIds, CrashSafety.Stored;
    if steps != [] {
      OneMoves(m, s, steps[0]);
      hide After, Enabled;
      ProcessingMoves(m, After(m, s, steps[0]), steps[1..]);
    }
  }

  lemma OneMoves<S>(m: Machine<S>, s: State<S>, step: Step)
    requires step.ProcessComponent? && Enabled(m, s, step)
    ensures var (t, p) := (After(m, s, step), s.pending.value);
      && t.pending == Some(Pending(p.head, p.next + 1)) && t.anchors == s.anchors && t.heads == s.heads
      && t.diskEmitted == s.diskEmitted && (p.next, p.head) in s.anchors
      && t.emitted == s.emitted[(p.next, p.head) := s.anchors[(p.next, p.head)]]
  {
    hide Called, NewIds, CrashSafety.Stored;
  }

  /** After a head was processed to its end nothing is pending, and its states are on disk as the emitted ones. */
  lemma HeadToItsEnd<S>(m: Machine<S>, s: State<S>, steps: seq<Step>, head: Hash)
    requires Complete(m, steps, head) && CanRun(m, s, steps)
    ensures var t := Run(m, s, steps);
      && t.pending == None && t.heads == s.heads + {head}
      && forall i: nat :: i < m.count ==>
           (i, head) in s.anchors && Lookup(t.diskEmitted, i, head) == Some(s.anchors[(i, head)])
  {
    var (begun, middle) := (After(m, s, BeginHead(head)), steps[1..m.count + 1]);
    assert steps[1..] == middle + [WriteHead];
    RunsInTwo(m, begun, middle, [WriteHead]);
    ProcessingMoves(m, begun, middle);
    var ready := Run(m, begun, middle);
    assert [WriteHead][1..] == [];
    var t := After(m, ready, WriteHead);
    assert Run(m, ready, [WriteHead]) == t;
    forall i: nat | i < m.count ensures Lookup(t.diskEmitted, i, head) == Some(s.anchors[(i, head)]) {
      assert (i, head) in OfHead(ready.emitted, head);
    }
  }

  lemma {:induction false} RunsInTwo<S>(m: Machine<S>, s: State<S>, xs: seq<Step>, ys: seq<Step>)
    requires CanRun(m, s, xs + ys)
    ensures CanRun(m, s, xs) && CanRun(m, Run(m, s, xs), ys) && Run(m, s, xs + ys) == Run(m, Run(m, s, xs), ys)
    decreases |xs|
  {
    hide After, Enabled;
    if xs == [] {
      assert xs + ys == ys;
    } else {
      assert (xs + ys)[0] == xs[0] && (xs + ys)[1..] == xs[1..] + ys;
      RunsInTwo(m, After(m, s, xs[0]), xs[1..], ys);
    }
  }

  // ---- Actions -----------------------------------------------------------------------------------------

  /** Actions that are stored run from then on, besides those that ran before. */
  lemma StoredActionsRun<S>(m: Machine<S>, s: State<S>, ids: seq<Id>)
    requires Enabled(m, s, ProcessComponent(ids))
    ensures var t := After(m, s, ProcessComponent(ids));
      && (forall id :: id in t.running <==> id in s.running || id in ids)
      && (forall id :: id in t.memory <==> id in s.memory || id in ids)
      && (forall id :: id in t.database <==> id in s.database || id in ids)
      && t.completed == s.completed
  {
    var (t, p) := (After(m, s, ProcessComponent(ids)), s.pending.value);
    StoredMeans(p.next, Called(m, p.next, Lookup(s.emitted, p.next, p.head), s.anchors[(p.next, p.head)]), ids);
  }

  /** An action that takes effect stops running and can then be removed, from memory and database; nothing else changes. */
  lemma ActionDone<S>(m: Machine<S>, s: State<S>, id: Id)
    requires Enabled(m, s, CompleteAction(id)) && id in s.memory
    ensures var t := After(m, s, CompleteAction(id));
      && Enabled(m, t, RemoveAction(id))
      && After(m, t, RemoveAction(id))
         == s.(completed := s.completed + {id}, running := s.running - {id}, database := s.database - {id},
               memory := s.memory - {id})
  {
  }

  /** One that fails stops running, and runs again after a crash and a restart. */
  lemma ActionFailed<S>(m: Machine<S>, s: State<S>, id: Id)
    requires Reachable(m, s) && Enabled(m, s, FailAction(id)) && id in s.database
    ensures var t := After(m, s, FailAction(id));
      && t == s.(running := s.running - {id})
      && id in After(m, After(m, t, Crash), Restart).running
  {
    StoredForComponents(m, s);
    hide Reachable, After, Enabled;
    JustFails(m, s, id);
    RestartRunsStored(m, After(m, s, FailAction(id)), id);
  }

  lemma JustFails<S>(m: Machine<S>, s: State<S>, id: Id)
    requires Enabled(m, s, FailAction(id))
    ensures After(m, s, FailAction(id)) == s.(running := s.running - {id}) && s.up
  {
  }

  lemma RestartRunsStored<S>(m: Machine<S>, s: State<S>, id: Id)
    requires s.up && id in s.database && s.database[id].0 < m.count
    ensures Enabled(m, s, Crash) && Enabled(m, After(m, s, Crash), Restart)
    ensures id in After(m, After(m, s, Crash), Restart).running
  {
  }
}
