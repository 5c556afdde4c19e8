/**
 * The events that a run of the block cache sends to the machine: every block with its ancestry at the moment at which it
 * is attached, blocks when they are pruned, and heads. All of them are possible, so what is proved about the machine
 * applies to what the cache emits.
 */
module MachineEvents {
  import opened Wrappers
  import opened BlockCache
  import opened BlockCacheTheorems
  import opened BlockCacheAdd
  import opened BlockCacheAncestry
  import opened BlockchainMachine
  import opened MachineTheorems

  // ---- Events ------------------------------------------------------------------------------------------

  /** The new block with its ancestry, once it is marked as attached. */
  ghost function AttachEvent(c: Cache, world: Hash -> Block, hash: Hash): Event {
    var marked := c.(attached := c.attached + {hash});
    if WellFormed(world) && Faithful(c.blocks, world) && hash in c.blocks then Attached(Ancestry(marked, world, hash))
    else Attached([])
  }

  ghost function AttachEvents(c: Cache, world: Hash -> Block, hashes: seq<Hash>): seq<Event>
    requires forall h :: h in hashes ==> h in c.blocks
    decreases |hashes|
  {
    if hashes == [] then []
    else [AttachEvent(c, world, hashes[0])] + AttachEvents(AttachedOne(c, hashes[0]), world, hashes[1..])
  }

  ghost function RaiseEvents(c: Cache, height: int): seq<Event> {
    [Gone(c.attached - RaisedTo(c, height).attached)]
  }

  ghost function SweepEvents(c: Cache, world: Hash -> Block, height: int): seq<Event>
    decreases Detached(c)
  {
    var ds := DetachedAt(c, height);
    if ds == [] then []
    else
      SweepShrinks(c, height);
      AttachEvents(c, world, ds) + RaiseEvents(AttachedAll(c, ds), height) + SweepEvents(Round(c, height), world, height + 1)
  }

  ghost function MinSweepEvents(c: Cache, world: Hash -> Block): seq<Event>
    decreases Detached(c)
  {
    var r := Swept(c, MinHeight(c));
    SweptShrinks(c, MinHeight(c));
    SweepEvents(c, world, MinHeight(c)) + if MinHeight(r) > MinHeight(c) then MinSweepEvents(r, world) else []
  }

  ghost function AddEvents(c: Cache, world: Hash -> Block, b: Block): seq<Event> {
    if Outcome(c, b) == Added then
      var stored := Stored(Opened(c, b), b);
      var x := Attachment(c, b);
      [AttachEvent(stored, world, b.hash)] + RaiseEvents(AttachedOne(stored, b.hash), b.number)
      + SweepEvents(x, world, b.number + 1) + MinSweepEvents(Swept(x, b.number + 1), world)
    else []
  }

  /** The cache is given a block, or the processor makes a block its head, which succeeds for an attached one. */
  datatype CacheStep = Add(block: Block) | Head(hash: Hash)

  function CacheAfter(c: Cache, step: CacheStep): Cache {
    match step
    case Add(b) => AddBlock(c, b)
    case Head(_) => c
  }

  ghost function StepEvents(c: Cache, world: Hash -> Block, step: CacheStep): seq<Event> {
    match step
    case Add(b) => AddEvents(c, world, b)
    case Head(hash) => if HasAttached(c, hash) then [Emitted(hash)] else []
  }

  function CacheAfterAll(c: Cache, steps: seq<CacheStep>): Cache
    decreases |steps|
  {
    if steps == [] then c else CacheAfterAll(CacheAfter(c, steps[0]), steps[1..])
  }

  ghost function RunEvents(c: Cache, world: Hash -> Block, steps: seq<CacheStep>): seq<Event>
    decreases |steps|
  {
    if steps == [] then []
    else StepEvents(c, world, steps[0]) + RunEvents(CacheAfter(c, steps[0]), world, steps[1..])
  }

  ghost predicate GoodStep(world: Hash -> Block, step: CacheStep) {
    step.Add? ==> step.block == world(step.block.hash) && step.block.number >= 0
  }

  // ---- Cache and history -------------------------------------------------------------------------------

  ghost function EmittedHashes(emitted: seq<Emission>): set<Hash> {
    set i | 0 <= i < |emitted| :: emitted[i].block.hash
  }

  /** The blocks with a lineage, or without states, are those that were emitted; the attached ones are not gone. */
  ghost predicate Matches(c: Cache, h: History) {
    && h.lineage.Keys + h.bare == EmittedHashes(c.emitted) && c.attached == h.lineage.Keys + h.bare - h.gone
    && h.gone <= h.lineage.Keys + h.bare
  }

  function HistoryOf(h: History, events: seq<Event>): History
    decreases |events|
  {
    if events == [] then h else HistoryOf(Heard(h, events[0]), events[1..])
  }

  /** What happens to a component for which every head that has a state counts. */
  function Heard(h: History, e: Event): History {
    if e.Emitted? && e.hash !in h.lineage then h else Later(h, e)
  }

  ghost predicate EachPossible(h: History, events: seq<Event>)
    decreases |events|
  {
    events == [] || (Possible(h, events[0]) && EachPossible(Heard(h, events[0]), events[1..]))
  }

  /** The events are possible and lead to a history that matches the cache. */
  ghost predicate Leads(h: History, events: seq<Event>, c: Cache) {
    EachPossible(h, events) && Matches(c, HistoryOf(h, events))
  }

  lemma {:induction false} EventsInTwo(h: History, xs: seq<Event>, ys: seq<Event>)
    ensures HistoryOf(h, xs + ys) == HistoryOf(HistoryOf(h, xs), ys)
    ensures EachPossible(h, xs + ys) <==> EachPossible(h, xs) && EachPossible(HistoryOf(h, xs), ys)
    decreases |xs|
  {
    hide Heard, Possible;
    if xs == [] {
      assert xs + ys == ys;
    } else {
      assert (xs + ys)[0] == xs[0] && (xs + ys)[1..] == xs[1..] + ys;
      EventsInTwo(Heard(h, xs[0]), xs[1..], ys);
    }
  }

  lemma LeadsOn(h: History, xs: seq<Event>, c: Cache, ys: seq<Event>, d: Cache)
    requires Leads(h, xs, c) && Leads(HistoryOf(h, xs), ys, d)
    ensures Leads(h, xs + ys, d)
  {
    hide Matches;
    EventsInTwo(h, xs, ys);
  }

  lemma OneEvent(h: History, e: Event, c: Cache)
    requires Possible(h, e) && Matches(c, Heard(h, e))
    ensures Leads(h, [e], c)
  {
    hide Matches, Possible, Heard;
    assert [e][1..] == [] && HistoryOf(Heard(h, e), []) == Heard(h, e) && EachPossible(Heard(h, e), []);
    assert HistoryOf(h, [e]) == Heard(h, e);
  }

  lemma NoEvents(h: History, c: Cache)
    requires Matches(c, h)
    ensures Leads(h, [], c)
  {
  }

  // ---- Every event is possible -------------------------------------------------------------------------

  lemma NotYetEmitted(c: Cache, world: Hash -> Block, hash: Hash)
    requires Structured(c, world) && hash in c.blocks && hash !in c.attached
    ensures hash !in EmittedHashes(c.emitted)
  {
    assert c.blocks[hash] == world(hash);
    forall i | 0 <= i < |c.emitted| ensures c.emitted[i].block.hash != hash {
      assert c.emitted[i].block == world(c.emitted[i].block.hash);
    }
  }

  lemma StructuredIsFaithful(c: Cache, world: Hash -> Block)
    requires Structured(c, world)
    ensures Faithful(c.blocks, world)
  {
  }

  lemma ParentIsAnother(world: Hash -> Block, hash: Hash)
    requires WellFormed(world)
    ensures world(hash).parentHash != hash
  {
    assert ParentIsBelow(world, hash);
  }

  lemma AttachEventLeads(c: Cache, world: Hash -> Block, hash: Hash, h: History)
    requires WellFormed(world) && Structured(c, world) && hash in c.blocks && hash !in c.attached && Matches(c, h)
    ensures Leads(h, [AttachEvent(c, world, hash)], AttachedOne(c, hash))
  {
    var (marked, d) := (c.(attached := c.attached + {hash}), AttachedOne(c, hash));
    NotYetEmitted(c, world, hash);
    StructuredIsFaithful(c, world);
    ParentIsOneBelow(c.blocks, world, hash);
    ParentIsAnother(world, hash);
    assert c.blocks[hash] == world(hash);
    var parent := c.blocks[hash].parentHash;
    hide Structured, WellFormed, Faithful;
    var chain := Ancestry(marked, world, hash);
    assert |chain| > 1 ==> HasAttached(marked, parent) && chain[1] == c.blocks[parent];
    if |chain| > 1 {
      ParentIsOneBelow(c.blocks, world, parent);
    }
    assert EmittedHashes(d.emitted) == EmittedHashes(c.emitted) + {hash} by {
      MoreEmitted(c.emitted, d.emitted[|c.emitted|]);
    }
    hide Ancestry, EmittedHashes;
    assert Possible(h, Attached(chain));
    assert Matches(d, Heard(h, Attached(chain)));
    OneEvent(h, Attached(chain), d);
  }

  lemma MoreEmitted(emitted: seq<Emission>, e: Emission)
    ensures EmittedHashes(emitted + [e]) == EmittedHashes(emitted) + {e.block.hash}
  {
    var more := emitted + [e];
    assert more[|emitted|] == e;
    forall i | 0 <= i < |emitted| ensures emitted[i].block.hash in EmittedHashes(more) {
      assert more[i] == emitted[i];
    }
    forall x | x in EmittedHashes(more) ensures x in EmittedHashes(emitted) + {e.block.hash} {
      var i :| 0 <= i < |more| && more[i].block.hash == x;
      assert i < |emitted| ==> more[i] == emitted[i];
    }
  }

  lemma {:induction false} AttachEventsLead(c: Cache, world: Hash -> Block, hashes: seq<Hash>, h: History)
    requires WellFormed(world) && Structured(c, world) && Matches(c, h)
    requires NoDuplicates(hashes) && forall x :: x in hashes ==> x in c.blocks && x !in c.attached
    ensures Leads(h, AttachEvents(c, world, hashes), AttachedAll(c, hashes))
    decreases |hashes|
  {
    if hashes == [] {
      NoEvents(h, c);
    } else {
      var (next, rest, e) := (AttachedOne(c, hashes[0]), hashes[1..], AttachEvent(c, world, hashes[0]));
      AttachedOneKeeps(c, world, hashes[0]);
      AttachEventLeads(c, world, hashes[0], h);
      forall x | x in rest ensures x in next.blocks && x !in next.attached {
        var i :| 0 <= i < |rest| && rest[i] == x;
        assert hashes[i + 1] == x;
      }
      assert NoDuplicates(rest);
      assert HistoryOf(h, [e]) == Heard(h, e) by { assert [e][1..] == []; }
      hide Structured, AttachEvent, AttachedOne, Matches, WellFormed, Heard;
      AttachEventsLead(next, world, rest, HistoryOf(h, [e]));
      LeadsOn(h, [e], next, AttachEvents(next, world, rest), AttachedAll(next, rest));
    }
  }

  lemma RaiseEventsLead(c: Cache, height: int, h: History)
    requires Matches(c, h)
    ensures Leads(h, RaiseEvents(c, height), RaisedTo(c, height))
  {
    if c.maxHeight < height {
      PrunedShrinks(c.(maxHeight := height));
    }
    hide EmittedHashes, Pruned;
    var (d, e) := (RaisedTo(c, height), Gone(c.attached - RaisedTo(c, height).attached));
    assert d.attached <= c.attached && d.emitted == c.emitted;
    OneEvent(h, e, d);
  }

  lemma {:induction false} SweepEventsLead(c: Cache, world: Hash -> Block, height: int, h: History)
    requires WellFormed(world) && Structured(c, world) && Settled(c) && c.pruneHeight <= height && Matches(c, h)
    ensures Leads(h, SweepEvents(c, world, height), Swept(c, height))
    decreases Detached(c)
  {
    var ds := DetachedAt(c, height);
    DetachedAtHeight(c, world, height);
    hide Structured, Settled, Matches, WellFormed, DetachedAt;
    if ds == [] {
      NoEvents(h, c);
    } else {
      var (a, next) := (AttachedAll(c, ds), Round(c, height));
      var (xs, ys) := (AttachEvents(c, world, ds), RaiseEvents(AttachedAll(c, ds), height));
      AttachEventsLead(c, world, ds, h);
      MatchesAfter(h, xs, a);
      RaiseEventsLead(a, height, HistoryOf(h, xs));
      LeadsOn(h, xs, a, ys, next);
      MatchesAfter(h, xs + ys, next);
      SweepShrinks(c, height);
      RoundStructured(c, world, height);
      hide RoundEffect, HistoryOf;
      SweepEventsLead(next, world, height + 1, HistoryOf(h, xs + ys));
      LeadsOn(h, xs + ys, next, SweepEvents(next, world, height + 1), Swept(next, height + 1));
    }
  }

  lemma MatchesAfter(h: History, events: seq<Event>, c: Cache)
    requires Leads(h, events, c)
    ensures Matches(c, HistoryOf(h, events))
  {
  }

  lemma {:induction false} MinSweepEventsLead(c: Cache, world: Hash -> Block, h: History)
    requires WellFormed(world) && Structured(c, world) && Settled(c) && Complete(c) && Matches(c, h)
    ensures Leads(h, MinSweepEvents(c, world), SweptAtMinHeight(c))
    decreases Detached(c)
  {
    hide Structured, Settled, Complete, Matches, WellFormed, Swept, SweepEvents, Leads, Detached, MinHeight, HistoryOf,
         SweptAtMinHeight, MinSweepEvents;
    var (m, r) := (MinHeight(c), Swept(c, MinHeight(c)));
    MinSweepRound(c, world);
    MinSweepStep(c, world);
    SweepEventsLead(c, world, m, h);
    MatchesAfter(h, SweepEvents(c, world, m), r);
    if MinHeight(r) > m {
      MinSweepEventsLead(r, world, HistoryOf(h, SweepEvents(c, world, m)));
      LeadsOn(h, SweepEvents(c, world, m), r, MinSweepEvents(r, world), SweptAtMinHeight(r));
    } else {
      assert SweepEvents(c, world, m) + [] == SweepEvents(c, world, m);
    }
  }

  lemma MinSweepRound(c: Cache, world: Hash -> Block)
    requires WellFormed(world) && Structured(c, world) && Settled(c) && Complete(c)
    ensures var r := Swept(c, MinHeight(c));
      && c.pruneHeight <= MinHeight(c) && Structured(r, world) && Settled(r) && Complete(r)
      && (MinHeight(r) > MinHeight(c) ==> Detached(r) < Detached(c))
  {
    hide Structured, Settled, Complete, WellFormed, Swept;
    MinHeightSwept(c, world);
    SweptEnds(c, Swept(c, MinHeight(c)), world, MinHeight(c));
  }

  lemma MinSweepStep(c: Cache, world: Hash -> Block)
    ensures var (m, r) := (MinHeight(c), Swept(c, MinHeight(c)));
      && SweptAtMinHeight(c) == (if MinHeight(r) > m then SweptAtMinHeight(r) else r)
      && MinSweepEvents(c, world) == SweepEvents(c, world, m) + (if MinHeight(r) > m then MinSweepEvents(r, world) else [])
  {
    hide Swept, SweepEvents;
  }

  lemma SweptEnds(c: Cache, r: Cache, world: Hash -> Block, height: int)
    requires SweptFrom(c, r, world, height)
    ensures Structured(r, world) && Settled(r) && Complete(r)
  {
  }

  lemma StoredMatches(c: Cache, b: Block, h: History)
    requires Matches(c, h)
    ensures Matches(Stored(Opened(c, b), b), h)
  {
  }

  lemma ReadyToAttach(c: Cache, world: Hash -> Block, b: Block)
    requires WellFormed(world) && Invariant(c, world) && b == world(b.hash) && b.number >= 0 && Outcome(c, b) == Added
    ensures var s := Stored(Opened(c, b), b);
      Structured(s, world) && b.hash in s.blocks && b.hash !in s.attached
  {
    OpenedKeeps(c, world, b);
    assert b.hash !in c.blocks;
    StoredKeeps(Opened(c, b), world, b);
  }

  lemma AddEventsLead(c: Cache, world: Hash -> Block, b: Block, h: History)
    requires WellFormed(world) && Invariant(c, world) && b == world(b.hash) && b.number >= 0 && Matches(c, h)
    ensures Leads(h, AddEvents(c, world, b), AddBlock(c, b))
  {
    if Outcome(c, b) == Added {
      AddingLeads(c, world, b, h);
    } else {
      hide Invariant, WellFormed, EmittedHashes;
      NoEvents(h, AddBlock(c, b));
    }
  }

  lemma AddingLeads(c: Cache, world: Hash -> Block, b: Block, h: History)
    requires WellFormed(world) && Invariant(c, world) && b == world(b.hash) && b.number >= 0 && Matches(c, h)
    requires Outcome(c, b) == Added
    ensures Leads(h, AddEvents(c, world, b), AddBlock(c, b))
  {
    hide Invariant, WellFormed, Matches, Structured, Settled, CompleteExcept, AttachEvent, RaiseEvents, SweepEvents, Outcome,
         MinSweepEvents, Swept, SweptAtMinHeight, AddBlock, SweptFrom, AttachmentEffect, Stored, Opened, Leads, RaisedTo,
         AttachedOne;
    var stored := Stored(Opened(c, b), b);
    ReadyToAttach(c, world, b);
    StoredMatches(c, b, h);
    var (a, x) := (AttachedOne(stored, b.hash), Attachment(c, b));
    var y := Swept(x, b.number + 1);
    var (e1, e2) := ([AttachEvent(stored, world, b.hash)], RaiseEvents(a, b.number));
    var (e3, e4) := (SweepEvents(x, world, b.number + 1), MinSweepEvents(y, world));
    AttachEventLeads(stored, world, b.hash, h);
    MatchesAfter(h, e1, a);
    RaiseEventsLead(a, b.number, HistoryOf(h, e1));
    LeadsOn(h, e1, a, e2, x);
    MatchesAfter(h, e1 + e2, x);
    AttachmentKeeps(c, world, b);
    AttachmentCompletes(c, world, b, x);
    SweepEventsLead(x, world, b.number + 1, HistoryOf(h, e1 + e2));
    LeadsOn(h, e1 + e2, x, e3, y);
    MatchesAfter(h, e1 + e2 + e3, y);
    SweptKeeps(x, world, b.number + 1);
    SweptEnds(x, y, world, b.number + 1);
    MinSweepEventsLead(y, world, HistoryOf(h, e1 + e2 + e3));
    LeadsOn(h, e1 + e2 + e3, y, e4, SweptAtMinHeight(y));
    AddBlockAttaches(c, b);
  }

  lemma StepEventsLead(c: Cache, world: Hash -> Block, step: CacheStep, h: History)
    requires WellFormed(world) && Invariant(c, world) && GoodStep(world, step) && Matches(c, h)
    ensures Leads(h, StepEvents(c, world, step), CacheAfter(c, step)) && Invariant(CacheAfter(c, step), world)
  {
    match step
    case Add(b) => {
      AddEventsLead(c, world, b, h);
      AddBlockKeepsInvariant(c, world, b);
    }
    case Head(hash) => {
      hide EmittedHashes, Invariant;
      if HasAttached(c, hash) {
        OneEvent(h, Emitted(hash), c);
      } else {
        NoEvents(h, c);
      }
    }
  }

  lemma {:induction false} RunEventsLead(c: Cache, world: Hash -> Block, steps: seq<CacheStep>, h: History)
    requires WellFormed(world) && Invariant(c, world) && Matches(c, h)
    requires forall i :: 0 <= i < |steps| ==> GoodStep(world, steps[i])
    ensures Leads(h, RunEvents(c, world, steps), CacheAfterAll(c, steps))
    decreases |steps|
  {
    hide Matches, Invariant, WellFormed, GoodStep, StepEvents, CacheAfter, HistoryOf;
    if steps == [] {
      NoEvents(h, c);
    } else {
      var (next, es) := (CacheAfter(c, steps[0]), StepEvents(c, world, steps[0]));
      StepEventsLead(c, world, steps[0], h);
      MatchesAfter(h, es, next);
      RunEventsLead(next, world, steps[1..], HistoryOf(h, es));
      LeadsOn(h, es, next, RunEvents(next, world, steps[1..]), CacheAfterAll(next, steps[1..]));
    }
  }

  /** What a component without states knows of a cache. */
  ghost function Unheard(c: Cache): History {
    History(map[], EmittedHashes(c.emitted), EmittedHashes(c.emitted) - c.attached, {})
  }

  lemma UnheardMatches(c: Cache, world: Hash -> Block)
    requires Invariant(c, world)
    ensures Matches(c, Unheard(c))
  {
    if !c.isEmpty {
      forall h | h in c.attached ensures h in EmittedHashes(c.emitted) {
        var i :| 0 <= i < |c.emitted| && c.emitted[i].block.hash == h;
      }
    }
  }

  /** What all components see alike is what each would see alone, as long as none is without a state where others have one. */
  lemma {:induction false} SharedHistory(n: nat, h: History, events: seq<Event>)
    requires EachPossible(h, events)
    ensures AllPossible(seq(n, _ => h), events)
    ensures HistoriesOf(seq(n, _ => h), events) == seq(n, _ => HistoryOf(h, events))
    decreases |events|
  {
    if events != [] {
      var (hs, e) := (seq(n, _ => h), events[0]);
      hide Later, Possible;
      forall i | 0 <= i < n ensures LaterAll(hs, e)[i] == Heard(h, e) {
        assert LaterAll(hs, e)[i] == LaterFor(hs, e, i);
        if e.Emitted? {
          assert hs[i] == h;
          assert Reaches(hs, e.hash, i) <==> e.hash in h.lineage;
        }
      }
      assert LaterAll(hs, e) == seq(n, _ => Heard(h, e));
      assert PossibleForAll(hs, e);
      SharedHistory(n, Heard(h, e), events[1..]);
    }
  }

  /**
   * Every event that a run of the cache sends to the machine is possible, whether the machine starts with an empty cache
   * or has no states yet for the blocks of the cache.
   */
  lemma CacheEventsArePossible(c: Cache, world: Hash -> Block, steps: seq<CacheStep>, n: nat)
    requires WellFormed(world) && Invariant(c, world) && forall i :: 0 <= i < |steps| ==> GoodStep(world, steps[i])
    ensures var (events, hs) := (RunEvents(c, world, steps), seq(n, _ => Unheard(c)));
      && AllPossible(hs, events)
      && forall i :: 0 <= i < n ==> Matches(CacheAfterAll(c, steps), HistoriesOf(hs, events)[i])
  {
    UnheardMatches(c, world);
    RunEventsLead(c, world, steps, Unheard(c));
    hide Matches, Unheard, Invariant, WellFormed, GoodStep, RunEvents, CacheAfterAll;
    SharedHistory(n, Unheard(c), RunEvents(c, world, steps));
  }

  /**
   * So at the end of a run of the cache in which no head does harm, each block that was attached on the way and is not
   * pruned has, for every component, the state folded along its lineage, and carries the state of the nearest emitted
   * block of its lineage. The lineage ends with a scan of what was cached when the machine had no states.
   */
  lemma AttachedBlocksAreTracked<S>(c: Cache, world: Hash -> Block, steps: seq<CacheStep>, cs: seq<Component<S>>,
                                    i: nat, hash: Hash)
    requires WellFormed(world) && Invariant(c, world) && DistinctNames(cs) && i < |cs|
    requires forall i :: 0 <= i < |steps| ==> GoodStep(world, steps[i])
    requires WithoutHarm(cs, seq(|cs|, _ => Unheard(c)), RunEvents(c, world, steps))
    requires hash in CacheAfterAll(c, steps).attached && hash !in EmittedHashes(c.emitted)
    ensures var events := RunEvents(c, world, steps);
      var (items, h) := (ItemsOf(cs, map[], events), HistoriesOf(seq(|cs|, _ => Unheard(c)), events)[i]);
      && hash in h.lineage && Proper(h.lineage[hash])
      && AnchorOf(items, cs[i].name, hash) == Some(FoldOf(cs[i].reducer, h.lineage[hash]))
      && EmittedOf(items, cs[i].name, hash) == NearestEmitted(cs[i].reducer, h.lineage[hash], h.heads)
  {
    var (events, hs) := (RunEvents(c, world, steps), seq(|cs|, _ => Unheard(c)));
    CacheEventsArePossible(c, world, steps, |cs|);
    BareStays(hs, events, i);
    assert forall j :: 0 <= j < |cs| ==> WithoutStates(hs[j]) && HasNoStates(map[], cs[j]);
    hide RunEvents, CacheAfterAll, ItemsOf, HistoriesOf, WithoutHarm, FoldOf, NearestEmitted, WellFormed, GoodStep, Invariant;
    var (items, h) := (ItemsOf(cs, map[], events), HistoriesOf(hs, events)[i]);
    RunTracks(cs, map[], hs, events);
    assert Tracks(items, cs[i], h);
    assert hash in h.lineage && hash !in h.gone;
    assert TracksBlock(items, cs[i], h.lineage[hash], h.heads, hash);
  }

  lemma {:induction false} BareStays(hs: seq<History>, events: seq<Event>, i: nat)
    requires i < |hs|
    ensures HistoriesOf(hs, events)[i].bare == hs[i].bare
    decreases |events|
  {
    if events != [] {
      assert LaterAll(hs, events[0])[i] == LaterFor(hs, events[0], i);
      BareStays(LaterAll(hs, events[0]), events[1..], i);
    }
  }
}
