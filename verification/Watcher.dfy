/**
 * The watcher (src/watcher/watcher.ts): comparing the states of two emitted heads, it starts responses and removes
 * appointments.
 */
module Watcher {
  import opened Wrappers
  import opened BlockCache
  import opened Counting
  import opened Reducers
  import opened MappedReducer

  datatype Action = StartResponse(id: string, blockObserved: int) | RemoveAppointment(id: string)

  type State = Mapped<WatcherState>

  datatype Confirmations = Confirmations(beforeResponse: int, beforeRemoval: int)

  function StateOf(s: State, id: string): Option<WatcherState> {
    if id in s.items then Some(s.items[id]) else None
  }

  predicate Confirmed(number: int, s: Option<WatcherState>, confirmations: int) {
    s.Some? && s.value.Observed? && number - s.value.blockObserved + 1 >= confirmations
  }

  predicate ShouldHaveStarted(c: Confirmations, s: State, id: string) {
    Confirmed(s.blockNumber, StateOf(s, id), c.beforeResponse)
  }

  predicate ShouldRemoveObserved(c: Confirmations, s: State, id: string) {
    Confirmed(s.blockNumber, StateOf(s, id), c.beforeRemoval)
  }

  predicate ShouldRemoveExpired(c: Confirmations, s: State, id: string, endBlock: int) {
    StateOf(s, id) == Some(Watching) && s.blockNumber - endBlock > c.beforeRemoval
  }

  /** The actions for one appointment; each is a predicate that did not hold before and does now. */
  function ChangesFor(c: Confirmations, prev: State, s: State, id: string, endBlock: int): (actions: seq<Action>)
    requires id in s.items
  {
    (if !ShouldHaveStarted(c, prev, id) && ShouldHaveStarted(c, s, id)
     then [StartResponse(id, s.items[id].blockObserved)] else [])
    + (if !ShouldRemoveObserved(c, prev, id) && ShouldRemoveObserved(c, s, id) then [RemoveAppointment(id)] else [])
    + (if !ShouldRemoveExpired(c, prev, id, endBlock) && ShouldRemoveExpired(c, s, id, endBlock)
       then [RemoveAppointment(id)] else [])
  }

  /** The first `n` appointments of the state; `None` when one of them is not in the store, where the source throws. */
  function ChangesUpTo(c: Confirmations, prev: State, s: State, endBlocks: map<string, int>, n: nat): Option<seq<Action>>
    requires n <= |s.ids| && forall id :: id in s.ids ==> id in s.items
  {
    if n == 0 then Some([])
    else
      var id := s.ids[n - 1];
      match ChangesUpTo(c, prev, s, endBlocks, n - 1)
      case None => None
      case Some(actions) =>
        if id in endBlocks then Some(actions + ChangesFor(c, prev, s, id, endBlocks[id])) else None
  }

  ghost predicate Listed(s: State) {
    && (forall id :: id in s.ids <==> id in s.items)
    && (forall i, j :: 0 <= i < j < |s.ids| ==> s.ids[i] != s.ids[j])
  }

  function DetectChanges(c: Confirmations, prev: State, s: State, endBlocks: map<string, int>): Option<seq<Action>>
    requires forall id :: id in s.ids ==> id in s.items
  {
    ChangesUpTo(c, prev, s, endBlocks, |s.ids|)
  }

  class WatcherComponent {
    const confirmations: Confirmations
    var endBlocks: map<string, int>

    /** The source refuses to remove appointments before it responds to them. */
    static method Create(beforeResponse: int, beforeRemoval: int, endBlocks: map<string, int>)
      returns (w: Option<WatcherComponent>)
      ensures w.None? <==> beforeResponse > beforeRemoval
      ensures w.Some? ==> w.value.confirmations == Confirmations(beforeResponse, beforeRemoval)
      ensures w.Some? ==> fresh(w.value) && w.value.endBlocks == endBlocks
    {
      if beforeResponse > beforeRemoval { return None; }
      var watcher := new WatcherComponent(Confirmations(beforeResponse, beforeRemoval), endBlocks);
      return Some(watcher);
    }

    constructor (c: Confirmations, endBlocks: map<string, int>)
      ensures confirmations == c && this.endBlocks == endBlocks
    {
      confirmations, this.endBlocks := c, endBlocks;
    }

    method DetectChangesInLoop(prev: State, s: State) returns (result: Option<seq<Action>>)
      requires forall id :: id in s.ids ==> id in s.items
      ensures result == DetectChanges(confirmations, prev, s, endBlocks)
    {
      var actions := [];
      for n := 0 to |s.ids|
        invariant ChangesUpTo(confirmations, prev, s, endBlocks, n) == Some(actions)
      {
        var id := s.ids[n];
        var before := actions;
        var now := s.items[id];
        if !ShouldHaveStarted(confirmations, prev, id) && ShouldHaveStarted(confirmations, s, id) {
          actions := actions + [StartResponse(id, now.blockObserved)];
        }
        if !ShouldRemoveObserved(confirmations, prev, id) && ShouldRemoveObserved(confirmations, s, id) {
          actions := actions + [RemoveAppointment(id)];
        }
        if id !in endBlocks {
          StaysUndefined(confirmations, prev, s, endBlocks, n + 1);
          return None;
        }
        if !ShouldRemoveExpired(confirmations, prev, id, endBlocks[id]) && ShouldRemoveExpired(confirmations, s, id, endBlocks[id]) {
          actions := actions + [RemoveAppointment(id)];
        }
        assert actions == before + ChangesFor(confirmations, prev, s, id, endBlocks[id]);
      }
      result := Some(actions);
    }
  }

  lemma {:induction false} StaysUndefined(c: Confirmations, prev: State, s: State, endBlocks: map<string, int>, n: nat)
    requires n <= |s.ids| && forall id :: id in s.ids ==> id in s.items
    requires ChangesUpTo(c, prev, s, endBlocks, n) == None
    ensures DetectChanges(c, prev, s, endBlocks) == None
    decreases |s.ids| - n
  {
    if n < |s.ids| {
      StaysUndefined(c, prev, s, endBlocks, n + 1);
    }
  }

  // ---- One comparison ----------------------------------------------------------------------------------

  /** Starts a response for `id`, with this block as the observed one if a block is given. */
  function StartsOf(id: string, block: Option<int>): Action -> bool {
    (a: Action) => a.StartResponse? && a.id == id && (block.None? || a.blockObserved == block.value)
  }

  function RemovesOf(id: string): Action -> bool {
    (a: Action) => a.RemoveAppointment? && a.id == id
  }

  /** How many responses the actions start for an appointment. */
  function Starts(actions: seq<Action>, id: string, block: Option<int>): nat {
    Count(actions, StartsOf(id, block))
  }

  predicate AtBlock(s: State, id: string, block: Option<int>) {
    block.None? || StateOf(s, id) == Some(Observed(block.value))
  }

  predicate Rises(c: Confirmations, prev: State, s: State, id: string) {
    !ShouldHaveStarted(c, prev, id) && ShouldHaveStarted(c, s, id)
  }

  /** How many removals are due: one when enough confirmations are reached, one when the appointment expired. */
  function RemovalsDue(c: Confirmations, prev: State, s: State, id: string, endBlock: int): nat {
    (if !ShouldRemoveObserved(c, prev, id) && ShouldRemoveObserved(c, s, id) then 1 else 0)
    + (if !ShouldRemoveExpired(c, prev, id, endBlock) && ShouldRemoveExpired(c, s, id, endBlock) then 1 else 0)
  }

  lemma ChangesForCounts(c: Confirmations, prev: State, s: State, a: string, endBlock: int, id: string, block: Option<int>)
    requires a in s.items
    ensures var changes := ChangesFor(c, prev, s, a, endBlock);
      && Starts(changes, id, block) == (if a == id && Rises(c, prev, s, id) && AtBlock(s, id, block) then 1 else 0)
      && Count(changes, RemovesOf(id)) == (if a == id then RemovalsDue(c, prev, s, id, endBlock) else 0)
  {
    var start := if Rises(c, prev, s, a) then [StartResponse(a, s.items[a].blockObserved)] else [];
    var observed := if !ShouldRemoveObserved(c, prev, a) && ShouldRemoveObserved(c, s, a) then [RemoveAppointment(a)] else [];
    var expired := if !ShouldRemoveExpired(c, prev, a, endBlock) && ShouldRemoveExpired(c, s, a, endBlock)
                   then [RemoveAppointment(a)] else [];
    CountOfSum(start + observed, expired, StartsOf(id, block));
    CountOfSum(start, observed, StartsOf(id, block));
    CountOfSum(start + observed, expired, RemovesOf(id));
    CountOfSum(start, observed, RemovesOf(id));
  }

  lemma {:induction false} ChangesUpToCounts(c: Confirmations, prev: State, s: State, endBlocks: map<string, int>, n: nat,
                                             id: string, block: Option<int>)
    requires Listed(s) && n <= |s.ids| && ChangesUpTo(c, prev, s, endBlocks, n).Some?
    ensures id in s.ids[..n] ==> id in endBlocks
    ensures var changes := ChangesUpTo(c, prev, s, endBlocks, n).value;
      && Starts(changes, id, block) == (if id in s.ids[..n] && Rises(c, prev, s, id) && AtBlock(s, id, block) then 1 else 0)
      && Count(changes, RemovesOf(id)) == (if id in s.ids[..n] then RemovalsDue(c, prev, s, id, endBlocks[id]) else 0)
  {
    hide Rises, AtBlock, RemovalsDue, ChangesFor, Count;
    if n > 0 {
      var a := s.ids[n - 1];
      ChangesUpToCounts(c, prev, s, endBlocks, n - 1, id, block);
      ChangesForCounts(c, prev, s, a, endBlocks[a], id, block);
      var before, more := ChangesUpTo(c, prev, s, endBlocks, n - 1).value, ChangesFor(c, prev, s, a, endBlocks[a]);
      CountOfSum(before, more, StartsOf(id, block));
      CountOfSum(before, more, RemovesOf(id));
      assert s.ids[..n] == s.ids[..n - 1] + [a];
    } else {
      NothingCounted(id, block);
    }
  }

  lemma NothingCounted(id: string, block: Option<int>)
    ensures Starts([], id, block) == 0 && Count([], RemovesOf(id)) == 0
  {
  }

  /**
   * A comparison starts at most one response for an appointment, exactly if its predicate rises, with the block in which
   * the event was observed; and it removes the appointment exactly as often as a reason for that comes up.
   */
  lemma ComparisonCounts(c: Confirmations, prev: State, s: State, endBlocks: map<string, int>, id: string,
                         block: Option<int>)
    requires Listed(s) && DetectChanges(c, prev, s, endBlocks).Some?
    ensures id in s.items ==> id in endBlocks
    ensures var changes := DetectChanges(c, prev, s, endBlocks).value;
      && Starts(changes, id, block) == (if Rises(c, prev, s, id) && AtBlock(s, id, block) then 1 else 0)
      && Count(changes, RemovesOf(id)) == (if id in s.items then RemovalsDue(c, prev, s, id, endBlocks[id]) else 0)
  {
    ChangesUpToCounts(c, prev, s, endBlocks, |s.ids|, id, block);
    assert s.ids[..|s.ids|] == s.ids;
  }

  // ---- A chain of emitted heads ------------------------------------------------------------------------

  /** The heads go up one chain: numbers grow, and what was observed of `id` stays as it is. */
  ghost predicate Follows(run: seq<State>, id: string) {
    && (forall i :: 0 <= i < |run| ==> Listed(run[i]))
    && (forall i, j :: 0 <= i < j < |run| ==> run[i].blockNumber < run[j].blockNumber)
    && (forall i, j :: 0 <= i < j < |run| && StateOf(run[i], id).Some? && StateOf(run[i], id).value.Observed? ==>
          StateOf(run[j], id) == StateOf(run[i], id))
  }

  /** All actions along the run, in order; `None` if a comparison throws. `stores[i]` is the store at comparison `i`. */
  function AllActions(c: Confirmations, run: seq<State>, stores: seq<map<string, int>>): Option<seq<Action>>
    requires |run| == |stores| + 1 && forall i :: 0 <= i < |run| ==> forall id :: id in run[i].ids ==> id in run[i].items
    decreases |run|
  {
    if |run| == 1 then Some([])
    else
      var n := |run| - 1;
      match (AllActions(c, run[..n], stores[..n - 1]), DetectChanges(c, run[n - 1], run[n], stores[n - 1]))
      case (Some(earlier), Some(actions)) => Some(earlier + actions)
      case (_, _) => None
  }

  /**
   * Exactly once: along a chain of emitted heads, a response is started once if it should have been started at the last
   * head but not at the first one, and never otherwise; and it names the block that is on record at the last head.
   */
  lemma {:induction false} StartedExactlyOnce(c: Confirmations, run: seq<State>, stores: seq<map<string, int>>, id: string,
                                              block: Option<int>)
    requires |run| == |stores| + 1 && Follows(run, id) && AllActions(c, run, stores).Some?
    ensures var last := run[|run| - 1];
      Starts(AllActions(c, run, stores).value, id, block)
      == if !ShouldHaveStarted(c, run[0], id) && ShouldHaveStarted(c, last, id) && AtBlock(last, id, block) then 1 else 0
    decreases |run|
  {
    if |run| > 1 {
      var n := |run| - 1;
      StartedExactlyOnce(c, run[..n], stores[..n - 1], id, block);
      ComparisonCounts(c, run[n - 1], run[n], stores[n - 1], id, block);
      CountOfSum(AllActions(c, run[..n], stores[..n - 1]).value, DetectChanges(c, run[n - 1], run[n], stores[n - 1]).value,
                 StartsOf(id, block));
      RunIsMonotone(c, run, id, n);
    }
  }

  lemma RunIsMonotone(c: Confirmations, run: seq<State>, id: string, n: nat)
    requires Follows(run, id) && 0 < n < |run|
    ensures ShouldHaveStarted(c, run[n - 1], id) ==> ShouldHaveStarted(c, run[n], id)
    ensures ShouldHaveStarted(c, run[n - 1], id) ==> StateOf(run[n], id) == StateOf(run[n - 1], id)
    ensures ShouldHaveStarted(c, run[0], id) ==> ShouldHaveStarted(c, run[n - 1], id)
  {
    assert n > 1 && ShouldHaveStarted(c, run[0], id) ==> StateOf(run[n - 1], id) == StateOf(run[0], id);
  }

  /**
   * An observed appointment is not removed before its response was started: when its removal is due, the response should
   * have been started at the first head, or it was started exactly once up to and including this comparison.
   */
  lemma StartedBeforeRemoval(c: Confirmations, run: seq<State>, stores: seq<map<string, int>>, id: string)
    requires |run| == |stores| + 1 && Follows(run, id) && AllActions(c, run, stores).Some?
    requires c.beforeResponse <= c.beforeRemoval && ShouldRemoveObserved(c, run[|run| - 1], id)
    ensures ShouldHaveStarted(c, run[0], id) || Starts(AllActions(c, run, stores).value, id, None) == 1
  {
    StartedExactlyOnce(c, run, stores, id, None);
  }

  /** Whether the actions before position `q` start a response for `id`. */
  ghost predicate StartsBefore(actions: seq<Action>, id: string, q: nat)
    requires q <= |actions|
  {
    exists p :: 0 <= p < q && actions[p].StartResponse? && actions[p].id == id
  }

  ghost predicate HasBeenObserved(s: State, id: string) {
    StateOf(s, id).Some? && StateOf(s, id).value.Observed?
  }

  lemma RemovalInChangesFor(c: Confirmations, prev: State, s: State, a: string, endBlock: int, id: string, q: nat)
    requires a in s.items && q < |ChangesFor(c, prev, s, a, endBlock)|
    requires ChangesFor(c, prev, s, a, endBlock)[q] == RemoveAppointment(id)
    requires c.beforeResponse <= c.beforeRemoval && HasBeenObserved(s, id)
    ensures a == id && ShouldHaveStarted(c, s, id)
    ensures ShouldHaveStarted(c, prev, id) || StartsBefore(ChangesFor(c, prev, s, a, endBlock), id, q)
  {
    var changes := ChangesFor(c, prev, s, a, endBlock);
    if !ShouldHaveStarted(c, prev, id) {
      assert changes[0].StartResponse?;
    }
  }

  /** In one comparison, the removal of an observed appointment comes after its start, or the start was due before. */
  lemma {:induction false} RemovalInComparison(c: Confirmations, prev: State, s: State, endBlocks: map<string, int>, n: nat,
                                               id: string, q: nat)
    requires n <= |s.ids| && forall id :: id in s.ids ==> id in s.items
    requires ChangesUpTo(c, prev, s, endBlocks, n).Some? && q < |ChangesUpTo(c, prev, s, endBlocks, n).value|
    requires ChangesUpTo(c, prev, s, endBlocks, n).value[q] == RemoveAppointment(id)
    requires c.beforeResponse <= c.beforeRemoval && HasBeenObserved(s, id)
    ensures ShouldHaveStarted(c, s, id)
    ensures ShouldHaveStarted(c, prev, id) || StartsBefore(ChangesUpTo(c, prev, s, endBlocks, n).value, id, q)
  {
    hide ChangesFor, ShouldHaveStarted, HasBeenObserved;
    var before := ChangesUpTo(c, prev, s, endBlocks, n - 1).value;
    if q < |before| {
      RemovalInComparison(c, prev, s, endBlocks, n - 1, id, q);
      StillStartsBefore(before, ChangesFor(c, prev, s, s.ids[n - 1], endBlocks[s.ids[n - 1]]), id, q);
    } else {
      var a := s.ids[n - 1];
      RemovalInChangesFor(c, prev, s, a, endBlocks[a], id, q - |before|);
      LaterStartsBefore(before, ChangesFor(c, prev, s, a, endBlocks[a]), id, q - |before|);
    }
  }

  lemma RemovalInWhole(c: Confirmations, prev: State, s: State, endBlocks: map<string, int>, id: string, q: nat)
    requires forall id :: id in s.ids ==> id in s.items
    requires DetectChanges(c, prev, s, endBlocks).Some? && q < |DetectChanges(c, prev, s, endBlocks).value|
    requires DetectChanges(c, prev, s, endBlocks).value[q] == RemoveAppointment(id)
    requires c.beforeResponse <= c.beforeRemoval && HasBeenObserved(s, id)
    ensures ShouldHaveStarted(c, prev, id) || StartsBefore(DetectChanges(c, prev, s, endBlocks).value, id, q)
  {
    RemovalInComparison(c, prev, s, endBlocks, |s.ids|, id, q);
  }

  lemma PrefixFollows(run: seq<State>, n: nat, id: string)
    requires Follows(run, id) && n <= |run|
    ensures Follows(run[..n], id)
    ensures forall i :: 0 <= i < |run| ==> forall id :: id in run[i].ids ==> id in run[i].items
  {
  }

  lemma StillStartsBefore(s: seq<Action>, t: seq<Action>, id: string, q: nat)
    requires q <= |s|
    ensures StartsBefore(s, id, q) ==> StartsBefore(s + t, id, q)
  {
    if StartsBefore(s, id, q) {
      var p :| 0 <= p < q && s[p].StartResponse? && s[p].id == id;
      assert (s + t)[p] == s[p];
    }
  }

  lemma LaterStartsBefore(s: seq<Action>, t: seq<Action>, id: string, q: nat)
    requires q <= |t|
    ensures StartsBefore(t, id, q) ==> StartsBefore(s + t, id, |s| + q)
    ensures StartsBefore(s, id, |s|) ==> StartsBefore(s + t, id, |s| + q)
  {
    StillStartsBefore(s, t, id, |s|);
    if StartsBefore(t, id, q) {
      var p :| 0 <= p < q && t[p].StartResponse? && t[p].id == id;
      assert (s + t)[|s| + p] == t[p];
    }
  }

  lemma {:induction false} CountedStartIsThere(actions: seq<Action>, id: string)
    requires Starts(actions, id, None) > 0
    ensures StartsBefore(actions, id, |actions|)
  {
    if !StartsOf(id, None)(actions[0]) {
      CountedStartIsThere(actions[1..], id);
      LaterStartsBefore([actions[0]], actions[1..], id, |actions| - 1);
      assert [actions[0]] + actions[1..] == actions;
    }
  }

  /** The head whose comparison gave the action at position `q`. */
  ghost function HeadOf(c: Confirmations, run: seq<State>, stores: seq<map<string, int>>, q: nat): (k: nat)
    requires |run| == |stores| + 1 && forall i :: 0 <= i < |run| ==> forall id :: id in run[i].ids ==> id in run[i].items
    requires AllActions(c, run, stores).Some? && q < |AllActions(c, run, stores).value|
    ensures 0 < k < |run|
    decreases |run|
  {
    var n := |run| - 1;
    if q < |AllActions(c, run[..n], stores[..n - 1]).value| then HeadOf(c, run[..n], stores[..n - 1], q) else n
  }

  /**
   * In the sequence of all actions along a chain of heads, the removal of an appointment that had been observed by then
   * comes after the start of its response, unless that start was due at the first head already.
   */
  lemma {:induction false} RemovalFollowsStart(c: Confirmations, run: seq<State>, stores: seq<map<string, int>>, id: string,
                                               q: nat)
    requires |run| == |stores| + 1 && Follows(run, id) && AllActions(c, run, stores).Some?
    requires c.beforeResponse <= c.beforeRemoval
    requires q < |AllActions(c, run, stores).value| && AllActions(c, run, stores).value[q] == RemoveAppointment(id)
    requires HasBeenObserved(run[HeadOf(c, run, stores, q)], id)
    ensures ShouldHaveStarted(c, run[0], id) || StartsBefore(AllActions(c, run, stores).value, id, q)
    decreases |run|
  {
    var n := |run| - 1;
    PrefixFollows(run, n, id);
    hide ShouldHaveStarted, HasBeenObserved, StartsBefore, Starts, Follows, DetectChanges;
    var earlier := AllActions(c, run[..n], stores[..n - 1]).value;
    var last := DetectChanges(c, run[n - 1], run[n], stores[n - 1]).value;
    if q < |earlier| {
      RemovalFollowsStart(c, run[..n], stores[..n - 1], id, q);
      StillStartsBefore(earlier, last, id, q);
    } else {
      RemovalInWhole(c, run[n - 1], run[n], stores[n - 1], id, q - |earlier|);
      if ShouldHaveStarted(c, run[n - 1], id) && !ShouldHaveStarted(c, run[0], id) {
        StartedExactlyOnce(c, run[..n], stores[..n - 1], id, None);
        CountedStartIsThere(earlier, id);
      }
      LaterStartsBefore(earlier, last, id, q - |earlier|);
    }
  }

  // ---- Where such runs come from -----------------------------------------------------------------------

  /** `run[i]` is the state at `chain[at[i]]`, and `id` is in the store since `chain[k]`; numbers go down along `chain`. */
  ghost predicate IsRunOn(run: seq<State>, id: string, matches: Block -> bool, startBlock: int, chain: seq<Block>, k: nat,
                          at: seq<nat>)
  {
    && k < |chain| && |at| == |run|
    && (forall i :: 0 <= i < |at| ==> at[i] <= k)
    && (forall i, j :: 0 <= i < j < |at| ==> at[j] < at[i])
    && (forall i :: 0 <= i < |run| ==> Listed(run[i]) && run[i].blockNumber == chain[0].number - at[i])
    && (forall i :: 0 <= i < |run| ==>
          StateOf(run[i], id) == Some(Folded(EventFilterReducer(matches, startBlock), chain[at[i]..], k - at[i])))
  }

  /** The states along one chain of an appointment that is kept in the store follow each other. */
  lemma RunsOnChainsFollow(run: seq<State>, id: string, matches: Block -> bool, startBlock: int, chain: seq<Block>, k: nat,
                           at: seq<nat>)
    requires IsRunOn(run, id, matches, startBlock, chain, k, at)
    ensures Follows(run, id)
  {
    hide Folded;
    forall i, j | 0 <= i < j < |run| && StateOf(run[i], id).Some? && StateOf(run[i], id).value.Observed?
      ensures StateOf(run[j], id) == StateOf(run[i], id)
    {
      KeepsObserved(matches, startBlock, chain, k, at[i], at[j]);
    }
  }

  lemma KeepsObserved(matches: Block -> bool, startBlock: int, chain: seq<Block>, k: nat, lower: nat, upper: nat)
    requires upper < lower <= k < |chain|
    ensures var r := EventFilterReducer(matches, startBlock);
      Folded(r, chain[lower..], k - lower).Observed? ==>
        Folded(r, chain[upper..], k - upper) == Folded(r, chain[lower..], k - lower)
  {
    hide Folded;
    assert chain[upper..][lower - upper..] == chain[lower..];
    SettledStays(EventFilterReducer(matches, startBlock), (s: WatcherState) => s.Observed?, chain[upper..], k - upper,
                 lower - upper);
  }
}
