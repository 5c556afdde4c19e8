/**
 * The responder's component (src/responder/component.ts): comparing the states of two emitted heads, it re-enqueues
 * pending responses, announces mined transactions and ends responses.
 */
module ResponderComponent {
  import opened Wrappers
  import opened BlockCache
  import opened Counting
  import opened Reducers
  import opened MappedReducer
  import GasQueue

  datatype Response = Response(appointmentId: string, identifier: GasQueue.Identifier, state: ResponseState)

  type State = Mapped<Response>

  datatype Action =
    | ReEnqueueMissingItems(ids: seq<string>)
    | TxMined(identifier: GasQueue.Identifier, nonce: nat)
    | EndResponse(id: string)
    | CheckResponderBalance

  predicate HasBeenMined(s: State, id: string) {
    id in s.items && s.items[id].state.Mined?
  }

  predicate ShouldBeRemoved(s: State, id: string, confirmations: int) {
    HasBeenMined(s, id) && s.blockNumber - s.items[id].state.blockMined > confirmations
  }

  /** The appointments among `ids` whose response is pending, in order. */
  function PendingAmong(s: State, ids: seq<string>): (pending: seq<string>)
    requires forall id :: id in ids ==> id in s.items
  {
    if ids == [] then []
    else (if s.items[ids[0]].state.Pending? then [s.items[ids[0]].appointmentId] else []) + PendingAmong(s, ids[1..])
  }

  function ChangesFor(prev: State, s: State, id: string, confirmations: int): seq<Action>
    requires id in s.items
  {
    (if !HasBeenMined(prev, id) && HasBeenMined(s, id)
     then [TxMined(s.items[id].identifier, s.items[id].state.nonce), CheckResponderBalance] else [])
    + (if !ShouldBeRemoved(prev, id, confirmations) && ShouldBeRemoved(s, id, confirmations)
       then [EndResponse(s.items[id].appointmentId)] else [])
  }

  function ChangesUpTo(prev: State, s: State, confirmations: int, n: nat): seq<Action>
    requires n <= |s.ids| && forall id :: id in s.ids ==> id in s.items
  {
    if n == 0 then []
    else ChangesUpTo(prev, s, confirmations, n - 1) + ChangesFor(prev, s, s.ids[n - 1], confirmations)
  }

  function ReEnqueues(s: State): seq<Action>
    requires forall id :: id in s.ids ==> id in s.items
  {
    var pending := PendingAmong(s, s.ids);
    if |pending| > 0 then [ReEnqueueMissingItems(pending)] else []
  }

  function DetectChanges(prev: State, s: State, confirmations: int): seq<Action>
    requires forall id :: id in s.ids ==> id in s.items
  {
    ReEnqueues(s) + ChangesUpTo(prev, s, confirmations, |s.ids|)
  }

  method DetectChangesInLoop(prev: State, s: State, confirmations: int) returns (actions: seq<Action>)
    requires forall id :: id in s.ids ==> id in s.items
    ensures actions == DetectChanges(prev, s, confirmations)
  {
    hide *;
    FirstAndLast(prev, s, confirmations);
    var reEnqueueItems := PendingAmong(s, s.ids);
    actions := if |reEnqueueItems| > 0 then [ReEnqueueMissingItems(reEnqueueItems)] else [];
    for n := 0 to |s.ids|
      invariant actions == ReEnqueues(s) + ChangesUpTo(prev, s, confirmations, n)
    {
      var id := s.ids[n];
      OneMoreItem(prev, s, confirmations, n);
      MinedHasState(s, id);
      if !HasBeenMined(prev, id) && HasBeenMined(s, id) {
        actions := actions + [TxMined(s.items[id].identifier, s.items[id].state.nonce), CheckResponderBalance];
      }
      if !ShouldBeRemoved(prev, id, confirmations) && ShouldBeRemoved(s, id, confirmations) {
        actions := actions + [EndResponse(s.items[id].appointmentId)];
      }
    }
  }

  /** The actions before the first item and after the last one. */
  lemma FirstAndLast(prev: State, s: State, confirmations: int)
    requires forall id :: id in s.ids ==> id in s.items
    ensures var pending := PendingAmong(s, s.ids);
      ReEnqueues(s) + ChangesUpTo(prev, s, confirmations, 0)
      == if |pending| > 0 then [ReEnqueueMissingItems(pending)] else []
    ensures ReEnqueues(s) + ChangesUpTo(prev, s, confirmations, |s.ids|) == DetectChanges(prev, s, confirmations)
  {
  }

  lemma MinedHasState(s: State, id: string)
    ensures HasBeenMined(s, id) ==> id in s.items && s.items[id].state.Mined?
  {
  }

  /** How the actions grow with one more item, whatever they were before. */
  lemma OneMoreItem(prev: State, s: State, confirmations: int, n: nat)
    requires n < |s.ids| && forall id :: id in s.ids ==> id in s.items
    ensures var (id, actions) := (s.ids[n], ReEnqueues(s) + ChangesUpTo(prev, s, confirmations, n));
      var mined := if !HasBeenMined(prev, id) && HasBeenMined(s, id)
                   then actions + [TxMined(s.items[id].identifier, s.items[id].state.nonce), CheckResponderBalance]
                   else actions;
      ReEnqueues(s) + ChangesUpTo(prev, s, confirmations, n + 1)
      == if !ShouldBeRemoved(prev, id, confirmations) && ShouldBeRemoved(s, id, confirmations)
         then mined + [EndResponse(s.items[id].appointmentId)] else mined
  {
    hide ReEnqueues, PendingAmong, ShouldBeRemoved;
  }

  // ---- One comparison ----------------------------------------------------------------------------------

  /** Every entry carries the identifiers of its appointment, and different appointments have different ones. */
  ghost predicate Listed(s: State, identifierOf: string -> GasQueue.Identifier) {
    && (forall id :: id in s.ids <==> id in s.items)
    && (forall i, j :: 0 <= i < j < |s.ids| ==> s.ids[i] != s.ids[j])
    && (forall id :: id in s.items ==> s.items[id].appointmentId == id && s.items[id].identifier == identifierOf(id))
    && (forall id, other :: id in s.items && other in s.items && id != other ==> identifierOf(id) != identifierOf(other))
  }

  /** Exactly the appointments with a pending response are re-enqueued. */
  lemma {:induction false} PendingAmongExactly(s: State, ids: seq<string>, identifierOf: string -> GasQueue.Identifier)
    requires Listed(s, identifierOf) && forall id :: id in ids ==> id in s.items
    ensures forall id :: id in PendingAmong(s, ids) <==> id in ids && s.items[id].state.Pending?
    decreases |ids|
  {
    if ids != [] {
      PendingAmongExactly(s, ids[1..], identifierOf);
    }
  }

  /** Announces that the transaction was mined, at this nonce if one is given. */
  function Mines(identifier: GasQueue.Identifier, nonce: Option<nat>): Action -> bool {
    (a: Action) => a.TxMined? && a.identifier == identifier && (nonce.None? || a.nonce == nonce.value)
  }

  predicate AtNonce(s: State, id: string, nonce: Option<nat>)
    requires HasBeenMined(s, id)
  {
    nonce.None? || s.items[id].state.nonce == nonce.value
  }

  function Ends(id: string): Action -> bool {
    (a: Action) => a.EndResponse? && a.id == id
  }

  lemma ChangesForCounts(prev: State, s: State, a: string, confirmations: int, id: string,
                         identifierOf: string -> GasQueue.Identifier, nonce: Option<nat>)
    requires Listed(s, identifierOf) && a in s.items && id in s.items
    ensures var changes := ChangesFor(prev, s, a, confirmations);
      && Count(changes, Mines(identifierOf(id), nonce))
         == (if a == id && !HasBeenMined(prev, id) && HasBeenMined(s, id) && AtNonce(s, id, nonce) then 1 else 0)
      && Count(changes, Ends(id))
         == (if a == id && !ShouldBeRemoved(prev, id, confirmations) && ShouldBeRemoved(s, id, confirmations) then 1 else 0)
  {
    var mined := if !HasBeenMined(prev, a) && HasBeenMined(s, a)
                 then [TxMined(s.items[a].identifier, s.items[a].state.nonce), CheckResponderBalance] else [];
    var ended := if !ShouldBeRemoved(prev, a, confirmations) && ShouldBeRemoved(s, a, confirmations)
                 then [EndResponse(s.items[a].appointmentId)] else [];
    CountOfSum(mined, ended, Mines(identifierOf(id), nonce));
    CountOfSum(mined, ended, Ends(id));
    if mined != [] {
      assert mined[1..] == [CheckResponderBalance] && mined[1..][1..] == [];
    }
    if ended != [] {
      assert ended[1..] == [];
    }
  }

  lemma {:induction false} ChangesUpToCounts(prev: State, s: State, confirmations: int, n: nat, id: string,
                                             identifierOf: string -> GasQueue.Identifier, nonce: Option<nat>)
    requires Listed(s, identifierOf) && n <= |s.ids| && id in s.items
    ensures var changes := ChangesUpTo(prev, s, confirmations, n);
      && Count(changes, Mines(identifierOf(id), nonce))
         == (if id in s.ids[..n] && !HasBeenMined(prev, id) && HasBeenMined(s, id) && AtNonce(s, id, nonce) then 1 else 0)
      && Count(changes, Ends(id))
         == (if id in s.ids[..n] && !ShouldBeRemoved(prev, id, confirmations) && ShouldBeRemoved(s, id, confirmations) then 1 else 0)
  {
    hide ChangesFor, HasBeenMined, ShouldBeRemoved, AtNonce, Count;
    NothingCounted(id, identifierOf, nonce);
    if n > 0 {
      var a := s.ids[n - 1];
      var before, more := ChangesUpTo(prev, s, confirmations, n - 1), ChangesFor(prev, s, a, confirmations);
      ChangesUpToCounts(prev, s, confirmations, n - 1, id, identifierOf, nonce);
      ChangesForCounts(prev, s, a, confirmations, id, identifierOf, nonce);
      CountOfSum(before, more, Mines(identifierOf(id), nonce));
      CountOfSum(before, more, Ends(id));
      assert s.ids[..n] == s.ids[..n - 1] + [a];
    }
  }

  lemma NothingCounted(id: string, identifierOf: string -> GasQueue.Identifier, nonce: Option<nat>)
    ensures Count([], Mines(identifierOf(id), nonce)) == 0 && Count([], Ends(id)) == 0
  {
  }

  lemma ComparisonCounts(prev: State, s: State, confirmations: int, id: string, identifierOf: string -> GasQueue.Identifier,
                         nonce: Option<nat>)
    requires Listed(s, identifierOf) && id in s.items
    ensures var changes := DetectChanges(prev, s, confirmations);
      && Count(changes, Mines(identifierOf(id), nonce))
         == (if !HasBeenMined(prev, id) && HasBeenMined(s, id) && AtNonce(s, id, nonce) then 1 else 0)
      && Count(changes, Ends(id))
         == (if !ShouldBeRemoved(prev, id, confirmations) && ShouldBeRemoved(s, id, confirmations) then 1 else 0)
  {
    var enqueues, rest := ReEnqueues(s), ChangesUpTo(prev, s, confirmations, |s.ids|);
    ChangesUpToCounts(prev, s, confirmations, |s.ids|, id, identifierOf, nonce);
    assert s.ids[..|s.ids|] == s.ids;
    CountOfSum(enqueues, rest, Mines(identifierOf(id), nonce));
    CountOfSum(enqueues, rest, Ends(id));
    if enqueues != [] {
      assert enqueues[1..] == [];
    }
  }

  lemma {:induction false} OnlyOneReEnqueue(prev: State, s: State, confirmations: int, n: nat)
    requires n <= |s.ids| && forall id :: id in s.ids ==> id in s.items
    ensures forall i :: 0 <= i < |ChangesUpTo(prev, s, confirmations, n)| ==>
      !ChangesUpTo(prev, s, confirmations, n)[i].ReEnqueueMissingItems?
  {
    if n > 0 {
      OnlyOneReEnqueue(prev, s, confirmations, n - 1);
    }
  }

  /** Every comparison asks first, and once, for exactly the appointments with a pending response to be re-enqueued. */
  lemma PendingAreReEnqueued(prev: State, s: State, confirmations: int, identifierOf: string -> GasQueue.Identifier)
    requires Listed(s, identifierOf)
    ensures var changes, pending := DetectChanges(prev, s, confirmations), PendingAmong(s, s.ids);
      && (forall id :: id in pending <==> id in s.items && s.items[id].state.Pending?)
      && (pending != [] ==> changes != [] && changes[0] == ReEnqueueMissingItems(pending))
      && (forall i :: 0 <= i < |changes| && changes[i].ReEnqueueMissingItems? ==> i == 0 && pending != [])
  {
    PendingAmongExactly(s, s.ids, identifierOf);
    OnlyOneReEnqueue(prev, s, confirmations, |s.ids|);
  }

  // ---- A chain of emitted heads ------------------------------------------------------------------------

  /** The heads go up one chain on which a response is tracked: once mined it stays mined in the same block. */
  ghost predicate Follows(run: seq<State>, id: string, identifierOf: string -> GasQueue.Identifier) {
    && (forall i :: 0 <= i < |run| ==> Listed(run[i], identifierOf) && id in run[i].items)
    && (forall i, j :: 0 <= i < j < |run| ==> run[i].blockNumber < run[j].blockNumber)
    && (forall i, j :: 0 <= i < j < |run| && HasBeenMined(run[i], id) ==> run[j].items[id] == run[i].items[id])
  }

  function AllActions(run: seq<State>, confirmations: int): seq<Action>
    requires run != [] && forall i :: 0 <= i < |run| ==> forall id :: id in run[i].ids ==> id in run[i].items
    decreases |run|
  {
    if |run| == 1 then []
    else
      var n := |run| - 1;
      AllActions(run[..n], confirmations) + DetectChanges(run[n - 1], run[n], confirmations)
  }

  /** Exactly once: along a chain of heads a response is announced as mined, and ended, each once if it becomes due. */
  lemma {:induction false} AnnouncedExactlyOnce(run: seq<State>, confirmations: int, id: string,
                                                identifierOf: string -> GasQueue.Identifier, nonce: Option<nat>)
    requires run != [] && Follows(run, id, identifierOf)
    ensures var actions, last := AllActions(run, confirmations), run[|run| - 1];
      && Count(actions, Mines(identifierOf(id), nonce))
         == (if !HasBeenMined(run[0], id) && HasBeenMined(last, id) && AtNonce(last, id, nonce) then 1 else 0)
      && Count(actions, Ends(id))
         == (if !ShouldBeRemoved(run[0], id, confirmations) && ShouldBeRemoved(last, id, confirmations) then 1 else 0)
    decreases |run|
  {
    FollowsListed(run, id, identifierOf);
    if |run| > 1 {
      var n := |run| - 1;
      ShorterFollows(run, id, identifierOf, n);
      AnnouncedExactlyOnce(run[..n], confirmations, id, identifierOf, nonce);
      CountsAdd(run, confirmations, Mines(identifierOf(id), nonce));
      CountsAdd(run, confirmations, Ends(id));
      ComparisonCounts(run[n - 1], run[n], confirmations, id, identifierOf, nonce);
      RunIsMonotone(run, confirmations, id, identifierOf, n);
      assert run[..n][0] == run[0] && run[..n][n - 1] == run[n - 1];
    }
    hide Follows, Listed, ShouldBeRemoved, DetectChanges, ChangesUpTo, ReEnqueues;
  }

  lemma CountsAdd(run: seq<State>, confirmations: int, p: Action -> bool)
    requires |run| > 1 && forall i :: 0 <= i < |run| ==> forall id :: id in run[i].ids ==> id in run[i].items
    ensures var n := |run| - 1;
      Count(AllActions(run, confirmations), p)
      == Count(AllActions(run[..n], confirmations), p) + Count(DetectChanges(run[n - 1], run[n], confirmations), p)
  {
    var n := |run| - 1;
    CountOfSum(AllActions(run[..n], confirmations), DetectChanges(run[n - 1], run[n], confirmations), p);
  }

  lemma FollowsListed(run: seq<State>, id: string, identifierOf: string -> GasQueue.Identifier)
    requires Follows(run, id, identifierOf)
    ensures forall i :: 0 <= i < |run| ==> Listed(run[i], identifierOf) && id in run[i].items
  {
  }

  lemma ShorterFollows(run: seq<State>, id: string, identifierOf: string -> GasQueue.Identifier, n: nat)
    requires Follows(run, id, identifierOf) && 0 < n <= |run|
    ensures Follows(run[..n], id, identifierOf)
  {
    hide Listed, HasBeenMined;
  }

  lemma RunIsMonotone(run: seq<State>, confirmations: int, id: string, identifierOf: string -> GasQueue.Identifier, n: nat)
    requires Follows(run, id, identifierOf) && 0 < n < |run|
    ensures HasBeenMined(run[0], id) ==> HasBeenMined(run[n - 1], id)
    ensures HasBeenMined(run[n - 1], id) ==> HasBeenMined(run[n], id) && run[n].items[id] == run[n - 1].items[id]
    ensures ShouldBeRemoved(run[0], id, confirmations) ==> ShouldBeRemoved(run[n - 1], id, confirmations)
    ensures ShouldBeRemoved(run[n - 1], id, confirmations) ==> ShouldBeRemoved(run[n], id, confirmations)
  {
    assert n - 1 > 0 ==> (HasBeenMined(run[0], id) ==> run[n - 1].items[id] == run[0].items[id]);
  }

  /** A response that ends along the run was announced as mined along it, or was mined at the first head already. */
  lemma MinedBeforeEnded(run: seq<State>, confirmations: int, id: string, identifierOf: string -> GasQueue.Identifier)
    requires run != [] && Follows(run, id, identifierOf) && Count(AllActions(run, confirmations), Ends(id)) > 0
    ensures HasBeenMined(run[0], id) || Count(AllActions(run, confirmations), Mines(identifierOf(id), None)) == 1
  {
    AnnouncedExactlyOnce(run, confirmations, id, identifierOf, None);
  }

  // ---- Where such runs come from -----------------------------------------------------------------------

  /** `run[i]` is the state at `chain[at[i]]`, and the response is tracked since `chain[k]`. */
  ghost predicate IsRunOn(run: seq<State>, id: string, find: Block -> Option<MinedIn>, blockObserved: int, chain: seq<Block>,
                          k: nat, at: seq<nat>)
  {
    && k < |chain| && |at| == |run|
    && (forall i :: 0 <= i < |at| ==> at[i] <= k)
    && (forall i, j :: 0 <= i < j < |at| ==> at[j] < at[i])
    && (forall i :: 0 <= i < |run| ==> run[i].blockNumber == chain[0].number - at[i])
    && (forall i :: 0 <= i < |run| ==> id in run[i].items)
    && (forall i :: 0 <= i < |run| ==>
          run[i].items[id].state == Folded(AppointmentReducer(find, blockObserved), chain[at[i]..], k - at[i]))
  }

  lemma KeepsMined(find: Block -> Option<MinedIn>, blockObserved: int, chain: seq<Block>, k: nat, lower: nat, upper: nat)
    requires upper < lower <= k < |chain|
    ensures var r := AppointmentReducer(find, blockObserved);
      Folded(r, chain[lower..], k - lower).Mined? ==>
        Folded(r, chain[upper..], k - upper) == Folded(r, chain[lower..], k - lower)
  {
    hide Folded;
    assert chain[upper..][lower - upper..] == chain[lower..];
    SettledStays(AppointmentReducer(find, blockObserved), (s: ResponseState) => s.Mined?, chain[upper..], k - upper,
                 lower - upper);
  }

  /** The states of a tracked response along one chain follow each other. */
  lemma RunsOnChainsFollow(run: seq<State>, id: string, identifierOf: string -> GasQueue.Identifier,
                           find: Block -> Option<MinedIn>, blockObserved: int, chain: seq<Block>, k: nat, at: seq<nat>)
    requires IsRunOn(run, id, find, blockObserved, chain, k, at)
    requires forall i :: 0 <= i < |run| ==> Listed(run[i], identifierOf)
    ensures Follows(run, id, identifierOf)
  {
    hide Folded, Listed;
    forall i, j | 0 <= i < j < |run| && HasBeenMined(run[i], id) ensures run[j].items[id] == run[i].items[id] {
      KeepsMined(find, blockObserved, chain, k, at[i], at[j]);
      SameResponse(run[i], run[j], id, identifierOf);
    }
  }

  lemma SameResponse(s: State, t: State, id: string, identifierOf: string -> GasQueue.Identifier)
    requires Listed(s, identifierOf) && Listed(t, identifierOf) && id in s.items && id in t.items
    requires s.items[id].state == t.items[id].state
    ensures s.items[id] == t.items[id]
  {
  }
}
