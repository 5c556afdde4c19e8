/** The reducer over a changing collection of items, each with a reducer of its own (src/blockMonitor/component.ts). */
module MappedReducer {
  import opened BlockCache
  import opened Reducers

  datatype Tracked<!S> = Tracked(id: string, reducer: Reducer<S>)

  /** The state of every item, listed in the order in which they were inserted, and the number of the block. */
  datatype Mapped<S> = Mapped(ids: seq<string>, items: map<string, S>, blockNumber: int)

  function Put<S>(m: Mapped<S>, id: string, s: S): Mapped<S> {
    m.(ids := if id in m.items then m.ids else m.ids + [id], items := m.items[id := s])
  }

  /** Puts a value for each item in turn. */
  function Filled<S>(items: seq<Tracked<S>>, value: Tracked<S> -> S, blockNumber: int): Mapped<S>
    decreases |items|
  {
    if items == [] then Mapped([], map[], blockNumber)
    else
      var last := items[|items| - 1];
      Put(Filled(items[..|items| - 1], value, blockNumber), last.id, value(last))
  }

  function InitialOf<S>(chain: seq<Block>): Tracked<S> -> S {
    (t: Tracked<S>) => t.reducer.initial(chain)
  }

  function NextOf<S>(prev: Mapped<S>, chain: seq<Block>): Tracked<S> -> S
    requires chain != []
  {
    (t: Tracked<S>) => if t.id in prev.items then t.reducer.reduce(prev.items[t.id], chain[0]) else t.reducer.initial(chain)
  }

  function MappedInitial<S>(items: seq<Tracked<S>>, chain: seq<Block>): Mapped<S>
    requires chain != []
  {
    Filled(items, InitialOf(chain), chain[0].number)
  }

  function MappedReduce<S>(items: seq<Tracked<S>>, prev: Mapped<S>, chain: seq<Block>): Mapped<S>
    requires chain != []
  {
    Filled(items, NextOf(prev, chain), chain[0].number)
  }

  ghost predicate DistinctIds<S>(items: seq<Tracked<S>>) {
    forall i, j :: 0 <= i < j < |items| ==> items[i].id != items[j].id
  }

  ghost predicate Lists<S>(items: seq<Tracked<S>>, id: string) {
    exists i :: 0 <= i < |items| && items[i].id == id
  }

  /** With distinct identifiers there is one entry for each item, and no other, in the order of the collection. */
  lemma {:induction false} FilledPointwise<S>(items: seq<Tracked<S>>, value: Tracked<S> -> S, blockNumber: int)
    requires DistinctIds(items)
    ensures var m := Filled(items, value, blockNumber);
      && |m.ids| == |items| && m.blockNumber == blockNumber
      && (forall i :: 0 <= i < |items| ==>
            m.ids[i] == items[i].id && items[i].id in m.items && m.items[items[i].id] == value(items[i]))
      && (forall id :: id in m.items <==> id in m.ids)
    decreases |items|
  {
    if items != [] {
      FilledPointwise(items[..|items| - 1], value, blockNumber);
      var shorter := Filled(items[..|items| - 1], value, blockNumber);
      var last := items[|items| - 1];
      assert last.id !in shorter.ids by {
        assert forall i :: 0 <= i < |shorter.ids| ==> shorter.ids[i] == items[i].id;
      }
    }
  }

  // ---- Folding along a chain while the collection changes ----------------------------------------------

  /** `itemsAt[i]` is the collection when `chain[i]` was reduced. */
  function MappedFolded<S>(itemsAt: seq<seq<Tracked<S>>>, chain: seq<Block>): Mapped<S>
    requires |itemsAt| == |chain| > 0
    decreases |chain|
  {
    if |chain| == 1 then MappedInitial(itemsAt[0], chain)
    else MappedReduce(itemsAt[0], MappedFolded(itemsAt[1..], chain[1..]), chain)
  }

  lemma KeysOfMapped<S>(itemsAt: seq<seq<Tracked<S>>>, chain: seq<Block>, t: Tracked<S>)
    requires |itemsAt| == |chain| > 0 && DistinctIds(itemsAt[0])
    ensures t.id in MappedFolded(itemsAt, chain).items <==> Lists(itemsAt[0], t.id)
    ensures t in itemsAt[0] && |chain| == 1 ==> MappedFolded(itemsAt, chain).items[t.id] == t.reducer.initial(chain)
    ensures t in itemsAt[0] && |chain| > 1 ==>
      MappedFolded(itemsAt, chain).items[t.id] == NextOf(MappedFolded(itemsAt[1..], chain[1..]), chain)(t)
  {
    var value := if |chain| == 1 then InitialOf(chain) else NextOf(MappedFolded(itemsAt[1..], chain[1..]), chain);
    FilledPointwise(itemsAt[0], value, chain[0].number);
  }

  /**
   * The mapped reducer lifts pointwise: an item that entered the collection when `chain[k]` was reduced and stayed in
   * it has the state of its own reducer, scanned at `chain[k]` and folded from there on.
   */
  lemma {:induction false} MappedFoldIsPointwise<S>(itemsAt: seq<seq<Tracked<S>>>, chain: seq<Block>, t: Tracked<S>, k: nat)
    requires |itemsAt| == |chain| && k < |chain| && forall i :: 0 <= i < |itemsAt| ==> DistinctIds(itemsAt[i])
    requires forall i :: 0 <= i <= k ==> t in itemsAt[i]
    requires k + 1 < |chain| ==> !Lists(itemsAt[k + 1], t.id)
    ensures t.id in MappedFolded(itemsAt, chain).items
    ensures MappedFolded(itemsAt, chain).items[t.id] == Folded(t.reducer, chain, k)
    decreases k
  {
    KeysOfMapped(itemsAt, chain, t);
    var i :| 0 <= i < |itemsAt[0]| && itemsAt[0][i] == t;
    if |chain| > 1 {
      KeysOfMapped(itemsAt[1..], chain[1..], t);
      if k > 0 {
        assert forall i :: 0 <= i <= k - 1 ==> itemsAt[1..][i] == itemsAt[i + 1];
        MappedFoldIsPointwise(itemsAt[1..], chain[1..], t, k - 1);
      }
    }
  }

  // ---- The reducer as an object ------------------------------------------------------------------------

  class MappedStateReducer<!S> {
    /** The collection as it is now. */
    var items: seq<Tracked<S>>

    constructor (items: seq<Tracked<S>>)
      ensures this.items == items
    {
      this.items := items;
    }

    method GetInitialState(chain: seq<Block>) returns (state: Mapped<S>)
      requires chain != []
      ensures state == MappedInitial(items, chain)
    {
      state := Mapped([], map[], chain[0].number);
      for i := 0 to |items|
        invariant state == Filled(items[..i], InitialOf(chain), chain[0].number)
      {
        assert items[..i + 1][..i] == items[..i];
        state := Put(state, items[i].id, items[i].reducer.initial(chain));
      }
      assert items[..|items|] == items;
    }

    method Reduce(prev: Mapped<S>, chain: seq<Block>) returns (state: Mapped<S>)
      requires chain != []
      ensures state == MappedReduce(items, prev, chain)
    {
      state := Mapped([], map[], chain[0].number);
      for i := 0 to |items|
        invariant state == Filled(items[..i], NextOf(prev, chain), chain[0].number)
      {
        assert items[..i + 1][..i] == items[..i];
        var id := items[i].id;
        if id in prev.items {
          state := Put(state, id, items[i].reducer.reduce(prev.items[id], chain[0]));
        } else {
          state := Put(state, id, items[i].reducer.initial(chain));
        }
      }
      assert items[..|items|] == items;
    }
  }
}
