/**
 * Stable sorting of a sequence by an integer key, ascending.
 *
 * The gas queue sorts twice with `Array.prototype.sort`; this module says what a stable sort returns and
 * shows that the answer is unique, so nothing depends on which algorithm the runtime uses.
 */
module StableSort {

  ghost predicate Sorted<T>(s: seq<T>, key: T -> int) {
    forall i, j :: 0 <= i < j < |s| ==> key(s[i]) <= key(s[j])
  }

  /** Puts `x` in front of the first element whose key is not smaller. */
  function Insert<T>(x: T, s: seq<T>, key: T -> int): seq<T> {
    if s == [] then [x]
    else if key(x) <= key(s[0]) then [x] + s
    else [s[0]] + Insert(x, s[1..], key)
  }

  function Sort<T>(s: seq<T>, key: T -> int): seq<T> {
    if s == [] then [] else Insert(s[0], Sort(s[1..], key), key)
  }

  /** The elements of `s` whose key is `k`, in the order in which they stand in `s`. */
  function Class<T>(s: seq<T>, key: T -> int, k: int): seq<T> {
    if s == [] then []
    else (if key(s[0]) == k then [s[0]] else []) + Class(s[1..], key, k)
  }

  lemma {:induction false} InsertAdds<T>(x: T, s: seq<T>, key: T -> int)
    ensures multiset(Insert(x, s, key)) == multiset{x} + multiset(s)
  {
    if s != [] && key(x) > key(s[0]) {
      InsertAdds(x, s[1..], key);
      HeadAndTail(s);
    }
  }

  lemma {:induction false} InsertSorts<T>(x: T, s: seq<T>, key: T -> int)
    requires Sorted(s, key)
    ensures Sorted(Insert(x, s, key), key)
  {
    if s != [] && key(x) > key(s[0]) {
      var rest := Insert(x, s[1..], key);
      TailSorted(s, key);
      InsertSorts(x, s[1..], key);
      InsertAdds(x, s[1..], key);
      assert forall i :: 0 <= i < |s| ==> key(s[0]) <= key(s[i]);
      forall i | 0 <= i < |rest| ensures key(s[0]) <= key(rest[i]) {
        assert rest[i] in multiset(rest);
        assert rest[i] == x || rest[i] in s[1..];
      }
      SmallerInFront(s[0], rest, key);
    }
  }

  lemma SmallerInFront<T>(x: T, s: seq<T>, key: T -> int)
    requires Sorted(s, key) && forall i :: 0 <= i < |s| ==> key(x) <= key(s[i])
    ensures Sorted([x] + s, key)
  {
  }

  lemma {:induction false} InsertKeepsClasses<T>(x: T, s: seq<T>, key: T -> int, k: int)
    ensures Class(Insert(x, s, key), key, k) == Class([x], key, k) + Class(s, key, k)
  {
    var one := Class([x], key, k);
    if s == [] {
      assert one + Class(s, key, k) == one;
    } else if key(x) <= key(s[0]) {
      ClassOfMore(x, s, key, k);
    } else {
      hide Class;
      InsertKeepsClasses(x, s[1..], key, k);
      ClassOfMore(s[0], Insert(x, s[1..], key), key, k);
      ClassOfMore(s[0], s[1..], key, k);
      assert [s[0]] + s[1..] == s;
      DifferentClasses(x, s[0], key, k);
      Associative(Class([s[0]], key, k), Class([x], key, k), Class(s[1..], key, k));
    }
  }

  lemma Associative<T>(a: seq<T>, b: seq<T>, c: seq<T>)
    ensures a + (b + c) == a + b + c
  {
  }

  lemma ClassOfMore<T>(x: T, s: seq<T>, key: T -> int, k: int)
    ensures Class([x] + s, key, k) == Class([x], key, k) + Class(s, key, k)
  {
    assert ([x] + s)[1..] == s;
  }

  lemma DifferentClasses<T>(x: T, y: T, key: T -> int, k: int)
    requires key(x) != key(y)
    ensures Class([x], key, k) == [] || Class([y], key, k) == []
  {
  }

  lemma {:induction false} SortSorts<T>(s: seq<T>, key: T -> int)
    ensures Sorted(Sort(s, key), key)
    ensures multiset(Sort(s, key)) == multiset(s)
  {
    if s != [] {
      SortSorts(s[1..], key);
      InsertSorts(s[0], Sort(s[1..], key), key);
      InsertAdds(s[0], Sort(s[1..], key), key);
      HeadAndTail(s);
    }
  }

  lemma {:induction false} SortKeepsClasses<T>(s: seq<T>, key: T -> int, k: int)
    ensures Class(Sort(s, key), key, k) == Class(s, key, k)
  {
    if s != [] {
      SortKeepsClasses(s[1..], key, k);
      InsertKeepsClasses(s[0], Sort(s[1..], key), key, k);
    }
  }

  /** A stable sort returns the same elements, ordered by key, with ties in their original order. */
  lemma SortIsStableSort<T>(s: seq<T>, key: T -> int)
    ensures Sorted(Sort(s, key), key)
    ensures multiset(Sort(s, key)) == multiset(s)
    ensures |Sort(s, key)| == |s|
    ensures forall k :: Class(Sort(s, key), key, k) == Class(s, key, k)
  {
    SortSorts(s, key);
    SameSize(Sort(s, key), s);
    forall k ensures Class(Sort(s, key), key, k) == Class(s, key, k) {
      SortKeepsClasses(s, key, k);
    }
  }

  lemma HeadAndTail<T>(s: seq<T>)
    requires s != []
    ensures multiset(s) == multiset{s[0]} + multiset(s[1..])
    ensures multiset(s[1..]) == multiset(s) - multiset{s[0]}
  {
    assert s == [s[0]] + s[1..];
  }

  lemma SameSize<T>(s: seq<T>, t: seq<T>)
    requires multiset(s) == multiset(t)
    ensures |s| == |t|
  {
    assert |multiset(s)| == |multiset(t)|;
  }

  lemma {:induction false} ClassMembers<T>(s: seq<T>, key: T -> int, k: int)
    ensures forall x :: x in Class(s, key, k) <==> x in s && key(x) == k
  {
    if s != [] {
      ClassMembers(s[1..], key, k);
    }
  }

  /** Being sorted with the original order among ties determines the result. */
  lemma {:induction false} StableSortIsUnique<T>(s: seq<T>, t: seq<T>, key: T -> int)
    requires Sorted(s, key) && Sorted(t, key)
    requires forall k :: Class(s, key, k) == Class(t, key, k)
    ensures s == t
  {
    SomeClassNotEmpty(s, key);
    SomeClassNotEmpty(t, key);
    if s != [] && t != [] {
      SameHead(s, t, key);
      forall k ensures Class(s[1..], key, k) == Class(t[1..], key, k) {
        assert Class(s, key, k) == Class(t, key, k);
        if key(s[0]) == k {
          assert ([s[0]] + Class(s[1..], key, k))[1..] == Class(s[1..], key, k);
          assert ([t[0]] + Class(t[1..], key, k))[1..] == Class(t[1..], key, k);
        } else {
          assert [] + Class(s[1..], key, k) == Class(s[1..], key, k);
          assert [] + Class(t[1..], key, k) == Class(t[1..], key, k);
        }
      }
      StableSortIsUnique(s[1..], t[1..], key);
      assert s == [s[0]] + s[1..] && t == [t[0]] + t[1..];
    }
  }

  lemma SomeClassNotEmpty<T>(s: seq<T>, key: T -> int)
    ensures s != [] ==> exists k :: Class(s, key, k) != []
  {
    if s != [] {
      assert Class(s, key, key(s[0])) != [];
    }
  }

  lemma SameHead<T>(s: seq<T>, t: seq<T>, key: T -> int)
    requires s != [] && t != [] && Sorted(s, key) && Sorted(t, key)
    requires forall k :: Class(s, key, k) == Class(t, key, k)
    ensures s[0] == t[0]
  {
    var a, b := key(s[0]), key(t[0]);
    ClassMembers(s, key, a);
    ClassMembers(t, key, a);
    ClassMembers(s, key, b);
    ClassMembers(t, key, b);
    assert s[0] in s && t[0] in t;
    assert Class(s, key, a) == Class(t, key, a);
    assert Class(s, key, b) == Class(t, key, b);
    assert s[0] in t && t[0] in s;
    assert a == b;
    assert Class(s, key, a)[0] == s[0];
    assert Class(t, key, a)[0] == t[0];
  }

  /** Sorting a sequence that is already sorted moves nothing. */
  lemma SortOfSorted<T>(s: seq<T>, key: T -> int)
    requires Sorted(s, key)
    ensures Sort(s, key) == s
  {
    SortIsStableSort(s, key);
    StableSortIsUnique(Sort(s, key), s, key);
  }

  ghost predicate DistinctKeys<T>(s: seq<T>, key: T -> int) {
    forall i, j :: 0 <= i < j < |s| ==> key(s[i]) != key(s[j])
  }

  /** With distinct keys there are no ties, and the input order does not matter at all. */
  lemma {:induction false} SortedPermutationIsUnique<T>(s: seq<T>, t: seq<T>, key: T -> int)
    requires Sorted(s, key) && Sorted(t, key)
    requires multiset(s) == multiset(t)
    requires DistinctKeys(s, key)
    ensures s == t
  {
    hide Sorted, DistinctKeys;
    SameSize(s, t);
    if s != [] {
      SmallestFirst(s, t, key);
      HeadAndTail(s);
      HeadAndTail(t);
      TailSorted(s, key);
      TailSorted(t, key);
      TailDistinct(s, key);
      SortedPermutationIsUnique(s[1..], t[1..], key);
      assert s == [s[0]] + s[1..] && t == [t[0]] + t[1..];
    }
  }

  lemma TailSorted<T>(s: seq<T>, key: T -> int)
    requires s != [] && Sorted(s, key)
    ensures Sorted(s[1..], key)
  {
  }

  lemma TailDistinct<T>(s: seq<T>, key: T -> int)
    requires s != [] && DistinctKeys(s, key)
    ensures DistinctKeys(s[1..], key)
  {
  }

  lemma SmallestFirst<T>(s: seq<T>, t: seq<T>, key: T -> int)
    requires s != [] && t != [] && Sorted(s, key) && Sorted(t, key)
    requires multiset(s) == multiset(t)
    requires DistinctKeys(s, key)
    ensures s[0] == t[0]
  {
    assert s[0] in multiset(t) && t[0] in multiset(s);
    var i :| 0 <= i < |t| && t[i] == s[0];
    var j :| 0 <= j < |s| && s[j] == t[0];
    assert key(t[0]) <= key(t[i]) && key(s[0]) <= key(s[j]);
  }

  // ---- Properties of pairs that do not depend on the order ---------------------------------------------

  ghost predicate Apart<T>(s: seq<T>, clash: (T, T) -> bool) {
    forall i, j :: 0 <= i < j < |s| ==> !clash(s[i], s[j])
  }

  lemma {:induction false} ApartPermutes<T(!new)>(s: seq<T>, t: seq<T>, clash: (T, T) -> bool)
    requires multiset(s) == multiset(t)
    requires forall x, y :: clash(x, y) == clash(y, x)
    requires Apart(s, clash)
    ensures Apart(t, clash)
  {
    SameSize(s, t);
    if t != [] {
      assert t[0] in multiset(s);
      var i :| 0 <= i < |s| && s[i] == t[0];
      RemoveAt(s, i);
      HeadAndTail(t);
      WithoutOne(s, i, clash);
      ApartPermutes(s[..i] + s[i + 1..], t[1..], clash);
      forall x | x in t[1..] ensures !clash(t[0], x) {
        assert x in multiset(s[..i] + s[i + 1..]);
      }
      HeadApart(t, clash);
    }
  }

  lemma WithoutOne<T(!new)>(s: seq<T>, i: nat, clash: (T, T) -> bool)
    requires i < |s| && Apart(s, clash)
    requires forall x, y :: clash(x, y) == clash(y, x)
    ensures Apart(s[..i] + s[i + 1..], clash)
    ensures forall x :: x in s[..i] + s[i + 1..] ==> !clash(s[i], x)
  {
    var rest := s[..i] + s[i + 1..];
    assert forall k :: 0 <= k < |rest| ==> rest[k] == if k < i then s[k] else s[k + 1];
  }

  lemma HeadApart<T>(t: seq<T>, clash: (T, T) -> bool)
    requires t != [] && Apart(t[1..], clash)
    requires forall x :: x in t[1..] ==> !clash(t[0], x)
    ensures Apart(t, clash)
  {
    forall i, j | 0 <= i < j < |t| ensures !clash(t[i], t[j]) {
      assert t[j] == t[1..][j - 1];
      assert i > 0 ==> t[i] == t[1..][i - 1];
    }
  }

  /** Cutting off equal tails leaves equal multisets. */
  lemma SplitMultisets<T>(s: seq<T>, n: nat, front: seq<T>, back: seq<T>)
    requires n <= |s| && multiset(s) == multiset(front + back) && s[n..] == back
    ensures multiset(s[..n]) == multiset(front)
  {
    assert s == s[..n] + back;
    assert multiset(s[..n] + back) == multiset(s[..n]) + multiset(back);
    assert multiset(s) - multiset(back) == multiset(s[..n]);
    assert multiset(front + back) - multiset(back) == multiset(front);
  }

  lemma RemoveAt<T>(s: seq<T>, i: nat)
    requires i < |s|
    ensures multiset(s[..i] + s[i + 1..]) == multiset(s) - multiset{s[i]}
  {
    assert s == s[..i] + [s[i]] + s[i + 1..];
  }
}
